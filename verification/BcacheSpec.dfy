/** lib/bcache/bcache.c, what a write-back cache stands for: the block cached, else the block on
    the device. */
module BcacheSpec {
  import opened Wrappers

  type Block = seq<byte>

  datatype Slot = Slot(num: nat, refs: nat, dirty: bool, data: Block)

  /** The slots on the LRU list hold different blocks, and the clean ones agree with the device. */
  ghost predicate ListOk(slots: seq<Slot>, lru: seq<nat>, disk: seq<Block>) {
    && Distinct(lru) && (forall s | s in lru :: s < |slots|) && (forall i | 0 <= i < |lru| :: lru[i] < |slots|)
    && (forall s, t | s in lru && t in lru && s != t :: slots[s].num != slots[t].num)
    && (forall s | s in lru :: SlotOk(slots[s], disk))
  }

  ghost predicate SlotOk(s: Slot, disk: seq<Block>) {
    s.num < |disk| && (!s.dirty ==> s.data == disk[s.num])
  }

  ghost predicate Hit(slots: seq<Slot>, lru: seq<nat>, b: nat)
    requires forall s | s in lru :: s < |slots|
  {
    exists s | s in lru :: slots[s].num == b
  }

  ghost function View(slots: seq<Slot>, lru: seq<nat>, disk: seq<Block>, b: nat): Block
    requires (forall s | s in lru :: s < |slots|) && b < |disk|
  {
    if Hit(slots, lru, b) then
      var s :| s in lru && slots[s].num == b;
      slots[s].data
    else disk[b]
  }

  lemma ViewHit(slots: seq<Slot>, lru: seq<nat>, disk: seq<Block>, s: nat)
    requires ListOk(slots, lru, disk) && s in lru
    ensures View(slots, lru, disk, slots[s].num) == slots[s].data
  {
    assert Hit(slots, lru, slots[s].num);
  }

  /** Two states stand for the same contents. */
  ghost predicate SameView(slots: seq<Slot>, lru: seq<nat>, disk: seq<Block>, slots': seq<Slot>, lru': seq<nat>, disk': seq<Block>)
    requires ListOk(slots, lru, disk) && ListOk(slots', lru', disk')
  {
    |disk'| == |disk| && forall b: nat | b < |disk| :: View(slots', lru', disk', b) == View(slots, lru, disk, b)
  }

  ghost predicate SameMembers(a: seq<nat>, b: seq<nat>) { forall s :: s in a <==> s in b }

  /** Reordering the list changes nothing. */
  lemma Reorder(slots: seq<Slot>, lru: seq<nat>, lru': seq<nat>, disk: seq<Block>)
    requires ListOk(slots, lru, disk) && SameMembers(lru, lru') && Distinct(lru')
    ensures ListOk(slots, lru', disk) && SameView(slots, lru, disk, slots, lru', disk)
  {
    assert forall i | 0 <= i < |lru'| :: lru'[i] in lru';
    forall b: nat | b < |disk| ensures View(slots, lru', disk, b) == View(slots, lru, disk, b) {
      if Hit(slots, lru, b) {
        var s :| s in lru && slots[s].num == b;
        ViewHit(slots, lru, disk, s);
        ViewHit(slots, lru', disk, s);
      }
    }
  }

  /** Writing a cached block to the device changes nothing. */
  lemma FlushOne(slots: seq<Slot>, lru: seq<nat>, disk: seq<Block>, s: nat)
    requires ListOk(slots, lru, disk) && s in lru
    ensures var slots', disk' := slots[s := slots[s].(dirty := false)], disk[slots[s].num := slots[s].data];
            ListOk(slots', lru, disk') && SameView(slots, lru, disk, slots', lru, disk')
  {
    var slots', disk' := slots[s := slots[s].(dirty := false)], disk[slots[s].num := slots[s].data];
    forall t | t in lru ensures SlotOk(slots'[t], disk') { assert SlotOk(slots[t], disk); }
    forall b: nat | b < |disk| ensures View(slots', lru, disk', b) == View(slots, lru, disk, b) {
      if Hit(slots, lru, b) {
        var t :| t in lru && slots[t].num == b;
        ViewHit(slots, lru, disk, t);
        ViewHit(slots', lru, disk', t);
      }
    }
  }

  /** Dropping a clean block changes nothing. */
  lemma Evict(slots: seq<Slot>, lru: seq<nat>, disk: seq<Block>, s: nat, lru': seq<nat>)
    requires ListOk(slots, lru, disk) && s in lru && !slots[s].dirty && Distinct(lru')
    requires forall t :: t in lru' <==> t in lru && t != s
    ensures ListOk(slots, lru', disk) && SameView(slots, lru, disk, slots, lru', disk)
  {
    assert forall i | 0 <= i < |lru'| :: lru'[i] in lru';
    forall b: nat | b < |disk| ensures View(slots, lru', disk, b) == View(slots, lru, disk, b) {
      if Hit(slots, lru, b) {
        var t :| t in lru && slots[t].num == b;
        ViewHit(slots, lru, disk, t);
        if t != s { ViewHit(slots, lru', disk, t); }
      }
    }
  }

  /** Putting a block in a slot that was not on the list changes at most that block. */
  lemma Fill(slots: seq<Slot>, lru: seq<nat>, disk: seq<Block>, s: nat, e: Slot)
    requires ListOk(slots, lru, disk) && s !in lru && s < |slots| && SlotOk(e, disk) && !Hit(slots, lru, e.num)
    ensures var slots', lru' := slots[s := e], lru + [s];
            && ListOk(slots', lru', disk) && View(slots', lru', disk, e.num) == e.data
            && forall b: nat | b < |disk| && b != e.num :: View(slots', lru', disk, b) == View(slots, lru, disk, b)
  {
    var slots', lru' := slots[s := e], lru + [s];
    assert forall t :: t in lru' <==> t in lru || t == s;
    forall t, u | t in lru' && u in lru' && t != u ensures slots'[t].num != slots'[u].num {}
    ViewHit(slots', lru', disk, s);
    forall b: nat | b < |disk| && b != e.num ensures View(slots', lru', disk, b) == View(slots, lru, disk, b) {
      if Hit(slots, lru, b) {
        var t :| t in lru && slots[t].num == b;
        ViewHit(slots, lru, disk, t);
        ViewHit(slots', lru', disk, t);
      }
    }
  }

  /** Rewriting a cached block and marking it changes that block only. */
  lemma Rewrite(slots: seq<Slot>, lru: seq<nat>, disk: seq<Block>, s: nat, e: Slot)
    requires ListOk(slots, lru, disk) && s in lru && e.num == slots[s].num && (e.dirty || SlotOk(e, disk))
    ensures var slots' := slots[s := e];
            && ListOk(slots', lru, disk) && View(slots', lru, disk, e.num) == e.data
            && forall b: nat | b < |disk| && b != e.num :: View(slots', lru, disk, b) == View(slots, lru, disk, b)
  {
    var slots' := slots[s := e];
    assert SlotOk(slots[s], disk);
    ViewHit(slots', lru, disk, s);
    forall b: nat | b < |disk| && b != e.num ensures View(slots', lru, disk, b) == View(slots, lru, disk, b) {
      if Hit(slots, lru, b) {
        var t :| t in lru && slots[t].num == b;
        ViewHit(slots, lru, disk, t);
        ViewHit(slots', lru, disk, t);
      }
    }
  }

  /** With every cached block clean, the device is what the cache stands for. */
  lemma AllClean(slots: seq<Slot>, lru: seq<nat>, disk: seq<Block>)
    requires ListOk(slots, lru, disk) && forall s | s in lru :: !slots[s].dirty
    ensures forall b: nat | b < |disk| :: View(slots, lru, disk, b) == disk[b]
  {
    forall b: nat | b < |disk| ensures View(slots, lru, disk, b) == disk[b] {
      if Hit(slots, lru, b) {
        var s :| s in lru && slots[s].num == b;
        ViewHit(slots, lru, disk, s);
        assert SlotOk(slots[s], disk);
      }
    }
  }

  // ------------------------------------------------------------- the list

  /** list_delete, then list_add_tail: the most recently used slot comes last. */
  function ToTail(s: seq<nat>, i: nat): seq<nat>
    requires i < |s|
  {
    RemoveAt(s, i) + [s[i]]
  }

  lemma ToTailIs(s: seq<nat>, i: nat)
    requires Distinct(s) && i < |s|
    ensures Distinct(ToTail(s, i)) && SameMembers(s, ToTail(s, i))
  {
    RemoveAtIs(s, i);
    assert s[i] in s;
  }

  /** The list is in order of last use. */
  ghost predicate ByAge(used: map<nat, nat>, lru: seq<nat>) {
    && (forall i | 0 <= i < |lru| :: lru[i] in used)
    && (forall i, j | 0 <= i < j < |lru| :: used[lru[i]] < used[lru[j]])
  }

  lemma UseKeepsAge(used: map<nat, nat>, lru: seq<nat>, i: nat, now: nat)
    requires ByAge(used, lru) && i < |lru| && Distinct(lru) && forall s | s in used :: used[s] < now
    ensures ByAge(used[lru[i] := now], ToTail(lru, i))
  {
    RemoveAtIs(lru, i);
    NewKeepsAge(used, RemoveAt(lru, i), lru[i], now);
  }

  lemma NewKeepsAge(used: map<nat, nat>, lru: seq<nat>, s: nat, now: nat)
    requires ByAge(used, lru) && s !in lru && forall t | t in used :: used[t] < now
    ensures ByAge(used[s := now], lru + [s])
  {
    var r := lru + [s];
    assert forall i | 0 <= i < |lru| :: r[i] == lru[i] && lru[i] in lru;
  }

  lemma RemovedKeepsAge(used: map<nat, nat>, lru: seq<nat>, i: nat)
    requires ByAge(used, lru) && i < |lru|
    ensures ByAge(used, RemoveAt(lru, i))
  {
    var r := RemoveAt(lru, i);
    assert forall j | 0 <= j < |r| :: r[j] == lru[if j < i then j else j + 1];
  }
}
