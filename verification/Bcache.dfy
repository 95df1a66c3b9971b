/** lib/bcache/bcache.c: the cache at work, its slots, lists and device changed in place. What the
    device answers is a parameter: `bad` are the blocks it fails to write, `readOk` says whether it reads. */
module Bcache {
  import opened Wrappers
  import opened BcacheSpec

  /** The list is in order of last use, and the clock is later than all uses. */
  ghost predicate Dated(used: map<nat, nat>, clock: nat, list: seq<nat>) {
    ByAge(used, list) && forall s | s in used :: used[s] < clock
  }

  /** Every slot is on one of the two lists; those on the free list hold no changes. */
  ghost predicate Sorted(slots: seq<Slot>, free: seq<nat>, lru: seq<nat>) {
    && Distinct(free) && (forall s | s in free :: s < |slots| && s !in lru && !slots[s].dirty)
    && forall s: nat | s < |slots| :: s in free || s in lru
  }

  class Cache {
    const blockSize: nat
    var slots: seq<Slot>
    var free: seq<nat>
    var lru: seq<nat>
    var disk: seq<Block>
    /** When each slot was last used. */
    ghost var used: map<nat, nat>
    ghost var clock: nat

    /** Everything but the slots on the LRU list: `list` is that list or the settled part of it. */
    ghost predicate Sane(list: seq<nat>)
      reads this
    {
      ListOk(slots, list, disk) && Dated(used, clock, list) && Sorted(slots, free, lru)
    }

    ghost predicate Valid()
      reads this
    {
      Sane(lru)
    }

    /** Block `b` as the cache's user sees it. */
    ghost function Sees(b: nat): Block
      requires Valid() && b < |disk|
      reads this
    {
      View(slots, lru, disk, b)
    }

    /** bcache_create */
    constructor (size: nat, count: nat, device: seq<Block>)
      ensures Valid() && lru == [] && disk == device && |slots| == count && blockSize == size && |free| == count
    {
      blockSize, lru, disk, used, clock := size, [], device, map[], 0;
      slots := seq(count, _ => Slot(0, 0, false, []));
      free := seq(count, i requires 0 <= i < count => count - 1 - i);
      new;
      forall s: nat | s < count ensures s in free { assert free[count - 1 - s] == s; }
    }

    /** Slot lru[i] has just been used. */
    method Touch(i: nat)
      requires Valid() && i < |lru|
      modifies this`lru, this`used, this`clock
      ensures Valid() && lru == ToTail(old(lru), i) && SameMembers(old(lru), lru)
      ensures SameView(slots, old(lru), disk, slots, lru, disk)
    {
      ToTailIs(lru, i);
      UseKeepsAge(used, lru, i, clock);
      Reorder(slots, lru, ToTail(lru, i), disk);
      used := used[lru[i] := clock];
      clock := clock + 1;
      lru := lru[..i] + lru[i + 1..] + [lru[i]];
    }

    /** find_block: the slot that holds a block, which becomes the most recently used */
    method FindBlock(b: nat) returns (s: Option<nat>)
      requires Valid()
      modifies this`lru, this`used, this`clock
      ensures Valid() && SameMembers(old(lru), lru) && SameView(slots, old(lru), disk, slots, lru, disk)
      ensures s.Some? ==> s.value in lru && slots[s.value].num == b && lru[|lru| - 1] == s.value
      ensures s.Some? ==> exists i :: 0 <= i < |old(lru)| && old(lru)[i] == s.value && lru == ToTail(old(lru), i)
      ensures s.None? ==> !Hit(slots, lru, b) && lru == old(lru) && used == old(used)
    {
      var i := 0;
      while i < |lru|
        invariant i <= |lru| && Valid() && lru == old(lru) && used == old(used) && clock == old(clock)
        invariant forall j | 0 <= j < i :: slots[lru[j]].num != b
      {
        if slots[lru[i]].num == b {
          var found := lru[i];
          Touch(i);
          return Some(found);
        }
        i := i + 1;
      }
      Reorder(slots, lru, lru, disk);
      return None;
    }

    /** flush_block */
    method FlushBlock(s: nat, bad: set<nat>) returns (ok: bool)
      requires Valid() && s in lru
      modifies this`slots, this`disk
      ensures Valid() && (ok <==> old(slots)[s].num !in bad)
      ensures slots == if ok then old(slots)[s := old(slots)[s].(dirty := false)] else old(slots)
      ensures !ok ==> disk == old(disk)
      ensures SameView(old(slots), lru, old(disk), slots, lru, disk)
    {
      if slots[s].num in bad {
        Reorder(slots, lru, lru, disk);
        return false;
      }
      FlushOne(slots, lru, disk, s);
      disk := disk[slots[s].num := slots[s].data];
      slots := slots[s := slots[s].(dirty := false)];
      return true;
    }

    /** A slot has just been put at the end of the LRU list and is to be given a block. */
    ghost predicate Open(s: nat)
      reads this
    {
      && lru != [] && lru[|lru| - 1] == s && s !in Rest() && s < |slots|
      && Sane(Rest()) && !slots[s].dirty && slots[s].refs == 0
    }

    ghost function Rest(): seq<nat>
      requires lru != []
      reads this
    {
      lru[..|lru| - 1]
    }

    /** The first unpinned slot in the order of last use. */
    method FirstUnpinned() returns (i: nat)
      requires Valid()
      ensures i <= |lru| && (i < |lru| ==> lru[i] < |slots| && slots[lru[i]].refs == 0)
      ensures forall j | 0 <= j < i :: lru[j] < |slots| && slots[lru[j]].refs > 0
    {
      i := 0;
      while i < |lru| && slots[lru[i]].refs > 0
        invariant i <= |lru| && forall j | 0 <= j < i :: lru[j] < |slots| && slots[lru[j]].refs > 0
      {
        i := i + 1;
      }
    }

    /** alloc_block when there is a free slot */
    method TakeFree() returns (s: nat)
      requires Valid() && free != []
      modifies this`free, this`lru, this`slots
      ensures Open(s) && s == old(free)[0] && Rest() == old(lru) && free == old(free)[1..]
      ensures slots == old(slots)[s := old(slots)[s].(refs := 0)]
      ensures SameView(old(slots), old(lru), disk, slots, Rest(), disk)
    {
      s := free[0];
      assert s in free;
      ghost var was := slots;
      slots := slots[s := slots[s].(refs := 0)];
      assert lru + [s] != [] && (lru + [s])[..|lru|] == lru;
      SameSlots(was, slots, lru, disk);
      free := free[1..];
      lru := lru + [s];
      assert forall t :: t in old(free) <==> t == s || t in free;
    }

    /** alloc_block when there is none: the least recently used slot that is not pinned goes. */
    method EvictOne(i: nat, bad: set<nat>) returns (s: nat)
      requires Valid() && free == [] && i < |lru| && slots[lru[i]].refs == 0 && !Stuck(slots[lru[i]], bad)
      modifies this`lru, this`slots, this`disk
      ensures Open(s) && s == old(lru)[i] && Rest() == RemoveAt(old(lru), i)
      ensures slots == old(slots)[s := old(slots)[s].(dirty := false)]
      ensures SameView(old(slots), old(lru), old(disk), slots, Rest(), disk)
    {
      s := lru[i];
      assert s in lru;
      if slots[s].dirty { var _ := FlushBlock(s, bad); } else { Reorder(slots, lru, lru, disk); }
      assert slots == old(slots)[s := old(slots)[s].(dirty := false)];
      RemoveAtIs(lru, i);
      Evict(slots, lru, disk, s, RemoveAt(lru, i));
      RemovedKeepsAge(used, lru, i);
      lru := lru[..i] + lru[i + 1..] + [s];
      assert Rest() == RemoveAt(old(lru), i);
    }

    /** A slot is free, or the one to be evicted is clean or can be written back. */
    ghost predicate Room(bad: set<nat>)
      requires Valid()
      reads this
    {
      free != [] || exists t: nat :: Oldest(slots, lru, used, t) && !Stuck(slots[t], bad)
    }

    /** Every slot is free or in use, none is both. */
    lemma SlotsCounted()
      requires Valid()
      ensures |free| + |lru| == |slots|
    {
      CoverCount(free, lru, |slots|);
    }

    /** Unless the device fails, no slot can be had exactly if as many as the cache has are pinned. */
    lemma RoomIff()
      requires Valid()
      ensures !Room({}) <==> forall s: nat | s < |slots| :: s in lru && slots[s].refs > 0
    {
      if free == [] && exists s: nat :: s < |slots| && s in lru && slots[s].refs == 0 {
        var s: nat :| s < |slots| && s in lru && slots[s].refs == 0;
        var t := SomeOldest(slots, lru, used, s);
        assert !Stuck(slots[t], {});
      }
      if free != [] { assert free[0] in free; }
    }

    /** alloc_block: a free slot, else the least recently used unpinned one, flushed if need be */
    method AllocBlock(bad: set<nat>) returns (s: Option<nat>)
      requires Valid()
      modifies this`free, this`lru, this`slots, this`disk
      ensures s.None? ==> free == [] && lru == old(lru) && slots == old(slots) && disk == old(disk) && Valid()
      ensures s.Some? <==> old(Room(bad))
      ensures s.Some? ==> Open(s.value) && SameView(old(slots), old(lru), old(disk), slots, Rest(), disk)
      ensures s.Some? ==> KeptBut(old(slots), old(lru), slots, Rest(), s.value)
      ensures s.Some? && old(free) != [] ==> s.value == old(free)[0] && Rest() == old(lru) && free == old(free)[1..]
      ensures s.Some? && old(free) == [] ==>
                exists i :: 0 <= i < |old(lru)| && old(lru)[i] == s.value && Rest() == RemoveAt(old(lru), i)
      ensures s.Some? && old(free) == [] ==> free == [] && Oldest(old(slots), old(lru), used, s.value)
    {
      if free != [] {
        var t := TakeFree();
        return Some(t);
      }
      var i := FirstUnpinned();
      if i == |lru| {
        assert forall t | t in lru :: exists j :: 0 <= j < |lru| && lru[j] == t;
        return None;
      }
      assert lru[i] in lru;
      FirstIsOldest(slots, lru, used, i);
      if slots[lru[i]].dirty && slots[lru[i]].num in bad { return None; }
      RemoveAtIs(lru, i);
      var t := EvictOne(i, bad);
      return Some(t);
    }

    /** The open slot is given block `b` with these contents. */
    method GiveBlock(s: nat, b: nat, dirty: bool, data: Block)
      requires Open(s) && b < |disk| && !Hit(slots, Rest(), b) && (!dirty ==> data == disk[b])
      modifies this`slots, this`used, this`clock
      ensures Valid() && slots == old(slots)[s := Slot(b, 0, dirty, data)] && Sees(b) == data
      ensures forall c: nat | c < |disk| && c != b :: Sees(c) == View(old(slots), Rest(), disk, c)
    {
      assert lru == Rest() + [s];
      Fill(slots, Rest(), disk, s, Slot(b, 0, dirty, data));
      NewKeepsDate(used, Rest(), s, clock);
      SortedStays(slots, free, lru, s, Slot(b, 0, dirty, data));
      used := used[s := clock];
      clock := clock + 1;
      slots := slots[s := Slot(b, 0, dirty, data)];
    }

    /** There is a slot for a block: it is cached, or one can be had. */
    ghost predicate CanHold(b: nat, bad: set<nat>)
      requires Valid()
      reads this
    {
      Hit(slots, lru, b) || Room(bad)
    }

    /** A block that is not cached is given a slot. */
    method Install(b: nat, dirty: bool, data: Block, bad: set<nat>) returns (s: Option<nat>)
      requires Valid() && b < |disk| && !Hit(slots, lru, b) && (!dirty ==> data == disk[b])
      modifies this
      ensures Valid() && |disk| == |old(disk)| && (s.Some? <==> old(Room(bad)))
      ensures s.None? ==> lru == old(lru) && slots == old(slots) && disk == old(disk)
      ensures s.Some? ==> s.value in lru && slots[s.value].num == b && slots[s.value].refs == 0 && Sees(b) == data
      ensures s.Some? ==> Pins(old(slots), old(lru), slots, lru) && Pins(slots, lru, old(slots), old(lru))
      ensures s.Some? ==> forall c: nat | c < |disk| && c != b :: Sees(c) == old(Sees(c))
    {
      assert View(slots, lru, disk, b) == disk[b];
      s := AllocBlock(bad);
      if s.Some? { Occupy(s.value, b, dirty, data, old(slots), old(lru), old(disk)); }
    }

    /** The slot that was allocated from the state given is filled with the block. */
    method Occupy(s: nat, b: nat, dirty: bool, data: Block, ghost was: seq<Slot>, ghost list: seq<nat>, ghost device: seq<Block>)
      requires Open(s) && b < |disk| == |device| && ListOk(was, list, device) && !Hit(was, list, b)
      requires !dirty ==> data == device[b]
      requires SameView(was, list, device, slots, Rest(), disk) && KeptBut(was, list, slots, Rest(), s)
      modifies this`slots, this`used, this`clock
      ensures Valid() && s in lru && slots[s].num == b && slots[s].refs == 0 && Sees(b) == data
      ensures Pins(was, list, slots, lru) && Pins(slots, lru, was, list)
      ensures forall c: nat | c < |disk| && c != b :: Sees(c) == View(was, list, device, c)
    {
      MissSees(was, list, device, slots, Rest(), disk, s, b);
      PinsInstalled(was, list, slots, Rest(), s, Slot(b, 0, dirty, data));
      assert lru == Rest() + [s];
      GiveBlock(s, b, dirty, data);
    }

    /** The error path of find_or_fill_block: the slot goes on the free list and stays on the other. */
    method FailToFill(b: nat, bad: set<nat>)
      requires Valid() && Room(bad)
      modifies this
      ensures exists t :: t in free && t in lru
    {
      var s := AllocBlock(bad);
      slots := slots[s.value := slots[s.value].(num := b)];
      free := free + [s.value];
      assert free[|free| - 1] == s.value && lru[|lru| - 1] == s.value;
      assert s.value in free && s.value in lru;
    }

    /** find_or_fill_block. A failed read leaves a slot on both lists. */
    method FindOrFill(b: nat, readOk: bool, bad: set<nat>) returns (s: Option<nat>)
      requires Valid() && b < |disk| && CanHold(b, bad)
      modifies this
      ensures s.Some? <==> old(Hit(slots, lru, b)) || readOk
      ensures Valid() <==> s.Some?
      ensures s.Some? ==> s.value in lru && slots[s.value].num == b
      ensures s.Some? ==> SameView(old(slots), old(lru), old(disk), slots, lru, disk)
      ensures s.Some? ==> Pins(old(slots), old(lru), slots, lru) && SamePins(old(slots), old(lru), slots, lru)
      ensures s.None? ==> exists t :: t in free && t in lru
    {
      s := FindBlock(b);
      PinsReordered(old(slots), old(lru), slots, lru, disk);
      if s.Some? { assert Hit(slots, lru, b); return; }
      ghost var lru1 := lru;
      assert Sees(b) == disk[b] && old(Sees(b)) == disk[b] && Room(bad);
      if !readOk {
        FailToFill(b, bad);
        return None;
      }
      s := Install(b, false, disk[b], bad);
      PinsKept(old(slots), lru1, old(disk), slots, lru, disk);
      forall c: nat | c < |disk| ensures View(slots, lru, disk, c) == View(old(slots), old(lru), old(disk), c) {
        assert Sees(c) == old(Sees(c));
      }
    }

    /** bcache_read_block: the block as it is seen, which no read changes */
    method ReadBlock(b: nat, readOk: bool, bad: set<nat>) returns (buf: Option<Block>)
      requires Valid() && b < |disk| && CanHold(b, bad)
      modifies this
      ensures buf.Some? <==> old(Hit(slots, lru, b)) || readOk
      ensures Valid() <==> buf.Some?
      ensures buf.Some? ==> SameView(old(slots), old(lru), old(disk), slots, lru, disk)
      ensures buf.Some? ==> buf.value == old(Sees(b)) && SamePins(old(slots), old(lru), slots, lru)
    {
      var s := FindOrFill(b, readOk, bad);
      if s.None? { return None; }
      ViewHit(slots, lru, disk, s.value);
      buf := Some(slots[s.value].data);
      assert Sees(b) == old(Sees(b));
    }

    /** The record of a listed slot changes in its count or its contents. */
    method Update(s: nat, e: Slot)
      requires Valid() && s in lru && e.num == slots[s].num && (e.dirty || SlotOk(e, disk))
      modifies this`slots
      ensures Valid() && slots == old(slots)[s := e] && Sees(e.num) == e.data
      ensures forall c: nat | c < |disk| && c != e.num :: Sees(c) == old(Sees(c))
    {
      Rewrite(slots, lru, disk, s, e);
      slots := slots[s := e];
    }

    /** A listed slot is pinned or unpinned. */
    method Recount(s: nat, refs: nat)
      requires Valid() && s in lru
      modifies this`slots
      ensures Valid() && slots == old(slots)[s := old(slots)[s].(refs := refs)]
      ensures SameView(old(slots), lru, disk, slots, lru, disk)
    {
      ViewHit(slots, lru, disk, s);
      assert SlotOk(slots[s], disk);
      Rewrite(slots, lru, disk, s, slots[s].(refs := refs));
      slots := slots[s := slots[s].(refs := refs)];
    }

    /** bcache_get_block: pins the block's slot */
    method GetBlock(b: nat, readOk: bool, bad: set<nat>) returns (s: Option<nat>)
      requires Valid() && b < |disk| && CanHold(b, bad)
      modifies this
      ensures s.Some? <==> old(Hit(slots, lru, b)) || readOk
      ensures Valid() <==> s.Some?
      ensures s.Some? ==>
                && s.value in lru && slots[s.value].num == b && slots[s.value].refs > 0 && slots[s.value].data == old(Sees(b))
                && SameView(old(slots), old(lru), old(disk), slots, lru, disk)
                && forall c: nat :: PinsOf(slots, lru, c) == old(PinsOf(slots, lru, c)) + if c == b then 1 else 0
    {
      s := FindOrFill(b, readOk, bad);
      if s.None? { return; }
      ViewHit(slots, lru, disk, s.value);
      assert Sees(b) == old(Sees(b));
      ghost var was := slots;
      Recount(s.value, slots[s.value].refs + 1);
      OnePinned(was, slots, lru, disk, s.value);
    }

    /** bcache_put_block: `s` is the slot it unpins once */
    method PutBlock(b: nat) returns (ghost s: nat)
      requires Valid() && exists s | s in lru :: slots[s].num == b && slots[s].refs > 0
      modifies this
      ensures Valid() && disk == old(disk) && SameView(old(slots), old(lru), disk, slots, lru, disk) && SameMembers(old(lru), lru)
      ensures s in lru && old(slots)[s].num == b && old(slots)[s].refs > 0
      ensures slots == old(slots)[s := old(slots)[s].(refs := old(slots)[s].refs - 1)]
    {
      ghost var h :| h in lru && slots[h].num == b && slots[h].refs > 0;
      var found := FindBlock(b);
      assert found.value == h;
      Recount(found.value, slots[found.value].refs - 1);
      s := found.value;
    }

    /** A write through the pointer of a pinned block, then bcache_mark_block_dirty */
    method WritePinned(s: nat, data: Block)
      requires Valid() && s in lru && slots[s].refs > 0
      modifies this
      ensures Valid() && disk == old(disk) && Sees(old(slots[s].num)) == data && SameMembers(old(lru), lru)
      ensures slots == old(slots)[s := old(slots)[s].(data := data, dirty := true)]
      ensures forall c: nat | c < |disk| && c != old(slots[s].num) :: Sees(c) == old(Sees(c))
    {
      var b := slots[s].num;
      assert SlotOk(slots[s], disk);
      var found := FindBlock(b);
      assert found.value == s;
      Update(s, slots[s].(data := data, dirty := true));
    }

    /** bcache_zero_block; false when no slot could be had */
    method ZeroBlock(b: nat, bad: set<nat>) returns (ok: bool)
      requires Valid() && b < |disk|
      modifies this
      ensures Valid() && |disk| == |old(disk)| && (ok <==> old(CanHold(b, bad)))
      ensures ok ==> Sees(b) == seq(blockSize, _ => 0) && SamePins(old(slots), old(lru), slots, lru)
      ensures forall c: nat | c < |disk| && (c != b || !ok) :: Sees(c) == old(Sees(c))
    {
      var zero := seq(blockSize, _ => 0);
      var found := FindBlock(b);
      if found.Some? {
        ghost var was := slots;
        PinsReordered(old(slots), old(lru), slots, lru, disk);
        Update(found.value, slots[found.value].(data := zero, dirty := true));
        OnePinned(was, slots, lru, disk, found.value);
        PinsHit(was, lru, disk, found.value);
        return true;
      }
      ghost var was, lru1, disk1 := slots, lru, disk;
      var got := Install(b, true, zero, bad);
      if got.Some? { PinsKept(was, lru1, disk1, slots, lru, disk); }
      return got.Some?;
    }

    method FlushTurn(i: nat, bad: set<nat>) returns (ok: bool)
      requires Valid() && i < |lru|
      modifies this`slots, this`disk
      ensures Valid() && lru[i] < |slots| && (ok <==> !Stuck(old(slots)[lru[i]], bad))
      ensures slots == old(slots)[lru[i] := old(slots)[lru[i]].(dirty := slots[lru[i]].dirty)]
      ensures ok ==> !slots[lru[i]].dirty
      ensures SameView(old(slots), lru, old(disk), slots, lru, disk)
    {
      assert lru[i] in lru;
      if slots[lru[i]].dirty {
        ok := FlushBlock(lru[i], bad);
      } else {
        Reorder(slots, lru, lru, disk);
        ok := true;
      }
    }

    /** bcache_flush: the device becomes what the cache stands for, unless a write fails */
    method Flush(bad: set<nat>) returns (ok: bool)
      requires Valid()
      modifies this`slots, this`disk
      ensures Valid() && SameView(old(slots), lru, old(disk), slots, lru, disk)
      ensures ok <==> forall i | 0 <= i < |lru| :: !Stuck(old(slots)[lru[i]], bad)
      ensures OnlyCleaned(old(slots), slots)
      ensures ok ==> forall b: nat | b < |disk| :: disk[b] == old(Sees(b))
    {
      var i := 0;
      Reorder(slots, lru, lru, disk);
      while i < |lru|
        invariant i <= |lru| && Valid() && SameView(old(slots), lru, old(disk), slots, lru, disk) && OnlyCleaned(old(slots), slots)
        invariant forall j | 0 <= j < i :: !slots[lru[j]].dirty && !Stuck(old(slots)[lru[j]], bad)
        invariant forall j | i <= j < |lru| :: slots[lru[j]] == old(slots)[lru[j]]
      {
        assert forall j | 0 <= j < |lru| && j != i :: lru[j] != lru[i];
        ok := FlushTurn(i, bad);
        if !ok { return; }
        i := i + 1;
      }
      forall s | s in lru ensures !slots[s].dirty { var j :| 0 <= j < |lru| && lru[j] == s; }
      AllClean(slots, lru, disk);
      return true;
    }
  }

  /** The slots differ in their marks only. */
  ghost predicate OnlyCleaned(slots: seq<Slot>, slots': seq<Slot>) {
    |slots'| == |slots| && forall s | 0 <= s < |slots| :: slots'[s] == slots[s].(dirty := slots'[s].dirty)
  }

  /** The slot holds changes that the device will not take. */
  predicate Stuck(e: Slot, bad: set<nat>) { e.dirty && e.num in bad }

  /** Pinned slots stay on the list as they are. */
  ghost predicate Pins(slots: seq<Slot>, lru: seq<nat>, slots': seq<Slot>, lru': seq<nat>)
    requires forall t | t in lru :: t < |slots|
  {
    |slots'| == |slots| && forall t | t in lru && slots[t].refs > 0 :: t in lru' && slots'[t] == slots[t]
  }

  /** How often block `b` is pinned. */
  ghost function PinsOf(slots: seq<Slot>, lru: seq<nat>, b: nat): nat
    requires forall t | t in lru :: t < |slots|
  {
    if Hit(slots, lru, b) then
      var s :| s in lru && slots[s].num == b;
      slots[s].refs
    else 0
  }

  /** No block is pinned more or less often than it was. */
  ghost predicate SamePins(slots: seq<Slot>, lru: seq<nat>, slots': seq<Slot>, lru': seq<nat>)
    requires (forall t | t in lru :: t < |slots|) && forall t | t in lru' :: t < |slots'|
  {
    forall b: nat :: PinsOf(slots', lru', b) == PinsOf(slots, lru, b)
  }

  /** A block that was not cached is seen as it is on the device, then and now. */
  lemma MissSees(slots: seq<Slot>, lru: seq<nat>, disk: seq<Block>, slots': seq<Slot>, rest: seq<nat>, disk': seq<Block>, s: nat, b: nat)
    requires ListOk(slots, lru, disk) && ListOk(slots', rest, disk') && b < |disk| && !Hit(slots, lru, b)
    requires SameView(slots, lru, disk, slots', rest, disk') && KeptBut(slots, lru, slots', rest, s)
    ensures !Hit(slots', rest, b) && disk'[b] == disk[b]
  {
    RestMisses(slots, lru, slots', rest, s, b);
    assert View(slots', rest, disk', b) == View(slots, lru, disk, b);
  }

  lemma PinsInstalled(slots: seq<Slot>, lru: seq<nat>, slots': seq<Slot>, rest: seq<nat>, s: nat, e: Slot)
    requires (forall t | t in lru :: t < |slots|) && (forall t | t in rest :: t < |slots'|) && s < |slots'| && s !in rest
    requires KeptBut(slots, lru, slots', rest, s) && e.refs == 0
    ensures forall t | t in rest + [s] :: t < |slots'[s := e]|
    ensures Pins(slots, lru, slots'[s := e], rest + [s]) && Pins(slots'[s := e], rest + [s], slots, lru)
  {
    assert forall t :: t in rest + [s] <==> t in rest || t == s;
  }

  lemma NewKeepsDate(used: map<nat, nat>, lru: seq<nat>, s: nat, now: nat)
    requires Dated(used, now, lru) && s !in lru
    ensures Dated(used[s := now], now + 1, lru + [s])
  {
    NewKeepsAge(used, lru, s, now);
  }

  lemma SortedStays(slots: seq<Slot>, free: seq<nat>, lru: seq<nat>, s: nat, e: Slot)
    requires Sorted(slots, free, lru) && s in lru && s < |slots|
    ensures Sorted(slots[s := e], free, lru)
  {
  }

  lemma PinsKept(slots: seq<Slot>, lru: seq<nat>, disk: seq<Block>, slots': seq<Slot>, lru': seq<nat>, disk': seq<Block>)
    requires ListOk(slots, lru, disk) && ListOk(slots', lru', disk')
    requires Pins(slots, lru, slots', lru') && Pins(slots', lru', slots, lru)
    ensures SamePins(slots, lru, slots', lru')
  {
    forall b: nat ensures PinsOf(slots', lru', b) == PinsOf(slots, lru, b) {
      PinsAt(slots, lru, disk, slots', lru', disk', b);
      PinsAt(slots', lru', disk', slots, lru, disk, b);
    }
  }

  lemma PinsAt(slots: seq<Slot>, lru: seq<nat>, disk: seq<Block>, slots': seq<Slot>, lru': seq<nat>, disk': seq<Block>, b: nat)
    requires ListOk(slots, lru, disk) && ListOk(slots', lru', disk') && Pins(slots, lru, slots', lru')
    ensures PinsOf(slots, lru, b) > 0 ==> PinsOf(slots', lru', b) == PinsOf(slots, lru, b)
  {
    if Hit(slots, lru, b) {
      var s :| s in lru && slots[s].num == b;
      PinsHit(slots, lru, disk, s);
      if slots[s].refs > 0 { PinsHit(slots', lru', disk', s); }
    }
  }

  lemma PinsReordered(slots: seq<Slot>, lru: seq<nat>, slots': seq<Slot>, lru': seq<nat>, disk: seq<Block>)
    requires ListOk(slots, lru, disk) && ListOk(slots', lru', disk) && slots' == slots && SameMembers(lru, lru')
    ensures SamePins(slots, lru, slots', lru')
  {
    PinsKept(slots, lru, disk, slots', lru', disk);
  }

  /** One slot is given another count of pins. */
  lemma OnePinned(slots: seq<Slot>, slots': seq<Slot>, lru: seq<nat>, disk: seq<Block>, s: nat)
    requires ListOk(slots, lru, disk) && ListOk(slots', lru, disk) && s in lru
    requires slots' == slots[s := slots'[s]] && slots'[s].num == slots[s].num
    ensures forall c: nat :: PinsOf(slots', lru, c) == if c == slots[s].num then slots'[s].refs else PinsOf(slots, lru, c)
  {
    forall c: nat ensures PinsOf(slots', lru, c) == if c == slots[s].num then slots'[s].refs else PinsOf(slots, lru, c) {
      if Hit(slots, lru, c) {
        var t :| t in lru && slots[t].num == c;
        PinsHit(slots, lru, disk, t);
        PinsHit(slots', lru, disk, t);
      }
    }
  }

  lemma PinsHit(slots: seq<Slot>, lru: seq<nat>, disk: seq<Block>, s: nat)
    requires ListOk(slots, lru, disk) && s in lru
    ensures PinsOf(slots, lru, slots[s].num) == slots[s].refs
  {
    assert Hit(slots, lru, slots[s].num);
  }

  /** A block that was not cached is not on what is left of the list either. */
  lemma RestMisses(slots: seq<Slot>, lru: seq<nat>, slots': seq<Slot>, rest: seq<nat>, s: nat, b: nat)
    requires (forall t | t in lru :: t < |slots|) && (forall t | t in rest :: t < |slots'|)
    requires KeptBut(slots, lru, slots', rest, s) && !Hit(slots, lru, b)
    ensures !Hit(slots', rest, b)
  {
  }

  /** All slots of the list but `s` are still on it, with the same contents; pinned ones all are. */
  ghost predicate KeptBut(slots: seq<Slot>, lru: seq<nat>, slots': seq<Slot>, lru': seq<nat>, s: nat)
    requires forall t | t in lru :: t < |slots|
  {
    && |slots'| == |slots| && (forall t | t in lru && t != s :: t in lru' && slots'[t] == slots[t])
    && (forall t | t in lru' :: t in lru && t != s) && (s in lru ==> slots[s].refs == 0)
  }

  /** `s` is the least recently used of the slots that are not pinned. */
  ghost predicate Oldest(slots: seq<Slot>, lru: seq<nat>, used: map<nat, nat>, s: nat)
    requires forall t | t in lru :: t < |slots| && t in used
  {
    s in lru && slots[s].refs == 0 && forall t | t in lru && t != s && slots[t].refs == 0 :: used[s] < used[t]
  }

  lemma SomeOldest(slots: seq<Slot>, lru: seq<nat>, used: map<nat, nat>, s: nat) returns (t: nat)
    requires ByAge(used, lru) && (forall u | u in lru :: u < |slots| && u in used) && s in lru && slots[s].refs == 0
    ensures Oldest(slots, lru, used, t)
  {
    forall j | 0 <= j < |lru| ensures lru[j] < |slots| { assert lru[j] in lru; }
    var n: nat :| n < |lru| && lru[n] == s;
    var i := FirstFree(slots, lru, 0, n);
    FirstIsOldest(slots, lru, used, i);
    t := lru[i];
  }

  lemma {:induction false} FirstFree(slots: seq<Slot>, lru: seq<nat>, from: nat, n: nat) returns (i: nat)
    requires (forall j | 0 <= j < |lru| :: lru[j] < |slots|) && from <= n < |lru| && slots[lru[n]].refs == 0
    requires forall j | 0 <= j < from :: slots[lru[j]].refs > 0
    ensures i < |lru| && slots[lru[i]].refs == 0 && forall j | 0 <= j < i :: slots[lru[j]].refs > 0
    decreases n - from
  {
    if slots[lru[from]].refs == 0 { return from; }
    i := FirstFree(slots, lru, from + 1, n);
  }

  lemma NoneBelow(a: seq<nat>, n: nat)
    requires forall x | x in a :: x < n
    ensures n == 0 ==> a == []
  {
    if a != [] { assert a[0] in a; }
  }

  /** Two lists without repetition that share nothing and cover all numbers below `n`. */
  lemma {:induction false} CoverCount(a: seq<nat>, b: seq<nat>, n: nat)
    requires Distinct(a) && Distinct(b) && (forall x | x in a :: x < n && x !in b) && (forall x | x in b :: x < n)
    requires forall x: nat | x < n :: x in a || x in b
    ensures |a| + |b| == n
  {
    if n == 0 {
      NoneBelow(a, n);
      NoneBelow(b, n);
    } else if n - 1 in a {
      var i :| 0 <= i < |a| && a[i] == n - 1;
      RemoveAtIs(a, i);
      CoverCount(RemoveAt(a, i), b, n - 1);
    } else {
      var i :| 0 <= i < |b| && b[i] == n - 1;
      RemoveAtIs(b, i);
      CoverCount(a, RemoveAt(b, i), n - 1);
    }
  }

  lemma FirstIsOldest(slots: seq<Slot>, lru: seq<nat>, used: map<nat, nat>, i: nat)
    requires ByAge(used, lru) && i < |lru| && forall t | t in lru :: t < |slots| && t in used
    requires slots[lru[i]].refs == 0 && forall j | 0 <= j < i :: slots[lru[j]].refs > 0
    ensures Oldest(slots, lru, used, lru[i])
  {
    forall t | t in lru && t != lru[i] && slots[t].refs == 0 ensures used[lru[i]] < used[t] {
      var j :| 0 <= j < |lru| && lru[j] == t;
      assert i < j;
    }
  }

  /** Slots off the list play no part. */
  lemma SameSlots(slots: seq<Slot>, slots': seq<Slot>, lru: seq<nat>, disk: seq<Block>)
    requires ListOk(slots, lru, disk) && |slots'| == |slots| && forall t | t in lru :: slots'[t] == slots[t]
    ensures ListOk(slots', lru, disk) && SameView(slots, lru, disk, slots', lru, disk)
  {
    forall b: nat | b < |disk| ensures View(slots', lru, disk, b) == View(slots, lru, disk, b) {
      if Hit(slots, lru, b) {
        var t :| t in lru && slots[t].num == b;
        ViewHit(slots, lru, disk, t);
        ViewHit(slots', lru, disk, t);
      }
    }
  }
}
