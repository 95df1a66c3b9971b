/** top/init.c: hooks are called in the order of their levels, and in table order within a level,
    by a search that remembers only the last hook it called. */
module Init {
  import opened Wrappers

  datatype Flag = PrimaryCpu | SecondaryCpus | CpuSuspend | CpuResume
  datatype Hook = Hook(level: nat, flags: set<Flag>)

  predicate Wanted(h: Hook, flag: set<Flag>, start: nat, stop: nat) {
    h.flags * flag != {} && start <= h.level <= stop
  }

  /** Hook `i` comes before hook `j`: a lower level, or an earlier place at the same level. */
  predicate Before(hooks: seq<Hook>, i: nat, j: nat)
    requires i < |hooks| && j < |hooks|
  {
    hooks[i].level < hooks[j].level || (hooks[i].level == hooks[j].level && i < j)
  }

  /** Hook `i` is wanted and comes after the last one called. */
  predicate Pending(hooks: seq<Hook>, flag: set<Flag>, start: nat, stop: nat, last: Option<nat>, i: nat)
    requires last.Some? ==> last.value < |hooks|
  {
    i < |hooks| && Wanted(hooks[i], flag, start, stop) && (last.Some? ==> Before(hooks, last.value, i))
  }

  /** The wanted hooks, each once, in order. */
  ghost predicate IsCalls(hooks: seq<Hook>, flag: set<Flag>, start: nat, stop: nat, calls: seq<nat>) {
    && (forall k | 0 <= k < |calls| :: calls[k] < |hooks| && Wanted(hooks[calls[k]], flag, start, stop))
    && (forall j, k | 0 <= j < k < |calls| :: Before(hooks, calls[j], calls[k]))
    && (forall i: nat | i < |hooks| && Wanted(hooks[i], flag, start, stop) :: i in calls)
  }

  /** What the scan up to `n` has settled on. */
  ghost predicate Settled(hooks: seq<Hook>, flag: set<Flag>, start: nat, stop: nat, last: Option<nat>, n: nat, found: Option<nat>)
    requires n <= |hooks| && (last.Some? ==> last.value < |hooks|)
  {
    match found
    case None => forall i: nat | i < n :: !Pending(hooks, flag, start, stop, last, i)
    case Some(f) =>
      && f < n && Pending(hooks, flag, start, stop, last, f)
      && forall i: nat | i < n && i != f && Pending(hooks, flag, start, stop, last, i) :: Before(hooks, f, i)
  }

  /** The inner loop: the first pending hook. */
  method Search(hooks: seq<Hook>, flag: set<Flag>, start: nat, stop: nat, last: Option<nat>) returns (found: Option<nat>)
    requires start > 0 && (last.Some? ==> last.value < |hooks| && start <= hooks[last.value].level)
    ensures Settled(hooks, flag, start, stop, last, |hooks|, found)
  {
    var lastLevel := if last.Some? then hooks[last.value].level else start - 1;
    found := None;
    var seenLast := false;
    var i := 0;
    while i < |hooks|
      invariant i <= |hooks| && Settled(hooks, flag, start, stop, last, i, found)
      invariant seenLast <==> last.Some? && last.value < i
      invariant found.Some? ==> hooks[found.value].level > lastLevel
    {
      var h := hooks[i];
      if last == Some(i) { seenLast := true; }
      if h.flags * flag == {} || h.level > stop || h.level < lastLevel || (found.Some? && hooks[found.value].level <= h.level) {
        PassOver(hooks, flag, start, stop, last, i, found);
      } else if h.level >= start && h.level > lastLevel {
        Adopt(hooks, flag, start, stop, last, i, found);
        found := Some(i);
      } else if h.level == lastLevel && last != Some(i) && seenLast {
        FirstOfLevel(hooks, flag, start, stop, last, i, found);
        return Some(i);
      } else {
        PassOver(hooks, flag, start, stop, last, i, found);
      }
      i := i + 1;
    }
  }

  lemma PassOver(hooks: seq<Hook>, flag: set<Flag>, start: nat, stop: nat, last: Option<nat>, i: nat, found: Option<nat>)
    requires i < |hooks| && (last.Some? ==> last.value < |hooks|) && Settled(hooks, flag, start, stop, last, i, found)
    requires !Pending(hooks, flag, start, stop, last, i) || (found.Some? && Before(hooks, found.value, i))
    ensures Settled(hooks, flag, start, stop, last, i + 1, found)
  {
  }

  lemma Adopt(hooks: seq<Hook>, flag: set<Flag>, start: nat, stop: nat, last: Option<nat>, i: nat, found: Option<nat>)
    requires i < |hooks| && (last.Some? ==> last.value < |hooks|) && Settled(hooks, flag, start, stop, last, i, found)
    requires Pending(hooks, flag, start, stop, last, i) && (found.Some? ==> hooks[i].level < hooks[found.value].level)
    ensures Settled(hooks, flag, start, stop, last, i + 1, Some(i))
  {
  }

  /** The next hook of the last level comes before all that is pending. */
  lemma FirstOfLevel(hooks: seq<Hook>, flag: set<Flag>, start: nat, stop: nat, last: Option<nat>, i: nat, found: Option<nat>)
    requires i < |hooks| && last.Some? && last.value < i && hooks[i].level == hooks[last.value].level
    requires Wanted(hooks[i], flag, start, stop) && Settled(hooks, flag, start, stop, last, i, found)
    requires found.Some? ==> hooks[found.value].level > hooks[i].level
    ensures Settled(hooks, flag, start, stop, last, |hooks|, Some(i))
  {
    forall j: nat | j < |hooks| && j != i && Pending(hooks, flag, start, stop, last, j) ensures Before(hooks, i, j) {
      if j < i && found.Some? && j != found.value { assert Before(hooks, found.value, j); }
    }
  }

  /** The hooks still to be called. */
  ghost function Left(hooks: seq<Hook>, flag: set<Flag>, start: nat, stop: nat, last: Option<nat>): set<nat>
    requires last.Some? ==> last.value < |hooks|
  {
    set i | 0 <= i < |hooks| && Pending(hooks, flag, start, stop, last, i)
  }

  /** lk_init_level */
  method InitLevel(hooks: seq<Hook>, flag: set<Flag>, start: nat, stop: nat) returns (calls: seq<nat>)
    requires start > 0
    ensures IsCalls(hooks, flag, start, stop, calls)
  {
    calls := [];
    var last: Option<nat> := None;
    while true
      invariant last == if calls == [] then None else Some(calls[|calls| - 1])
      invariant forall k | 0 <= k < |calls| :: calls[k] < |hooks| && Wanted(hooks[calls[k]], flag, start, stop)
      invariant forall j, k | 0 <= j < k < |calls| :: Before(hooks, calls[j], calls[k])
      invariant forall i: nat | i < |hooks| && Wanted(hooks[i], flag, start, stop) :: i in calls || Pending(hooks, flag, start, stop, last, i)
      decreases Left(hooks, flag, start, stop, last)
    {
      var found := Search(hooks, flag, start, stop, last);
      if found.None? { return; }
      OneMore(hooks, flag, start, stop, last, found.value, calls);
      last := found;
      calls := calls + [found.value];
    }
  }

  /** Calling the first pending hook leaves the others pending. */
  lemma OneMore(hooks: seq<Hook>, flag: set<Flag>, start: nat, stop: nat, last: Option<nat>, f: nat, calls: seq<nat>)
    requires last == if calls == [] then None else Some(calls[|calls| - 1])
    requires forall k | 0 <= k < |calls| :: calls[k] < |hooks|
    requires forall j, k | 0 <= j < k < |calls| :: Before(hooks, calls[j], calls[k])
    requires Settled(hooks, flag, start, stop, last, |hooks|, Some(f))
    ensures Left(hooks, flag, start, stop, Some(f)) < Left(hooks, flag, start, stop, last)
    ensures forall i: nat | Pending(hooks, flag, start, stop, last, i) && i != f :: Pending(hooks, flag, start, stop, Some(f), i)
    ensures forall k | 0 <= k < |calls| :: Before(hooks, calls[k], f)
  {
    assert f in Left(hooks, flag, start, stop, last) && f !in Left(hooks, flag, start, stop, Some(f));
    forall k | 0 <= k < |calls| ensures Before(hooks, calls[k], f) {
      if k < |calls| - 1 { assert Before(hooks, calls[k], calls[|calls| - 1]); }
    }
  }

  /** The calls are determined: there is only one such sequence. */
  lemma {:induction false} CallsUnique(hooks: seq<Hook>, a: seq<nat>, b: seq<nat>)
    requires forall k | 0 <= k < |a| :: a[k] < |hooks|
    requires forall k | 0 <= k < |b| :: b[k] < |hooks|
    requires forall j, k | 0 <= j < k < |a| :: Before(hooks, a[j], a[k])
    requires forall j, k | 0 <= j < k < |b| :: Before(hooks, b[j], b[k])
    requires forall i: nat :: i in a <==> i in b
    ensures a == b
    decreases |a|
  {
    if a == [] {
      assert forall k | 0 <= k < |b| :: b[k] in b;
    } else {
      assert a[0] in a && a[0] in b;
      assert b[0] in b && b[0] in a;
      var j :| 0 <= j < |b| && b[j] == a[0];
      var k :| 0 <= k < |a| && a[k] == b[0];
      assert a[0] == b[0];
      TailMembers(hooks, a);
      TailMembers(hooks, b);
      CallsUnique(hooks, a[1..], b[1..]);
    }
  }

  lemma TailMembers(hooks: seq<Hook>, a: seq<nat>)
    requires a != [] && forall k | 0 <= k < |a| :: a[k] < |hooks|
    requires forall j, k | 0 <= j < k < |a| :: Before(hooks, a[j], a[k])
    ensures forall i: nat :: i in a[1..] <==> i in a && i != a[0]
  {
    forall i: nat | i in a[1..] ensures i != a[0] {
      var k :| 0 <= k < |a[1..]| && a[1..][k] == i;
      assert Before(hooks, a[0], a[k + 1]);
    }
    assert a == [a[0]] + a[1..];
  }

  /** Two ranges one after the other are one range. */
  lemma CallsJoin(hooks: seq<Hook>, flag: set<Flag>, start: nat, mid: nat, stop: nat, a: seq<nat>, b: seq<nat>)
    requires start <= mid <= stop + 1 && 0 < mid
    requires IsCalls(hooks, flag, start, mid - 1, a) && IsCalls(hooks, flag, mid, stop, b)
    ensures IsCalls(hooks, flag, start, stop, a + b)
  {
    var c := a + b;
    assert forall k | 0 <= k < |c| :: c[k] == if k < |a| then a[k] else b[k - |a|];
    forall j, k | 0 <= j < k < |c| ensures Before(hooks, c[j], c[k]) {
      if j < |a| && k >= |a| { assert Wanted(hooks[a[j]], flag, start, mid - 1) && Wanted(hooks[b[k - |a|]], flag, mid, stop); }
    }
    forall i: nat | i < |hooks| && Wanted(hooks[i], flag, start, stop) ensures i in c {
      assert Wanted(hooks[i], flag, start, mid - 1) || Wanted(hooks[i], flag, mid, stop);
    }
  }

  const PRIMARY_CPU: set<Flag> := {PrimaryCpu}
  const UINT_MAX: nat := 0xffff_ffff

  /** Where the ranges of lk_main and bootstrap2 begin. */
  const STARTS: seq<nat> :=
    [1, 0x10000, 0x20000, 0x30000, 0x40000, 0x60000, 0x70000, 0x80000, 0x90000, 0xa0000, 0xb0000]

  /** The calls of lk_main and bootstrap2, which together are one call over all levels. */
  method Boot(hooks: seq<Hook>) returns (calls: seq<nat>)
    ensures IsCalls(hooks, PRIMARY_CPU, 1, UINT_MAX, calls)
  {
    calls := InitLevel(hooks, PRIMARY_CPU, 1, STARTS[1] - 1);
    var i := 1;
    while i < |STARTS|
      invariant 1 <= i <= |STARTS|
      invariant IsCalls(hooks, PRIMARY_CPU, 1, if i < |STARTS| then STARTS[i] - 1 else UINT_MAX, calls)
    {
      var stop := if i + 1 < |STARTS| then STARTS[i + 1] - 1 else UINT_MAX;
      var more := InitLevel(hooks, PRIMARY_CPU, STARTS[i], stop);
      CallsJoin(hooks, PRIMARY_CPU, 1, STARTS[i], stop, calls, more);
      calls := calls + more;
      i := i + 1;
    }
  }
}
