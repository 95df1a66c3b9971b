/** kernel/mutex.c as a protocol: every critical section is one step, and a waiting thread
    takes two, one to block and one to come back from wait_queue_block. */
module Mutex {
  import opened Wrappers
  import opened SchedSpec

  /** `woken` holds the threads that left the wait queue and have not run since, with the
      result wait_queue_block will give them. */
  datatype M = M(count: int, holder: Option<Tid>, queue: seq<Tid>, woken: map<Tid, Status>)

  const INITIAL: M := M(0, None, [], map[])

  /** Threads the mutex was handed to that have not come back from waiting. */
  ghost function Granted(m: M): set<Tid> { set t | t in m.woken && m.woken[t] == NoError }

  /** Threads whose wait timed out that have not come back to take their count off. */
  ghost function Late(m: M): set<Tid> { set t | t in m.woken && m.woken[t] != NoError }

  /** Who owns the mutex: its holder, or the thread it was handed to. */
  ghost function Owners(m: M): set<Tid> {
    Granted(m) + if m.holder.Some? then {m.holder.value} else {}
  }

  // ---------------------------------------------------------------- steps

  /** mutex_acquire_timeout, up to where it returns or blocks */
  function Acquire(m: M, t: Tid, timeoutZero: bool): M {
    if m.count + 1 > 1 then
      if timeoutZero then m else m.(count := m.count + 1, queue := m.queue + [t])
    else m.(count := m.count + 1, holder := Some(t))
  }

  /** mutex_acquire_timeout, from the return of wait_queue_block */
  function Return(m: M, t: Tid): M
    requires t in m.woken
  {
    if m.woken[t] == NoError then m.(holder := Some(t), woken := m.woken - {t})
    else m.(count := if m.woken[t] == ErrTimedOut then m.count - 1 else m.count, woken := m.woken - {t})
  }

  /** mutex_release */
  function Release(m: M): M {
    if m.count - 1 >= 1 && m.queue != [] then
      M(m.count - 1, None, m.queue[1..], m.woken[m.queue[0] := NoError])
    else m.(count := m.count - 1, holder := None)
  }

  /** wait_queue_timeout_handler of the i-th waiter */
  function Expire(m: M, i: nat): M
    requires i < |m.queue|
  {
    m.(queue := RemoveAt(m.queue, i), woken := m.woken[m.queue[i] := ErrTimedOut])
  }

  datatype Op = OpAcquire(t: Tid, timeoutZero: bool) | OpReturn(t: Tid) | OpRelease(t: Tid) | OpExpire(t: Tid)

  /** A thread that waits makes no calls; the holder does not acquire again and only it releases. */
  predicate Enabled(m: M, op: Op) {
    match op
    case OpAcquire(t, _) => t !in m.queue && t !in m.woken && m.holder != Some(t)
    case OpReturn(t) => t in m.woken
    case OpRelease(t) => m.holder == Some(t)
    case OpExpire(t) => t in m.queue
  }

  ghost function After(m: M, op: Op): M
    requires Enabled(m, op)
  {
    match op
    case OpAcquire(t, z) => Acquire(m, t, z)
    case OpReturn(t) => Return(m, t)
    case OpRelease(_) => Release(m)
    case OpExpire(t) => Expire(m, IndexOf(m.queue, t))
  }

  // ------------------------------------------------------------ the invariant

  ghost predicate Inv(m: M) {
    && m.count == |Owners(m)| + |m.queue| + |Late(m)|
    && |Owners(m)| <= 1
    && Distinct(m.queue)
    && (forall t | t in m.woken :: t !in m.queue && m.holder != Some(t))
    && (forall t | t in m.woken :: m.woken[t] == NoError || m.woken[t] == ErrTimedOut)
    && (m.holder.Some? ==> m.holder.value !in m.queue)
  }

  lemma AcquireKeeps(m: M, t: Tid, z: bool)
    requires Inv(m) && Enabled(m, OpAcquire(t, z))
    ensures Inv(Acquire(m, t, z))
  {
    var m' := Acquire(m, t, z);
    assert Late(m') == Late(m) && Granted(m') == Granted(m);
    if m.count <= 0 {
      assert Owners(m) == {} && Owners(m') == {t};
    } else {
      assert Owners(m') == Owners(m);
    }
  }

  lemma ReturnKeeps(m: M, t: Tid)
    requires Inv(m) && t in m.woken
    ensures Inv(Return(m, t))
    ensures m.woken[t] == NoError ==> Owners(Return(m, t)) == Owners(m)
  {
    var m' := Return(m, t);
    if m.woken[t] == NoError {
      assert t in Owners(m);
      SizeOne(Owners(m), t);
      assert Owners(m') == {t};
      assert Late(m') == Late(m);
    } else {
      assert Late(m') == Late(m) - {t};
      assert Granted(m') == Granted(m);
    }
  }

  lemma SizeOne(s: set<Tid>, t: Tid)
    requires |s| <= 1 && t in s
    ensures s == {t}
  {
    forall u | u in s ensures u == t {
      if u != t { assert |{t, u}| == 2; Within({t, u}, s); }
    }
  }

  lemma {:induction false} Within(a: set<Tid>, b: set<Tid>)
    requires a <= b
    ensures |a| <= |b|
  {
    if a != {} {
      var x :| x in a;
      Within(a - {x}, b - {x});
    }
  }

  lemma ReleaseKeeps(m: M)
    requires Inv(m) && m.holder.Some?
    ensures Inv(Release(m))
    ensures Owners(Release(m)) == if m.queue != [] then {m.queue[0]} else {}
  {
    HolderAlone(m);
    ReleaseSets(m);
    assert m.count == 1 + |m.queue| + |Late(m)|;
  }

  /** Nobody is handed the mutex while it is held. */
  lemma HolderAlone(m: M)
    requires Inv(m) && m.holder.Some?
    ensures Owners(m) == {m.holder.value} && Granted(m) == {}
  {
    var h := m.holder.value;
    assert h in Owners(m);
    SizeOne(Owners(m), h);
    forall t | t in m.woken ensures m.woken[t] != NoError {
      assert m.woken[t] == NoError ==> t in Owners(m);
    }
  }

  lemma ReleaseSets(m: M)
    requires Granted(m) == {} && (m.queue != [] ==> m.count > 1 && m.queue[0] !in m.woken)
    ensures Late(Release(m)) == Late(m)
    ensures Owners(Release(m)) == if m.queue != [] then {m.queue[0]} else {}
  {
    var m' := Release(m);
    forall t | t in m.woken ensures m.woken[t] != NoError { assert t !in Granted(m); }
    assert Late(m') == Late(m);
    if m.queue != [] { assert Granted(m') == {m.queue[0]}; }
  }

  lemma ExpireKeeps(m: M, i: nat)
    requires Inv(m) && i < |m.queue|
    ensures Inv(Expire(m, i)) && Owners(Expire(m, i)) == Owners(m)
    ensures Late(Expire(m, i)) == Late(m) + {m.queue[i]}
  {
    RemoveAtIs(m.queue, i);
    assert m.queue[i] in m.queue;
    ExpireSets(m, i);
  }

  lemma ExpireSets(m: M, i: nat)
    requires i < |m.queue| && m.queue[i] !in m.woken
    ensures Owners(Expire(m, i)) == Owners(m) && Late(Expire(m, i)) == Late(m) + {m.queue[i]} && m.queue[i] !in Late(m)
  {
    assert Granted(Expire(m, i)) == Granted(m);
  }

  lemma StepKeeps(m: M, op: Op)
    requires Inv(m) && Enabled(m, op)
    ensures Inv(After(m, op))
  {
    match op
    case OpAcquire(t, z) => AcquireKeeps(m, t, z);
    case OpReturn(t) => ReturnKeeps(m, t);
    case OpRelease(_) => ReleaseKeeps(m);
    case OpExpire(t) => ExpireKeeps(m, IndexOf(m.queue, t));
  }

  lemma InitialHolds()
    ensures Inv(INITIAL) && Owners(INITIAL) == {} && Late(INITIAL) == {}
  {
    assert Granted(INITIAL) == {} && Late(INITIAL) == {} && Owners(INITIAL) == {};
  }

  ghost predicate IsRun(ms: seq<M>, ops: seq<Op>) {
    && |ms| == |ops| + 1 && ms[0] == INITIAL
    && forall i | 0 <= i < |ops| :: Enabled(ms[i], ops[i]) && ms[i + 1] == After(ms[i], ops[i])
  }

  /** In every state of every run the count is owner + blocked + timed out but not yet back,
      and there is at most one owner. */
  lemma {:induction false} RunKeeps(ms: seq<M>, ops: seq<Op>, i: nat)
    requires IsRun(ms, ops) && i < |ms|
    ensures Inv(ms[i])
  {
    if i == 0 {
      InitialHolds();
    } else {
      RunKeeps(ms, ops, i - 1);
      StepKeeps(ms[i - 1], ops[i - 1]);
    }
  }

  // -------------------------------------------- when a waiter has an owner to wait for

  /** Somebody waits although nobody owns the mutex. */
  ghost predicate Orphan(m: M) { m.queue != [] && Owners(m) == {} }

  /** A blocking acquire while the count is held up only by threads that timed out. */
  ghost predicate IntoWindow(m: M, op: Op) {
    op.OpAcquire? && !op.timeoutZero && m.count > 0 && Owners(m) == {}
  }

  /** Exactly such an acquire orphans a waiter. */
  lemma OrphanedExactlyBy(m: M, op: Op)
    requires Inv(m) && Enabled(m, op) && !Orphan(m)
    ensures Orphan(After(m, op)) <==> IntoWindow(m, op)
  {
    match op
    case OpAcquire(t, z) =>
      assert Granted(Acquire(m, t, z)) == Granted(m);
    case OpReturn(t) => ReturnKeeps(m, t);
      if m.woken[t] != NoError { assert Granted(Return(m, t)) == Granted(m); }
    case OpRelease(_) => ReleaseKeeps(m);
    case OpExpire(t) => ExpireKeeps(m, IndexOf(m.queue, t));
  }

  /** An orphaned waiter stays one: only a timeout can end its wait. */
  lemma OrphanStays(m: M, op: Op)
    requires Inv(m) && Enabled(m, op) && Orphan(m) && !op.OpExpire?
    ensures Orphan(After(m, op))
  {
    match op
    case OpAcquire(t, z) =>
      assert Granted(Acquire(m, t, z)) == Granted(m);
    case OpReturn(t) =>
      assert t !in Owners(m);
      assert Granted(Return(m, t)) == Granted(m);
    case OpRelease(t) => assert false;
  }

  /** A run never has a waiter without an owner if and only if it never acquires into the window. */
  lemma RunUnorphanedIff(ms: seq<M>, ops: seq<Op>)
    requires IsRun(ms, ops)
    ensures (forall i | 0 <= i < |ms| :: !Orphan(ms[i])) <==> (forall i | 0 <= i < |ops| :: !IntoWindow(ms[i], ops[i]))
  {
    if forall i | 0 <= i < |ops| :: !IntoWindow(ms[i], ops[i]) {
      forall i | 0 <= i < |ms| ensures !Orphan(ms[i]) { Unorphaned(ms, ops, i); }
    }
    if forall i | 0 <= i < |ms| :: !Orphan(ms[i]) {
      forall i | 0 <= i < |ops| ensures !IntoWindow(ms[i], ops[i]) {
        RunKeeps(ms, ops, i);
        OrphanedExactlyBy(ms[i], ops[i]);
        assert !Orphan(ms[i + 1]);
      }
    }
  }

  lemma {:induction false} Unorphaned(ms: seq<M>, ops: seq<Op>, i: nat)
    requires IsRun(ms, ops) && i < |ms| && forall j | 0 <= j < |ops| :: !IntoWindow(ms[j], ops[j])
    ensures !Orphan(ms[i])
  {
    if i > 0 {
      Unorphaned(ms, ops, i - 1);
      RunKeeps(ms, ops, i - 1);
      OrphanedExactlyBy(ms[i - 1], ops[i - 1]);
    }
  }

  /** The window is real: thread 1 holds, 2 waits and times out, 1 releases, 3 acquires and
      blocks, 2 comes back. Thread 3 now waits for nobody. */
  lemma OrphanExample()
    ensures exists ms, ops :: IsRun(ms, ops) && Orphan(ms[|ms| - 1]) && Late(ms[|ms| - 1]) == {}
  {
    var ops := [OpAcquire(1, false), OpAcquire(2, false), OpExpire(2), OpRelease(1), OpAcquire(3, false), OpReturn(2)];
    var late := map[2 := ErrTimedOut];
    var m1, m2, m3 := M(1, Some(1), [], map[]), M(2, Some(1), [2], map[]), M(2, Some(1), [], late);
    var m4, m5, m6 := M(1, None, [], late), M(2, None, [3], late), M(1, None, [3], map[]);
    var ms := [INITIAL, m1, m2, m3, m4, m5, m6];
    OrphanSteps();
    forall i | 0 <= i < |ops| ensures Enabled(ms[i], ops[i]) && ms[i + 1] == After(ms[i], ops[i]) {}
    assert IsRun(ms, ops);
    assert Orphan(m6) && Late(m6) == {};
  }

  lemma OrphanSteps()
    ensures var late := map[2 := ErrTimedOut];
            var m2, m5 := M(2, Some(1), [2], map[]), M(2, None, [3], late);
            && Enabled(m2, OpExpire(2)) && After(m2, OpExpire(2)) == M(2, Some(1), [], late)
            && Enabled(m5, OpReturn(2)) && After(m5, OpReturn(2)) == M(1, None, [3], map[])
  {
    assert RemoveAt([2], 0) == [];
    assert map[2 := ErrTimedOut] - {2} == map[];
  }

  // ------------------------------------------------------------- FIFO hand-off

  /** Threads in the order of their first `n` calls of acquire, those turned away at once left out. */
  ghost function Arrivals(ms: seq<M>, ops: seq<Op>, n: nat): seq<Tid>
    requires n < |ms| && n <= |ops|
  {
    if n == 0 then [] else Arrivals(ms, ops, n - 1) + Comer(ms[n - 1], ops[n - 1], ms[n])
  }

  ghost function Comer(m: M, op: Op, m': M): seq<Tid> {
    if op.OpAcquire? && m' != m then [op.t] else []
  }

  /** Threads in the order in which ownership reached them in the first `n` steps. */
  ghost function Successions(ms: seq<M>, n: nat): seq<Tid>
    requires n < |ms|
  {
    if n == 0 then [] else Successions(ms, n - 1) + Newcomer(ms[n - 1], ms[n])
  }

  /** The owner a step brings, if it brings a new one. */
  ghost function Newcomer(m: M, m': M): seq<Tid> {
    if Owners(m') != {} && Owners(m') != Owners(m) then
      var t :| t in Owners(m');
      [t]
    else []
  }

  /** Without timeouts a waiter always has an owner to wait for, and ownership passes in the
      order of arrival: those who got it, then those who wait, are all who came. */
  lemma {:induction false} HandOffIsFifo(ms: seq<M>, ops: seq<Op>, n: nat)
    requires IsRun(ms, ops) && n < |ms| && forall i | 0 <= i < |ops| :: !ops[i].OpExpire?
    ensures Late(ms[n]) == {} && !Orphan(ms[n]) && (ms[n].count > 0 <==> Owners(ms[n]) != {})
    ensures Arrivals(ms, ops, n) == Successions(ms, n) + ms[n].queue
  {
    if n == 0 {
      InitialHolds();
    } else {
      var m, op, m' := ms[n - 1], ops[n - 1], ms[n];
      HandOffIsFifo(ms, ops, n - 1);
      RunKeeps(ms, ops, n - 1);
      FifoStep(m, op, m', Arrivals(ms, ops, n - 1), Successions(ms, n - 1));
    }
  }

  /** One step keeps owners followed by waiters equal to all who came. */
  lemma FifoStep(m: M, op: Op, m': M, came: seq<Tid>, owned: seq<Tid>)
    requires Inv(m) && Enabled(m, op) && m' == After(m, op) && !op.OpExpire? && Late(m) == {} && !Orphan(m)
    requires came == owned + m.queue
    ensures Late(m') == {} && !Orphan(m') && (m'.count > 0 <==> Owners(m') != {})
    ensures came + Comer(m, op, m') == (owned + Newcomer(m, m')) + m'.queue
  {
    StepIsFifo(m, op);
    Regroup(owned, m.queue, Comer(m, op, m'), Newcomer(m, m'), m'.queue);
  }

  lemma Regroup(s: seq<Tid>, q: seq<Tid>, c: seq<Tid>, d: seq<Tid>, q': seq<Tid>)
    requires q + c == d + q'
    ensures (s + q) + c == (s + d) + q'
  {
    assert (s + q) + c == s + (q + c);
    assert (s + d) + q' == s + (d + q');
  }

  lemma StepIsFifo(m: M, op: Op)
    requires Inv(m) && Enabled(m, op) && !op.OpExpire? && Late(m) == {} && !Orphan(m)
    ensures var m' := After(m, op);
            && Late(m') == {} && !Orphan(m') && (m'.count > 0 <==> Owners(m') != {})
            && m.queue + Comer(m, op, m') == Newcomer(m, m') + m'.queue
  {
    StepKeeps(m, op);
    OrphanedExactlyBy(m, op);
    match op
    case OpAcquire(t, z) => AcquireIsFifo(m, t, z);
    case OpReturn(t) => ReturnIsFifo(m, t);
    case OpRelease(h) => ReleaseIsFifo(m);
  }

  lemma AcquireIsFifo(m: M, t: Tid, z: bool)
    requires Inv(m) && Enabled(m, OpAcquire(t, z)) && Late(m) == {}
    ensures var m' := Acquire(m, t, z);
            Late(m') == {} && m.queue + Comer(m, OpAcquire(t, z), m') == Newcomer(m, m') + m'.queue
  {
    var m' := Acquire(m, t, z);
    assert Granted(m') == Granted(m) && Late(m') == Late(m);
    if m.count <= 0 { assert Owners(m') == {t}; } else { assert Owners(m') == Owners(m); }
  }

  lemma ReturnIsFifo(m: M, t: Tid)
    requires Inv(m) && t in m.woken && Late(m) == {}
    ensures Late(Return(m, t)) == {} && Newcomer(m, Return(m, t)) == [] && Return(m, t).queue == m.queue
  {
    assert t !in Late(m);
    ReturnKeeps(m, t);
    forall u | u in Return(m, t).woken ensures Return(m, t).woken[u] == NoError { assert u !in Late(m); }
  }

  lemma ReleaseIsFifo(m: M)
    requires Inv(m) && m.holder.Some? && Late(m) == {}
    ensures Late(Release(m)) == {} && m.queue == Newcomer(m, Release(m)) + Release(m).queue
  {
    var m' := Release(m);
    ReleaseKeeps(m);
    assert m.holder.value in Owners(m);
    forall u | u in m'.woken ensures m'.woken[u] == NoError { assert u !in Late(m); }
    if m.queue != [] { assert m.queue == [m.queue[0]] + m'.queue; assert Owners(m') == {m.queue[0]}; }
  }
}
