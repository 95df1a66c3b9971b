/** kernel/semaphore.c as a protocol: every critical section is one step, and a waiting thread
    takes two, one to block and one to come back from wait_queue_block. */
module Semaphore {
  import opened Wrappers
  import opened SchedSpec

  /** `woken` holds the threads that left the wait queue and have not run since, with the
      result wait_queue_block will give them. */
  datatype S = S(count: int, queue: seq<Tid>, woken: map<Tid, Status>)

  function Initial(value: nat): S { S(value, [], map[]) }

  ghost function Late(s: S): set<Tid> { set t | t in s.woken && s.woken[t] != NoError }

  /** Units posted and not yet handed to anybody. */
  ghost function Avail(s: S): int { s.count + |s.queue| + |Late(s)| }

  /** sem_wait and sem_timedwait, up to where they return or block */
  function Wait(s: S, t: Tid, timeoutZero: bool): S {
    if s.count - 1 < 0 then
      if timeoutZero then s else s.(count := s.count - 1, queue := s.queue + [t])
    else s.(count := s.count - 1)
  }

  /** sem_trywait */
  function TryWait(s: S): S { if s.count <= 0 then s else s.(count := s.count - 1) }

  /** sem_post */
  function Post(s: S): S {
    if s.count + 1 <= 0 && s.queue != [] then S(s.count + 1, s.queue[1..], s.woken[s.queue[0] := NoError])
    else s.(count := s.count + 1)
  }

  /** sem_timedwait, from the return of wait_queue_block */
  function Return(s: S, t: Tid): S
    requires t in s.woken
  {
    s.(count := if s.woken[t] == ErrTimedOut then s.count + 1 else s.count, woken := s.woken - {t})
  }

  /** wait_queue_timeout_handler of the i-th waiter */
  function Expire(s: S, i: nat): S
    requires i < |s.queue|
  {
    s.(queue := RemoveAt(s.queue, i), woken := s.woken[s.queue[i] := ErrTimedOut])
  }

  datatype Op = OpWait(t: Tid, timeoutZero: bool) | OpTryWait | OpPost | OpReturn(t: Tid) | OpExpire(t: Tid)

  predicate Enabled(s: S, op: Op) {
    match op
    case OpWait(t, _) => t !in s.queue && t !in s.woken
    case OpTryWait => true
    case OpPost => true
    case OpReturn(t) => t in s.woken
    case OpExpire(t) => t in s.queue
  }

  ghost function After(s: S, op: Op): S
    requires Enabled(s, op)
  {
    match op
    case OpWait(t, z) => Wait(s, t, z)
    case OpTryWait => TryWait(s)
    case OpPost => Post(s)
    case OpReturn(t) => Return(s, t)
    case OpExpire(t) => Expire(s, IndexOf(s.queue, t))
  }

  /** A step hands a unit to somebody: at once, or by waking the head of the queue. */
  ghost predicate Takes(s: S, op: Op) {
    match op
    case OpWait(_, _) => s.count > 0
    case OpTryWait => s.count > 0
    case OpPost => s.count + 1 <= 0 && s.queue != []
    case OpReturn(_) => false
    case OpExpire(_) => false
  }

  ghost predicate Inv(s: S) {
    && Avail(s) >= 0 && Distinct(s.queue)
    && forall t | t in s.woken :: t !in s.queue && (s.woken[t] == NoError || s.woken[t] == ErrTimedOut)
  }

  ghost predicate Accounts(s: S, op: Op, s': S) {
    Inv(s') && Avail(s') == Avail(s) + (if op.OpPost? then 1 else 0) - (if Takes(s, op) then 1 else 0)
  }

  lemma PostAccounts(s: S)
    requires Inv(s)
    ensures Accounts(s, OpPost, Post(s))
  {
    if Takes(s, OpPost) { assert s.queue[0] in s.queue; }
    assert Late(Post(s)) == Late(s);
  }

  lemma ReturnAccounts(s: S, t: Tid)
    requires Inv(s) && t in s.woken
    ensures Accounts(s, OpReturn(t), Return(s, t))
  {
    var s' := Return(s, t);
    if s.woken[t] == NoError { assert Late(s') == Late(s); } else { assert Late(s') == Late(s) - {t}; }
  }

  lemma ExpireAccounts(s: S, i: nat)
    requires Inv(s) && i < |s.queue|
    ensures Accounts(s, OpExpire(s.queue[i]), Expire(s, i))
  {
    RemoveAtIs(s.queue, i);
    assert s.queue[i] !in s.woken;
    assert Late(Expire(s, i)) == Late(s) + {s.queue[i]};
  }

  /** Each step keeps the invariant and accounts for every unit. */
  lemma StepKeeps(s: S, op: Op)
    requires Inv(s) && Enabled(s, op)
    ensures Inv(After(s, op))
    ensures Avail(After(s, op)) == Avail(s) + (if op.OpPost? then 1 else 0) - (if Takes(s, op) then 1 else 0)
  {
    match op
    case OpWait(t, z) => assert Late(Wait(s, t, z)) == Late(s);
    case OpTryWait => assert Late(TryWait(s)) == Late(s);
    case OpPost => PostAccounts(s);
    case OpReturn(t) => ReturnAccounts(s, t);
    case OpExpire(t) => ExpireAccounts(s, IndexOf(s.queue, t));
  }

  ghost predicate IsRun(value: nat, ss: seq<S>, ops: seq<Op>) {
    && |ss| == |ops| + 1 && ss[0] == Initial(value)
    && forall i | 0 <= i < |ops| :: Enabled(ss[i], ops[i]) && ss[i + 1] == After(ss[i], ops[i])
  }

  ghost function Posts(ops: seq<Op>, n: nat): nat
    requires n <= |ops|
  {
    if n == 0 then 0 else Posts(ops, n - 1) + if ops[n - 1].OpPost? then 1 else 0
  }

  ghost function Taken(ss: seq<S>, ops: seq<Op>, n: nat): nat
    requires n <= |ops| <= |ss|
  {
    if n == 0 then 0 else Taken(ss, ops, n - 1) + if Takes(ss[n - 1], ops[n - 1]) then 1 else 0
  }

  /** Units are conserved over every run, so no more waits succeed than there were units:
      count + blocked + timed out but not yet back = initial value + posts - successes >= 0. */
  lemma {:induction false} Conservation(value: nat, ss: seq<S>, ops: seq<Op>, n: nat)
    requires IsRun(value, ss, ops) && n <= |ops|
    ensures Inv(ss[n]) && Avail(ss[n]) == value + Posts(ops, n) - Taken(ss, ops, n) >= 0
  {
    if n == 0 {
      assert Late(ss[0]) == {};
    } else {
      Conservation(value, ss, ops, n - 1);
      StepKeeps(ss[n - 1], ops[n - 1]);
    }
  }

  /** Somebody waits although a unit is available. */
  ghost predicate Starved(s: S) { s.queue != [] && Avail(s) > 0 }

  /** A wait that blocks on a count kept down only by threads that timed out. */
  ghost predicate IntoWindow(s: S, op: Op) {
    op.OpWait? && !op.timeoutZero && s.count <= 0 && Avail(s) > 0
  }

  lemma StarvedExactlyBy(s: S, op: Op)
    requires Inv(s) && Enabled(s, op) && !Starved(s)
    ensures Starved(After(s, op)) <==> IntoWindow(s, op)
  {
    StepKeeps(s, op);
    if op.OpExpire? { RemoveAtIs(s.queue, IndexOf(s.queue, op.t)); }
  }

  /** A run never keeps a waiter from an available unit if and only if it never waits into the window. */
  lemma RunUnstarvedIff(value: nat, ss: seq<S>, ops: seq<Op>)
    requires IsRun(value, ss, ops)
    ensures (forall i | 0 <= i < |ss| :: !Starved(ss[i])) <==> (forall i | 0 <= i < |ops| :: !IntoWindow(ss[i], ops[i]))
  {
    if forall i | 0 <= i < |ops| :: !IntoWindow(ss[i], ops[i]) {
      forall i | 0 <= i < |ss| ensures !Starved(ss[i]) { Unstarved(value, ss, ops, i); }
    }
    if forall i | 0 <= i < |ss| :: !Starved(ss[i]) {
      forall i | 0 <= i < |ops| ensures !IntoWindow(ss[i], ops[i]) {
        Conservation(value, ss, ops, i);
        StarvedExactlyBy(ss[i], ops[i]);
        assert !Starved(ss[i + 1]);
      }
    }
  }

  lemma {:induction false} Unstarved(value: nat, ss: seq<S>, ops: seq<Op>, i: nat)
    requires IsRun(value, ss, ops) && i < |ss| && forall j | 0 <= j < |ops| :: !IntoWindow(ss[j], ops[j])
    ensures !Starved(ss[i])
  {
    if i > 0 {
      Unstarved(value, ss, ops, i - 1);
      Conservation(value, ss, ops, i - 1);
      StarvedExactlyBy(ss[i - 1], ops[i - 1]);
    }
  }

  /** Runs without timeouts never enter the window: blocked means nothing is available. */
  lemma {:induction false} NoTimeoutsNoStarvation(value: nat, ss: seq<S>, ops: seq<Op>, n: nat)
    requires IsRun(value, ss, ops) && n <= |ops| && forall i | 0 <= i < |ops| :: !ops[i].OpExpire?
    ensures Late(ss[n]) == {} && !Starved(ss[n])
  {
    if n == 0 {
      assert Late(ss[0]) == {};
    } else {
      NoTimeoutsNoStarvation(value, ss, ops, n - 1);
      Conservation(value, ss, ops, n - 1);
      StarvedExactlyBy(ss[n - 1], ops[n - 1]);
      StaysPrompt(ss[n - 1], ops[n - 1]);
    }
  }

  lemma StaysPrompt(s: S, op: Op)
    requires Inv(s) && Enabled(s, op) && !op.OpExpire? && Late(s) == {}
    ensures Late(After(s, op)) == {}
  {
    forall t | t in After(s, op).woken ensures After(s, op).woken[t] == NoError {
      assert t in s.woken ==> s.woken[t] == NoError by { if t in s.woken { assert t !in Late(s); } }
    }
  }

  /** Thread 1 waits and times out, a post finds nobody, thread 2 waits and blocks, 1 comes back:
      thread 2 waits although a unit is there, and one more post does not wake it. */
  lemma StarvedExample()
    ensures exists ss, ops :: IsRun(0, ss, ops) && Starved(ss[|ss| - 1]) && Late(ss[|ss| - 1]) == {} && Post(ss[|ss| - 1]).queue != []
  {
    var s0, s1, s2 := Initial(0), S(-1, [1], map[]), S(-1, [], map[1 := ErrTimedOut]);
    var s3, s4, s5 := S(0, [], map[1 := ErrTimedOut]), S(-1, [2], map[1 := ErrTimedOut]), S(0, [2], map[]);
    var ss, ops := [s0, s1, s2, s3, s4, s5], [OpWait(1, false), OpExpire(1), OpPost, OpWait(2, false), OpReturn(1)];
    assert After(s0, ops[0]) == s1;
    assert After(s1, ops[1]) == s2 by { assert RemoveAt([1], 0) == []; }
    assert After(s2, ops[2]) == s3;
    assert After(s3, ops[3]) == s4;
    assert After(s4, ops[4]) == s5 by { assert s4.woken - {1} == map[]; }
    assert IsRun(0, ss, ops);
    assert Late(s5) == {};
  }
}
