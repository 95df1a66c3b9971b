/** kernel/event.c as a protocol: a flag threads wait for, cleared by hand or by the first thread it
    lets through. Every critical section is one step. */
module Event {
  import opened Wrappers
  import opened SchedSpec

  /** `woken` holds the threads that left the wait queue and have not run since. */
  datatype E = E(auto: bool, signaled: bool, queue: seq<Tid>, woken: map<Tid, Status>)

  /** event_wait_timeout, up to where it returns or blocks */
  function Wait(e: E, t: Tid, timeoutZero: bool): E {
    if e.signaled then e.(signaled := !e.auto)
    else if timeoutZero then e
    else e.(queue := e.queue + [t])
  }

  /** wait_queue_wake_all */
  function FreeAll(woken: map<Tid, Status>, queue: seq<Tid>): map<Tid, Status>
    decreases |queue|
  {
    if queue == [] then woken else FreeAll(woken[queue[0] := NoError], queue[1..])
  }

  lemma {:induction false} FreeAllIs(woken: map<Tid, Status>, queue: seq<Tid>, t: Tid)
    ensures t in FreeAll(woken, queue) <==> t in woken || t in queue
    ensures t in queue ==> FreeAll(woken, queue)[t] == NoError
    ensures t in woken && t !in queue ==> FreeAll(woken, queue)[t] == woken[t]
    decreases |queue|
  {
    if queue != [] { FreeAllIs(woken[queue[0] := NoError], queue[1..], t); FreeAllFirst(woken, queue, t); }
  }

  /** A thread already woken with success stays so. */
  lemma {:induction false} FreeAllFirst(woken: map<Tid, Status>, queue: seq<Tid>, t: Tid)
    ensures t in woken && woken[t] == NoError ==> t in FreeAll(woken, queue) && FreeAll(woken, queue)[t] == NoError
    ensures queue != [] && t == queue[0] ==> t in FreeAll(woken, queue) && FreeAll(woken, queue)[t] == NoError
    decreases |queue|
  {
    if queue != [] { FreeAllFirst(woken[queue[0] := NoError], queue[1..], t); }
  }

  /** event_signal */
  function Signal(e: E): E {
    if e.signaled then e
    else if !e.auto then E(false, true, [], FreeAll(e.woken, e.queue))
    else if e.queue == [] then e.(signaled := true)
    else e.(queue := e.queue[1..], woken := e.woken[e.queue[0] := NoError])
  }

  /** event_unsignal */
  function Unsignal(e: E): E { e.(signaled := false) }

  datatype Op = OpWait(t: Tid, timeoutZero: bool) | OpSignal | OpUnsignal | OpReturn(t: Tid) | OpExpire(t: Tid)

  predicate Enabled(e: E, op: Op) {
    match op
    case OpWait(t, _) => t !in e.queue && t !in e.woken
    case OpReturn(t) => t in e.woken
    case OpExpire(t) => t in e.queue
    case _ => true
  }

  ghost function After(e: E, op: Op): E
    requires Enabled(e, op)
  {
    match op
    case OpWait(t, z) => Wait(e, t, z)
    case OpSignal => Signal(e)
    case OpUnsignal => Unsignal(e)
    case OpReturn(t) => e.(woken := e.woken - {t})
    case OpExpire(t) =>
      var i := IndexOf(e.queue, t);
      e.(queue := RemoveAt(e.queue, i), woken := e.woken[t := ErrTimedOut])
  }

  /** Nobody waits for an event that is signaled: no wakeup is lost. */
  ghost predicate Inv(e: E) {
    && (e.signaled ==> e.queue == []) && Distinct(e.queue)
    && forall t | t in e.woken :: t !in e.queue
  }

  lemma StepKeeps(e: E, op: Op)
    requires Inv(e) && Enabled(e, op)
    ensures Inv(After(e, op)) && After(e, op).auto == e.auto
  {
    if op.OpExpire? { RemoveAtIs(e.queue, IndexOf(e.queue, op.t)); }
  }

  ghost predicate IsRun(es: seq<E>, ops: seq<Op>) {
    && |es| == |ops| + 1 && es[0].queue == [] && es[0].woken == map[]
    && forall i | 0 <= i < |ops| :: Enabled(es[i], ops[i]) && es[i + 1] == After(es[i], ops[i])
  }

  lemma {:induction false} RunKeeps(es: seq<E>, ops: seq<Op>, i: nat)
    requires IsRun(es, ops) && i < |es|
    ensures Inv(es[i]) && es[i].auto == es[0].auto
  {
    if i > 0 {
      RunKeeps(es, ops, i - 1);
      StepKeeps(es[i - 1], ops[i - 1]);
    }
  }

  // ------------------------------------------------- one thread for each signal

  ghost function Bit(b: bool): int { if b then 1 else 0 }

  /** A step lets a thread through an auto-unsignal event: at once, or by waking it. */
  ghost predicate Passes(e: E, op: Op) {
    (op.OpWait? && e.signaled) || (op.OpSignal? && !e.signaled && e.queue != [])
  }

  ghost function Count(es: seq<E>, ops: seq<Op>, n: nat, f: (E, Op) -> bool): int
    requires n <= |ops| <= |es|
  {
    if n == 0 then 0 else Count(es, ops, n - 1, f) + Bit(f(es[n - 1], ops[n - 1]))
  }

  /** With auto-unsignal, the signals that were not already pending, and a signaled start, are
      each used up by one thread let through or by one event_unsignal, or still pending. */
  lemma {:induction false} OneThreadPerSignal(es: seq<E>, ops: seq<Op>, n: nat)
    requires IsRun(es, ops) && es[0].auto && n <= |ops|
    ensures Bit(es[0].signaled) + Count(es, ops, n, (e: E, op: Op) => op.OpSignal? && !e.signaled)
         == Count(es, ops, n, (e, op) => Passes(e, op))
          + Count(es, ops, n, (e: E, op: Op) => op.OpUnsignal? && e.signaled) + Bit(es[n].signaled)
  {
    if n > 0 {
      OneThreadPerSignal(es, ops, n - 1);
      RunKeeps(es, ops, n - 1);
      assert es[n] == After(es[n - 1], ops[n - 1]);
    }
  }

  /** Without it, a signal frees everybody who waits, and they are given success. */
  lemma SignalFreesAll(e: E, t: Tid)
    requires Inv(e) && !e.auto && t in e.queue
    ensures Signal(e).queue == [] && t in Signal(e).woken && Signal(e).woken[t] == NoError && Signal(e).signaled
  {
    FreeAllIs(e.woken, e.queue, t);
  }

  /** And it stays signaled, for however many come, until somebody unsignals it. */
  lemma {:induction false} StaysSignaled(es: seq<E>, ops: seq<Op>, i: nat, j: nat)
    requires IsRun(es, ops) && !es[0].auto && i < j <= |ops| && ops[i].OpSignal?
    requires forall k {:trigger ops[k]} | i < k < j :: !ops[k].OpUnsignal?
    ensures es[j].signaled && es[j].queue == []
    decreases j
  {
    RunKeeps(es, ops, j);
    RunKeeps(es, ops, j - 1);
    if j - 1 > i { StaysSignaled(es, ops, i, j - 1); }
    assert es[j] == After(es[j - 1], ops[j - 1]);
  }

  /** Nobody waits while it is signaled, and a signal with auto-unsignal is used up by the first to come. */
  lemma {:induction false} FirstUsesItUp(es: seq<E>, ops: seq<Op>, i: nat)
    requires IsRun(es, ops) && es[0].auto && i < |ops| && ops[i].OpWait? && es[i].signaled
    ensures !es[i + 1].signaled && es[i + 1].queue == []
  {
    RunKeeps(es, ops, i);
    assert es[i + 1] == After(es[i], ops[i]);
  }
}
