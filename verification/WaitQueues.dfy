/** What the wait-queue calls of kernel/thread.c do to one wait queue, whatever else they schedule. */
module WaitQueues {
  import opened Wrappers
  import opened SchedSpec
  import opened SchedInv
  import opened SchedIdle
  import opened Sched

  /** No thread starts or stops being blocked or changes the result it will be given. */
  ghost predicate Quiet(k: K, k': K) {
    && k'.threads.Keys == k.threads.Keys
    && forall t | t in k.threads :: SameWait(k, k', t)
  }

  ghost predicate SameWait(k: K, k': K, t: Tid)
    requires t in k.threads && t in k'.threads
  {
    && k'.threads[t].blockRet == k.threads[t].blockRet
    && (k'.threads[t].state == Blocked <==> k.threads[t].state == Blocked)
  }

  /** Nothing the CPU can choose is blocked. */
  ghost predicate Lively(k: K, cpu: nat) {
    && (forall p, i | 0 <= p < |k.rq| && 0 <= i < |k.rq[p]| :: k.rq[p][i] in k.threads && k.threads[k.rq[p][i]].state != Blocked)
    && cpu < |k.idle| && k.idle[cpu] in k.threads && k.threads[k.idle[cpu]].state != Blocked
  }

  lemma InvLively(k: K, v: set<nat>, cpu: nat)
    requires InvBut(k, {}, v) && cpu < |k.current|
    ensures Lively(k, cpu)
  {
    assert InPlace(k, k.idle[cpu]);
    forall p, i | 0 <= p < |k.rq| && 0 <= i < |k.rq[p]| ensures k.rq[p][i] in k.threads && k.threads[k.rq[p][i]].state != Blocked {
      assert QueueOk(k, p, {});
    }
  }

  lemma LivelySet(k: K, cpu: nat, t: Tid, th: Thread)
    requires Lively(k, cpu) && th.state != Blocked
    ensures Lively(SetThread(k, t, th), cpu)
  {
  }

  lemma LivelyInsert(k: K, cpu: nat, t: Tid)
    requires Lively(k, cpu) && t in k.threads && k.threads[t].prio < |k.rq| && k.threads[t].state != Blocked
    ensures Lively(InsertHead(k, t), cpu)
  {
  }

  lemma {:induction false} LivelyPopAll(k: K, cpu: nat, w: Wid, err: Status)
    requires Lively(k, cpu) && WaitersOk(k, w)
    ensures Lively(PopAll(k, w, err), cpu)
    decreases |k.waits[w].list|
  {
    if k.waits[w].list != [] {
      var t := k.waits[w].list[0];
      LivelySet(TakeWaiter(k, w, 0), cpu, t, Woken(k.threads[t], err));
      LivelyInsert(PopWaiter(k, w, 0, err), cpu, t);
      PopOneIs(k, w, err, 0);
      LivelyPopAll(InsertHead(PopWaiter(k, w, 0, err), t), cpu, w, err);
    }
  }

  lemma TopIsLively(k: K, cpu: nat)
    requires Basic(k, cpu) && Lively(k, cpu)
    ensures var t := Top(k, cpu).0; t in k.threads && k.threads[t].state != Blocked
  {
    PickIsBest(k, cpu, NUM_PRIORITIES);
  }

  lemma DispatchQuiet(k: K, cpu: nat, t: Tid)
    requires cpu < |k.current| && t in k.threads && k.current[cpu] in k.threads && k.threads[t].state != Blocked
    ensures Quiet(k, Dispatch(k, cpu, t)) && Dispatch(k, cpu, t).waits == k.waits
  {
  }

  /** A reschedule moves no waiter. */
  lemma ReschedQuiet(k: K, cpu: nat)
    requires Basic(k, cpu) && Lively(k, cpu)
    ensures Quiet(k, Resched(k, cpu)) && Resched(k, cpu).waits == k.waits
  {
    TopIsLively(k, cpu);
    ReschedQuietly(k, cpu);
  }

  lemma ReschedQuietly(k: K, cpu: nat)
    requires Basic(k, cpu) && var t := Top(k, cpu).0; t in k.threads && k.threads[t].state != Blocked
    ensures Quiet(k, Resched(k, cpu)) && Resched(k, cpu).waits == k.waits
  {
    PickIsBest(k, cpu, NUM_PRIORITIES);
    var (t, k1) := Top(k, cpu);
    assert k1.threads == k.threads && k1.waits == k.waits && k1.current == k.current;
    DispatchQuiet(k1, cpu, t);
    assert forall u | u in k.threads :: SameWait(k1, Dispatch(k1, cpu, t), u);
  }

  /** A thread that is preempted or yields moves no waiter either. */
  lemma PreemptQuiet(k: K, cpu: nat)
    requires Inv(k) && cpu < |k.current|
    ensures Basic(k, cpu) && Quiet(k, Preempt(k, cpu)) && Preempt(k, cpu).waits == k.waits
  {
    CurrentIs(k, cpu, {});
    var t := k.current[cpu];
    StepDownQuiet(k, cpu, k.threads[t].(state := Ready), k.threads[t].quantum > 0);
  }

  lemma YieldQuiet(k: K, cpu: nat)
    requires Inv(k) && cpu < |k.current|
    ensures Basic(k, cpu) && Quiet(k, Yield(k, cpu)) && Yield(k, cpu).waits == k.waits
  {
    CurrentIs(k, cpu, {});
    var t := k.current[cpu];
    StepDownQuiet(k, cpu, k.threads[t].(state := Ready, quantum := 0), false);
  }

  /** The current thread becomes ready with record `th`, queued unless it is idle. */
  function SteppedDown(k: K, cpu: nat, th: Thread, head: bool): K
    requires Basic(k, cpu) && th.prio < NUM_PRIORITIES
  {
    var t := k.current[cpu];
    var k1 := SetThread(k, t, th);
    if th.idle then k1 else if head then InsertHead(k1, t) else InsertTail(k1, t)
  }

  lemma StepDownQuiet(k: K, cpu: nat, th: Thread, head: bool)
    requires Inv(k) && Basic(k, cpu) && k.threads[k.current[cpu]].state == Running
    requires th == k.threads[k.current[cpu]].(state := Ready, quantum := th.quantum) && th.blockedOn.None?
    ensures var k' := Resched(SteppedDown(k, cpu, th, head), cpu);
            Quiet(k, k') && k'.waits == k.waits
  {
    StepDownInv(k, cpu, th, head);
    InvLively(SteppedDown(k, cpu, th, head), {cpu}, cpu);
    ReschedQuiet(SteppedDown(k, cpu, th, head), cpu);
    StepDownQuietly(k, cpu, th, head, Resched(SteppedDown(k, cpu, th, head), cpu));
  }

  lemma StepDownQuietly(k: K, cpu: nat, th: Thread, head: bool, k': K)
    requires Basic(k, cpu) && k.threads[k.current[cpu]].state == Running
    requires th == k.threads[k.current[cpu]].(state := Ready, quantum := th.quantum)
    requires Quiet(SteppedDown(k, cpu, th, head), k') && k'.waits == SteppedDown(k, cpu, th, head).waits
    ensures Quiet(k, k') && k'.waits == k.waits
  {
    var k1 := SteppedDown(k, cpu, th, head);
    assert k1.threads == k.threads[k.current[cpu] := th] && k1.waits == k.waits;
    forall u | u in k.threads ensures SameWait(k, k', u) { assert SameWait(k1, k', u); }
  }

  lemma StepDownInv(k: K, cpu: nat, th: Thread, head: bool)
    requires Inv(k) && Basic(k, cpu)
    requires th == k.threads[k.current[cpu]].(state := Ready, quantum := th.quantum) && th.blockedOn.None?
    ensures InvBut(SteppedDown(k, cpu, th, head), {}, {cpu})
  {
    var t := k.current[cpu];
    LeaveCpu(k, cpu, th, {});
    if !th.idle {
      InsertSettles(SetThread(k, t, th), t, {} + {t}, {cpu}, head);
      assert {} + {t} - {t} == {};
    }
  }

  /** The current thread joins the queue, and that is all that happens to any wait. */
  lemma BlockMoves(k: K, cpu: nat, w: Wid)
    requires Inv(k) && Busy(k, cpu) && w in k.waits
    ensures Basic(k, cpu) && Blocks(k, w, k.current[cpu], Block(k, cpu, w, false))
  {
    CurrentIs(k, cpu, {});
    var t := k.current[cpu];
    var th := k.threads[t].(state := Blocked, blockedOn := Some(w), blockRet := NoError);
    LeaveCpu(k, cpu, th, {});
    AddWaiterSettles(SetThread(k, t, th), w, t, {} + {t}, {cpu});
    assert {} + {t} - {t} == {};
    InvLively(AddWaiter(SetThread(k, t, th), w, t), {cpu}, cpu);
    ReschedQuiet(AddWaiter(SetThread(k, t, th), w, t), cpu);
    BlockQuietly(k, cpu, w);
  }

  ghost predicate Blocks(k: K, w: Wid, t: Tid, k': K)
    requires w in k.waits && t in k.threads
  {
    && k'.waits == k.waits[w := WaitQueue(k.waits[w].list + [t], k.waits[w].count + 1)]
    && k'.threads.Keys == k.threads.Keys && k'.threads[t].state == Blocked
    && forall u | u in k.threads && u != t :: SameWait(k, k', u)
  }

  lemma BlockQuietly(k: K, cpu: nat, w: Wid)
    requires Basic(k, cpu) && w in k.waits
    requires var t := k.current[cpu];
             var k1 := AddWaiter(SetThread(k, t, k.threads[t].(state := Blocked, blockedOn := Some(w), blockRet := NoError)), w, t);
             Quiet(k1, Resched(k1, cpu)) && Resched(k1, cpu).waits == k1.waits
    ensures Blocks(k, w, k.current[cpu], Block(k, cpu, w, false))
  {
    var t := k.current[cpu];
    var k1 := AddWaiter(SetThread(k, t, k.threads[t].(state := Blocked, blockedOn := Some(w), blockRet := NoError)), w, t);
    var k' := Resched(k1, cpu);
    assert SameWait(k1, k', t);
    forall u | u in k.threads && u != t ensures SameWait(k, k', u) { assert SameWait(k1, k', u); }
  }

  /** A blocked thread found on a queue is blocked on that queue. */
  lemma StaysOn(k: K, t: Tid, w: Wid)
    requires Inv(k) && w in k.waits && t in k.waits[w].list
    ensures t in k.threads && k.threads[t].blockedOn == Some(w) && k.threads[t].state == Blocked
  {
    assert WaitOk(k, w, {});
  }

  /** Waking one frees the head of the queue, and that is all that happens to any wait. */
  lemma WakeMoves(k: K, cpu: nat, w: Wid, resched: bool, err: Status)
    requires Inv(k) && cpu < |k.current| && w in k.waits && k.waits[w].list != []
    ensures Basic(k, cpu) && WaitersOk(k, w) && Frees(k, w, 0, err, WakeOne(k, cpu, w, resched, err))
  {
    CurrentIs(k, cpu, {});
    WaitersAre(k, w, {});
    WaiterIs(k, w, {}, {}, 0);
    if resched {
      InvLively(k, {}, cpu);
      WakeOneLively(k, cpu, w, err);
      ReschedQuiet(WakeOneQueued(k, cpu, w, err), cpu);
      WakeQuietly(k, cpu, w, err);
    }
  }

  lemma WakeOneLively(k: K, cpu: nat, w: Wid, err: Status)
    requires Basic(k, cpu) && WaitersOk(k, w) && k.waits[w].list != [] && Lively(k, cpu)
    ensures Basic(WakeOneQueued(k, cpu, w, err), cpu) && Lively(WakeOneQueued(k, cpu, w, err), cpu)
  {
    var t, o := k.waits[w].list[0], k.current[cpu];
    LivelySet(TakeWaiter(k, w, 0), cpu, t, Woken(k.threads[t], err));
    var k1 := PopWaiter(k, w, 0, err);
    LivelySet(k1, cpu, o, k1.threads[o].(state := Ready));
    var k2 := SetThread(k1, o, k1.threads[o].(state := Ready));
    LivelyInsert(k2, cpu, o);
    LivelyInsert(InsertHead(k2, o), cpu, t);
  }

  /** The i-th waiter of `w` is made ready with result `err`; no other wait changes. */
  ghost predicate Frees(k: K, w: Wid, i: nat, err: Status, k': K)
    requires w in k.waits && i < |k.waits[w].list|
  {
    var t := k.waits[w].list[i];
    && k'.waits == k.waits[w := WaitQueue(RemoveAt(k.waits[w].list, i), k.waits[w].count - 1)]
    && k'.threads.Keys == k.threads.Keys && t in k.threads
    && k'.threads[t].state != Blocked && k'.threads[t].blockRet == err
    && forall u | u in k.threads && u != t :: SameWait(k, k', u)
  }

  lemma WakeQuietly(k: K, cpu: nat, w: Wid, err: Status)
    requires Basic(k, cpu) && WaitersOk(k, w) && k.waits[w].list != [] && k.threads[k.current[cpu]].state != Blocked
    requires var k2 := WakeOneQueued(k, cpu, w, err); Quiet(k2, Resched(k2, cpu)) && Resched(k2, cpu).waits == k2.waits
    ensures Frees(k, w, 0, err, WakeOne(k, cpu, w, true, err))
  {
    var k2 := WakeOneQueued(k, cpu, w, err);
    QueuedFrees(k, cpu, w, err);
    FreesThenQuiet(k, w, err, k2, Resched(k2, cpu));
  }

  lemma QueuedFrees(k: K, cpu: nat, w: Wid, err: Status)
    requires Basic(k, cpu) && WaitersOk(k, w) && k.waits[w].list != [] && k.threads[k.current[cpu]].state != Blocked
    ensures Frees(k, w, 0, err, WakeOneQueued(k, cpu, w, err))
  {
  }

  lemma FreesThenQuiet(k: K, w: Wid, err: Status, k1: K, k2: K)
    requires w in k.waits && k.waits[w].list != [] && Frees(k, w, 0, err, k1) && Quiet(k1, k2) && k2.waits == k1.waits
    ensures Frees(k, w, 0, err, k2)
  {
    assert SameWait(k1, k2, k.waits[w].list[0]);
    forall u | u in k.threads && u != k.waits[w].list[0] ensures SameWait(k, k2, u) {
      assert SameWait(k, k1, u) && SameWait(k1, k2, u);
    }
  }

  /** Every waiter of `w` is made ready with result `err`; no other wait changes. */
  ghost predicate FreesAll(k: K, w: Wid, err: Status, k': K)
    requires w in k.waits
  {
    && k'.waits == k.waits[w := WaitQueue([], 0)] && k'.threads.Keys == k.threads.Keys
    && (forall t | t in k.waits[w].list :: t in k.threads && k'.threads[t].state != Blocked && k'.threads[t].blockRet == err)
    && (forall u | u in k.threads && u !in k.waits[w].list :: SameWait(k, k', u))
  }

  lemma {:induction false} PopAllFrees(k: K, w: Wid, err: Status)
    requires WaitersOk(k, w) && Distinct(k.waits[w].list) && k.waits[w].count == |k.waits[w].list|
    ensures FreesAll(k, w, err, PopAll(k, w, err))
    decreases |k.waits[w].list|
  {
    var q := k.waits[w].list;
    if q == [] {
      assert k.waits == k.waits[w := WaitQueue([], 0)];
    } else {
      var k1 := InsertHead(PopWaiter(k, w, 0, err), q[0]);
      assert RemoveAt(q, 0) == q[1..] && Distinct(q[1..]) && q[0] !in q[1..];
      PopAllFrees(k1, w, err);
      FreesRest(k, w, err, k1, PopAll(k1, w, err));
    }
  }

  /** The head, then the others. */
  lemma FreesRest(k: K, w: Wid, err: Status, k1: K, k': K)
    requires WaitersOk(k, w) && k.waits[w].list != [] && k.waits[w].list[0] !in k.waits[w].list[1..]
    requires k1.waits == k.waits[w := WaitQueue(k.waits[w].list[1..], k.waits[w].count - 1)]
    requires k1.threads == k.threads[k.waits[w].list[0] := Woken(k.threads[k.waits[w].list[0]], err)]
    requires FreesAll(k1, w, err, k')
    ensures FreesAll(k, w, err, k')
  {
    var q := k.waits[w].list;
    assert forall t :: t in q <==> t == q[0] || t in q[1..];
    assert SameWait(k1, k', q[0]);
    forall u | u in k.threads && u !in q ensures SameWait(k, k', u) { assert SameWait(k1, k', u); }
  }

  /** Waking all frees everybody on the queue, and that is all that happens to any wait. */
  lemma WakeAllMoves(k: K, cpu: nat, w: Wid, resched: bool, err: Status)
    requires Inv(k) && cpu < |k.current| && w in k.waits
    ensures Basic(k, cpu) && WaitersOk(k, w) && FreesAll(k, w, err, WakeAll(k, cpu, w, resched, err))
  {
    CurrentIs(k, cpu, {});
    WaitersAre(k, w, {});
    assert WaitOk(k, w, {});
    if resched && k.waits[w].list != [] {
      InvLively(k, {}, cpu);
      RunnerNotWaiting(k, w, cpu);
      WakeAllSwitches(k, cpu, w, err);
    } else {
      PopAllFrees(k, w, err);
    }
  }

  lemma WakeAllSwitches(k: K, cpu: nat, w: Wid, err: Status)
    requires Basic(k, cpu) && Lively(k, cpu) && WaitersOk(k, w) && k.waits[w].list != []
    requires Distinct(k.waits[w].list) && k.waits[w].count == |k.waits[w].list|
    requires k.current[cpu] !in k.waits[w].list && k.threads[k.current[cpu]].state != Blocked
    ensures FreesAll(k, w, err, WakeAll(k, cpu, w, true, err))
  {
    AsideQuiet(k, cpu, w);
    PopAllThenResched(SteppedAside(k, cpu), cpu, w, err);
    QuietThenFrees(k, SteppedAside(k, cpu), w, err, Resched(PopAll(SteppedAside(k, cpu), w, err), cpu));
  }

  lemma AsideQuiet(k: K, cpu: nat, w: Wid)
    requires Basic(k, cpu) && Lively(k, cpu) && WaitersOk(k, w) && k.threads[k.current[cpu]].state != Blocked
    ensures var k0 := SteppedAside(k, cpu);
            Quiet(k, k0) && k0.waits == k.waits && Basic(k0, cpu) && Lively(k0, cpu) && WaitersOk(k0, w)
  {
    var o := k.current[cpu];
    LivelySet(k, cpu, o, k.threads[o].(state := Ready));
    LivelyInsert(SetThread(k, o, k.threads[o].(state := Ready)), cpu, o);
  }

  lemma PopAllThenResched(k: K, cpu: nat, w: Wid, err: Status)
    requires Basic(k, cpu) && Lively(k, cpu) && WaitersOk(k, w)
    requires Distinct(k.waits[w].list) && k.waits[w].count == |k.waits[w].list|
    ensures Basic(PopAll(k, w, err), cpu) && FreesAll(k, w, err, Resched(PopAll(k, w, err), cpu))
  {
    var k1 := PopAll(k, w, err);
    LivelyPopAll(k, cpu, w, err);
    ReschedQuiet(k1, cpu);
    PopAllFrees(k, w, err);
    FreesThenQuietAll(k, w, err, k1, Resched(k1, cpu));
  }

  /** Quiet steps before and after change nothing about it. */
  lemma FreesThenQuietAll(k: K, w: Wid, err: Status, k1: K, k2: K)
    requires w in k.waits && FreesAll(k, w, err, k1) && Quiet(k1, k2) && k2.waits == k1.waits
    ensures FreesAll(k, w, err, k2)
  {
    forall t | t in k.waits[w].list ensures t in k.threads && k2.threads[t].state != Blocked && k2.threads[t].blockRet == err {
      assert SameWait(k1, k2, t);
    }
    forall u | u in k.threads && u !in k.waits[w].list ensures SameWait(k, k2, u) {
      assert SameWait(k, k1, u) && SameWait(k1, k2, u);
    }
  }

  lemma QuietThenFrees(k: K, k0: K, w: Wid, err: Status, k2: K)
    requires w in k.waits && Quiet(k, k0) && k0.waits == k.waits && FreesAll(k0, w, err, k2)
    ensures FreesAll(k, w, err, k2)
  {
    forall u | u in k.threads && u !in k.waits[w].list ensures SameWait(k, k2, u) {
      assert SameWait(k, k0, u) && SameWait(k0, k2, u);
    }
  }

  /** A timeout takes the thread off its queue, and that is all that happens to any wait. */
  lemma ExpireMoves(k: K, t: Tid, w: Wid)
    requires Inv(k) && w in k.waits && t in k.waits[w].list
    ensures Unblock.requires(k, t, ErrTimedOut)
    ensures Frees(k, w, IndexOf(k.waits[w].list, t), ErrTimedOut, Unblock(k, t, ErrTimedOut))
  {
    StaysOn(k, t, w);
    UnblockKeeps(k, t, ErrTimedOut);
  }

  /** The results wait_queue_block will give those of `inside` that left the queue and have not run
      since; `inside` are the threads that called it and have not returned. */
  ghost function Pending(k: K, inside: set<Tid>): map<Tid, Status>
    requires inside <= k.threads.Keys
  {
    map t | t in inside && k.threads[t].state != Blocked :: k.threads[t].blockRet
  }

  lemma PendingGrows(k: K, k': K, inside: set<Tid>, t: Tid, err: Status)
    requires inside <= k.threads.Keys && k'.threads.Keys == k.threads.Keys && t in inside
    requires k'.threads[t].state != Blocked && k'.threads[t].blockRet == err
    requires forall u | u in k.threads && u != t :: SameWait(k, k', u)
    ensures Pending(k', inside) == Pending(k, inside)[t := err]
  {
    var p, p' := Pending(k, inside), Pending(k', inside);
    forall u | u in inside && u != t
      ensures u in p <==> u in p'
      ensures u in p ==> p[u] == p'[u]
    {
      assert SameWait(k, k', u);
    }
    assert p'.Keys == p[t := err].Keys;
  }

  /** The threads inside that are blocked are those on the queue. */
  ghost predicate Inside(k: K, w: Wid, inside: set<Tid>) {
    && w in k.waits && inside <= k.threads.Keys
    && (forall t | t in k.waits[w].list :: t in inside)
    && (forall t | t in inside && k.threads[t].state == Blocked :: t in k.waits[w].list)
  }

  /** The caller is inside once it blocks, and no result is pending for it. */
  lemma BlockKeepsInside(k: K, w: Wid, inside: set<Tid>, t: Tid, k': K)
    requires Inside(k, w, inside) && t in k.threads && t !in inside && Blocks(k, w, t, k')
    ensures Inside(k', w, inside + {t}) && Pending(k', inside + {t}) == Pending(k, inside)
  {
    assert forall u | u in inside :: SameWait(k, k', u);
  }

  lemma FreesKeepsInside(k: K, w: Wid, inside: set<Tid>, i: nat, err: Status, k': K)
    requires Inside(k, w, inside) && i < |k.waits[w].list| && Distinct(k.waits[w].list) && Frees(k, w, i, err, k')
    ensures Inside(k', w, inside) && Pending(k', inside) == Pending(k, inside)[k.waits[w].list[i] := err]
  {
    var q, q' := k.waits[w].list, k'.waits[w].list;
    RemoveAtIs(q, i);
    forall t | t in q' ensures t in inside { assert t in q; }
    forall t | t in inside && k'.threads[t].state == Blocked ensures t in q' {
      assert t != q[i] && SameWait(k, k', t);
    }
    assert q[i] in q;
    PendingGrows(k, k', inside, q[i], err);
  }

  /** The scheduler's invariant, opened by `assert Open(0)` where it is needed. */
  ghost predicate Whole(k: K) {
    assert SealInv(Inv(k), k);
    var b: bool :| SealInv(b, k);
    b
  }

  ghost predicate SealInv(b: bool, k: K) { forall u {:trigger Open(u)} :: Open(u) ==> b == Inv(k) }

  /** wait_queue_block on `w`, with a timeout that is not zero */
  method BlockOn(kernel: Kernel, w: Wid, cpu: nat)
    requires Whole(kernel.View()) && Busy(kernel.View(), cpu) && w in kernel.waits
    modifies kernel
    ensures Basic(old(kernel.View()), cpu) && kernel.View() == Block(old(kernel.View()), cpu, w, false)
    ensures Whole(kernel.View()) && Blocks(old(kernel.View()), w, old(kernel.current[cpu]), kernel.View())
  {
    assert Open(0);
    BlockMoves(kernel.View(), cpu, w);
    var _ := kernel.WaitQueueBlock(cpu, w, false);
  }

  /** wait_queue_wake_one on `w` */
  method WakeOneOf(kernel: Kernel, w: Wid, cpu: nat, resched: bool) returns (woken: nat)
    requires Whole(kernel.View()) && cpu < |kernel.current| && w in kernel.waits && WakeOneOk(kernel.View(), cpu, w, resched)
    modifies kernel
    ensures Basic(old(kernel.View()), cpu) && WaitersOk(old(kernel.View()), w)
    ensures kernel.View() == WakeOne(old(kernel.View()), cpu, w, resched, NoError)
    ensures Whole(kernel.View()) && old(Distinct(kernel.waits[w].list))
    ensures if old(kernel.waits[w].list) == [] then woken == 0 && kernel.View() == old(kernel.View())
            else woken == 1 && Frees(old(kernel.View()), w, 0, NoError, kernel.View())
  {
    assert Open(0);
    QueueDistinct(kernel.View(), w);
    if kernel.waits[w].list != [] { WakeMoves(kernel.View(), cpu, w, resched, NoError); }
    woken := kernel.WaitQueueWakeOne(cpu, w, resched, NoError);
  }

  /** wait_queue_wake_all on `w` */
  method WakeAllOf(kernel: Kernel, w: Wid, cpu: nat, resched: bool) returns (woken: nat)
    requires Whole(kernel.View()) && cpu < |kernel.current| && w in kernel.waits && WakeAllOk(kernel.View(), cpu, w, resched)
    modifies kernel
    ensures Whole(kernel.View()) && woken == |old(kernel.waits[w].list)|
    ensures FreesAll(old(kernel.View()), w, NoError, kernel.View())
  {
    assert Open(0);
    WakeAllMoves(kernel.View(), cpu, w, resched, NoError);
    woken := kernel.WaitQueueWakeAll(cpu, w, resched, NoError);
  }

  /** thread_unblock_from_wait_queue when the wait of `t` on `w` times out */
  method TimeOut(kernel: Kernel, w: Wid, t: Tid)
    requires Whole(kernel.View()) && w in kernel.waits && t in kernel.waits[w].list
    modifies kernel
    ensures Unblock.requires(old(kernel.View()), t, ErrTimedOut)
    ensures kernel.View() == Unblock(old(kernel.View()), t, ErrTimedOut)
    ensures Whole(kernel.View()) && old(Distinct(kernel.waits[w].list))
    ensures Frees(old(kernel.View()), w, old(IndexOf(kernel.waits[w].list, t)), ErrTimedOut, kernel.View())
  {
    assert Open(0);
    QueueDistinct(kernel.View(), w);
    ExpireMoves(kernel.View(), t, w);
    var _ := kernel.UnblockFromWaitQueue(t, ErrTimedOut);
  }

  ghost predicate RemoveFirst(s: seq<Tid>) { s != [] ==> RemoveAt(s, 0) == s[1..] }

  lemma QueueDistinct(k: K, w: Wid)
    requires Inv(k) && w in k.waits
    ensures Distinct(k.waits[w].list)
  {
    assert WaitOk(k, w, {});
  }

  /** The thread a CPU runs is not blocked and waits on no queue. */
  lemma NotWaiting(k: K, w: Wid, cpu: nat)
    requires Whole(k) && w in k.waits && Busy(k, cpu)
    ensures k.current[cpu] !in k.waits[w].list && k.threads[k.current[cpu]].state != Blocked
  {
    assert Open(0);
    CurrentIs(k, cpu, {});
    assert WaitOk(k, w, {});
  }
}
