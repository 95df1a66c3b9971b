/** Which operations of kernel/thread.c change what a mutex, semaphore or event knows of its waiters:
    exactly those that block on its queue or wake from it, and those that take a waiter's record away. */
module WaitFrames {
  import opened Wrappers
  import opened SchedSpec
  import opened SchedInv
  import opened SchedIdle
  import opened SchedRuns
  import opened WaitQueues

  /** The queue and the results pending for those inside are what they were. */
  ghost predicate Undisturbed(k: K, k': K, wait: Wid, inside: set<Tid>)
    requires Inside(k, wait, inside)
  {
    && Inside(k', wait, inside) && k'.waits[wait] == k.waits[wait]
    && Pending(k', inside) == Pending(k, inside)
  }

  /** Somebody waits on `wait`. */
  ghost predicate Awaited(k: K, wait: Wid)
    requires wait in k.waits
  {
    k.waits[wait].list != []
  }

  /** Seen before the call: it blocks on `wait` or wakes a waiter of it, it blocks a thread inside on
      another queue, it frees the record of a thread inside or the queue itself, or it resets a thread
      inside whose wait failed. */
  ghost predicate Disturbs(k: K, op: Op, wait: Wid, inside: set<Tid>)
    requires Enabled(k, op) && wait in k.waits
  {
    match op
    case OpBlock(cpu, w, z) => !z && (w == wait || k.current[cpu] in inside)
    case OpWakeOne(_, w, _, _) => w == wait && Awaited(k, wait)
    case OpWakeAll(_, w, _, _) => w == wait && Awaited(k, wait)
    case OpTimeout(t) => t in k.waits[wait].list
    case OpExit(cpu) =>
      var t := k.current[cpu];
      !k.threads[t].detached && Retcode(t) == wait && Awaited(k, wait)
    case OpDetach(t) =>
      var dead := k.threads[t].state == Death;
      (Retcode(t) == wait && (dead || Awaited(k, wait))) || (dead && t in inside)
    case OpReap(t) => Retcode(t) == wait || t in inside
    case OpUnqueue(t) => t in inside && k.threads[t].blockRet != NoError
    case _ => false
  }

  // ------------------------------------------------ what each kind of change does

  lemma SameIsUndisturbed(k: K, k': K, wait: Wid, inside: set<Tid>)
    requires Inside(k, wait, inside) && wait in k'.waits && k'.waits[wait] == k.waits[wait]
    requires inside <= k'.threads.Keys && forall t | t in inside :: SameWait(k, k', t)
    ensures Undisturbed(k, k', wait, inside)
  {
    var p, p' := Pending(k, inside), Pending(k', inside);
    forall t | t in inside ensures (t in p <==> t in p') && (t in p ==> p[t] == p'[t]) { assert SameWait(k, k', t); }
    assert p.Keys == p'.Keys;
    forall t | t in inside && k'.threads[t].state == Blocked ensures t in k'.waits[wait].list { assert SameWait(k, k', t); }
  }

  lemma QuietIsUndisturbed(k: K, k': K, wait: Wid, inside: set<Tid>)
    requires Inside(k, wait, inside) && Quiet(k, k') && k'.waits == k.waits
    ensures Undisturbed(k, k', wait, inside)
  {
    SameIsUndisturbed(k, k', wait, inside);
  }

  lemma QuietTwice(k: K, k1: K, k2: K)
    requires Quiet(k, k1) && Quiet(k1, k2)
    ensures Quiet(k, k2)
  {
    forall t | t in k.threads ensures SameWait(k, k2, t) { assert SameWait(k, k1, t) && SameWait(k1, k2, t); }
  }

  /** A thread on another queue is not inside. */
  lemma Elsewhere(k: K, w: Wid, wait: Wid, inside: set<Tid>, t: Tid)
    requires Inv(k) && Inside(k, wait, inside) && w in k.waits && w != wait && t in k.waits[w].list
    ensures t !in inside
  {
    StaysOn(k, t, w);
    if t in inside { StaysOn(k, t, wait); }
  }

  lemma BlocksDisturbs(k: K, w: Wid, t: Tid, k': K, wait: Wid, inside: set<Tid>)
    requires Inside(k, wait, inside) && w in k.waits && t in k.threads && k.threads[t].state != Blocked && Blocks(k, w, t, k')
    ensures Undisturbed(k, k', wait, inside) <==> w != wait && t !in inside
  {
    if w != wait && t !in inside {
      SameIsUndisturbed(k, k', wait, inside);
    } else if w == wait {
      assert k'.waits[wait].count != k.waits[wait].count;
    } else {
      assert t in Pending(k, inside) && (inside <= k'.threads.Keys ==> t !in Pending(k', inside));
    }
  }

  lemma FreesDisturbs(k: K, w: Wid, i: nat, err: Status, k': K, wait: Wid, inside: set<Tid>)
    requires Inv(k) && Inside(k, wait, inside) && w in k.waits && i < |k.waits[w].list| && Frees(k, w, i, err, k')
    ensures Undisturbed(k, k', wait, inside) <==> w != wait
  {
    if w != wait {
      Elsewhere(k, w, wait, inside, k.waits[w].list[i]);
      SameIsUndisturbed(k, k', wait, inside);
    } else {
      assert k'.waits[wait].count != k.waits[wait].count;
    }
  }

  lemma FreesAllDisturbs(k: K, w: Wid, err: Status, k': K, wait: Wid, inside: set<Tid>)
    requires Inv(k) && Inside(k, wait, inside) && w in k.waits && FreesAll(k, w, err, k')
    ensures Undisturbed(k, k', wait, inside) <==> !(w == wait && Awaited(k, wait))
  {
    assert WaitOk(k, w, {});
    if !(w == wait && Awaited(k, wait)) {
      forall t | t in inside ensures SameWait(k, k', t) {
        if t in k.waits[w].list { Elsewhere(k, w, wait, inside, t); }
      }
      SameIsUndisturbed(k, k', wait, inside);
    }
  }

  // ------------------------------------------------------ operations that only schedule

  lemma QuietThenResched(k: K, k1: K, cpu: nat)
    requires Quiet(k, k1) && k1.waits == k.waits && Basic(k1, cpu) && Lively(k1, cpu)
    ensures Quiet(k, Resched(k1, cpu)) && Resched(k1, cpu).waits == k.waits
  {
    ReschedQuiet(k1, cpu);
    QuietTwice(k, k1, Resched(k1, cpu));
  }

  lemma SetPriorityQuiet(k: K, cpu: nat, prio: int)
    requires Inv(k) && cpu < |k.current|
    ensures Basic(k, cpu) && Quiet(k, SetPriority(k, cpu, prio)) && SetPriority(k, cpu, prio).waits == k.waits
  {
    CurrentIs(k, cpu, {});
    InvLively(k, {}, cpu);
    var t := k.current[cpu];
    var th := k.threads[t].(prio := Clamp(prio), state := Ready);
    LivelySet(k, cpu, t, th);
    LivelyInsert(SetThread(k, t, th), cpu, t);
    QuietThenResched(k, PriorityQueued(k, cpu, prio), cpu);
  }

  lemma SleepQuiet(k: K, cpu: nat)
    requires Inv(k) && cpu < |k.current|
    ensures Basic(k, cpu) && Quiet(k, Sleep(k, cpu)) && Sleep(k, cpu).waits == k.waits
  {
    CurrentIs(k, cpu, {});
    InvLively(k, {}, cpu);
    var th := k.threads[k.current[cpu]].(state := Sleeping);
    LivelySet(k, cpu, k.current[cpu], th);
    QuietThenResched(k, SetThread(k, k.current[cpu], th), cpu);
  }

  lemma ReadyQuiet(k: K, t: Tid)
    requires t in k.threads && k.threads[t].prio < |k.rq| && OffQueues(k.threads[t].state)
    ensures Quiet(k, SleepDone(k, t)) && SleepDone(k, t).waits == k.waits && SleepDone(k, t).current == k.current
  {
  }

  lemma ResumeQuiet(k: K, cpu: nat, t: Tid, intsOff: bool)
    requires Inv(k) && cpu < |k.current| && t in k.threads && k.threads[t].prio < NUM_PRIORITIES && Basic(k, cpu)
    ensures Quiet(k, Resume(k, cpu, t, intsOff)) && Resume(k, cpu, t, intsOff).waits == k.waits
  {
    if k.threads[t].state == Suspended {
      ReadyKeeps(k, t);
      ReadyQuiet(k, t);
      if !intsOff { ResumeYields(k, SleepDone(k, t), cpu); }
    }
  }

  lemma ResumeYields(k: K, k1: K, cpu: nat)
    requires Inv(k1) && Quiet(k, k1) && k1.waits == k.waits && cpu < |k1.current|
    ensures Basic(k1, cpu) && Quiet(k, Yield(k1, cpu)) && Yield(k1, cpu).waits == k.waits
  {
    YieldQuiet(k1, cpu);
    QuietTwice(k, k1, Yield(k1, cpu));
  }

  lemma TickQuiet(k: K, cpu: nat)
    requires Basic(k, cpu)
    ensures Quiet(k, Tick(k, cpu)) && Tick(k, cpu).waits == k.waits
  {
  }

  predicate OnlySchedules(op: Op) {
    op.OpResume? || op.OpYield? || op.OpPreempt? || op.OpSetPriority? || op.OpSleep? || op.OpSleepDone? || op.OpTick?
  }

  lemma SchedulingQuiet(k: K, op: Op)
    requires Inv(k) && Enabled(k, op) && OnlySchedules(op)
    ensures Defined(k, op) && Quiet(k, After(k, op)) && After(k, op).waits == k.waits
  {
    match op
    case OpResume(cpu, t, intsOff) => ResumeKeeps(k, cpu, t, intsOff); ResumeQuiet(k, cpu, t, intsOff);
    case OpYield(cpu) => YieldQuiet(k, cpu);
    case OpPreempt(cpu) => PreemptQuiet(k, cpu);
    case OpSetPriority(cpu, p) => SetPriorityQuiet(k, cpu, p);
    case OpSleep(cpu) => SleepQuiet(k, cpu);
    case OpSleepDone(t) => ReadyKeeps(k, t); ReadyQuiet(k, t);
    case OpTick(cpu) => CurrentIs(k, cpu, {}); TickQuiet(k, cpu);
  }

  // ----------------------------------------------------- operations on wait queues

  lemma WakeOneDisturbs(k: K, cpu: nat, w: Wid, resched: bool, err: Status, wait: Wid, inside: set<Tid>)
    requires Inv(k) && Inside(k, wait, inside) && cpu < |k.current| && w in k.waits
    ensures Basic(k, cpu) && WaitersOk(k, w)
    ensures Undisturbed(k, WakeOne(k, cpu, w, resched, err), wait, inside) <==> !(w == wait && Awaited(k, wait))
  {
    CurrentIs(k, cpu, {});
    WaitersAre(k, w, {});
    if k.waits[w].list != [] {
      WakeMoves(k, cpu, w, resched, err);
      FreesDisturbs(k, w, 0, err, WakeOne(k, cpu, w, resched, err), wait, inside);
    }
  }

  lemma TimeoutDisturbs(k: K, t: Tid, wait: Wid, inside: set<Tid>)
    requires Inv(k) && Inside(k, wait, inside) && t in k.threads
    ensures Unblock.requires(k, t, ErrTimedOut)
    ensures Undisturbed(k, Unblock(k, t, ErrTimedOut), wait, inside) <==> t !in k.waits[wait].list
  {
    UnblockKeeps(k, t, ErrTimedOut);
    if k.threads[t].state == Blocked {
      var w := k.threads[t].blockedOn.value;
      ExpireMoves(k, t, w);
      FreesDisturbs(k, w, IndexOf(k.waits[w].list, t), ErrTimedOut, Unblock(k, t, ErrTimedOut), wait, inside);
    }
    if t in k.waits[wait].list { StaysOn(k, t, wait); }
  }

  lemma ExitMoves(k: K, cpu: nat)
    requires Inv(k) && Busy(k, cpu) && Retcode(k.current[cpu]) in k.waits
    ensures Basic(k, cpu) && WaitersOk(k, Retcode(k.current[cpu]))
    ensures var t := k.current[cpu];
            if k.threads[t].detached then Quiet(k, Exit(k, cpu)) && Exit(k, cpu).waits == k.waits
            else FreesAll(k, Retcode(t), NoError, Exit(k, cpu))
  {
    CurrentIs(k, cpu, {});
    WaitersAre(k, Retcode(k.current[cpu]), {});
    assert WaitOk(k, Retcode(k.current[cpu]), {});
    InvLively(k, {}, cpu);
    ExitFrees(k, cpu);
  }

  function Dying(k: K, cpu: nat): K
    requires Basic(k, cpu)
  {
    SetThread(k, k.current[cpu], k.threads[k.current[cpu]].(state := Death))
  }

  lemma DyingQuiet(k: K, cpu: nat)
    requires Basic(k, cpu) && Lively(k, cpu) && k.threads[k.current[cpu]].state != Blocked
    ensures var k1 := Dying(k, cpu);
            && Quiet(k, k1) && k1.waits == k.waits && Basic(k1, cpu) && Lively(k1, cpu)
            && forall w | WaitersOk(k, w) :: WaitersOk(k1, w)
  {
    LivelySet(k, cpu, k.current[cpu], k.threads[k.current[cpu]].(state := Death));
  }

  lemma ExitFrees(k: K, cpu: nat)
    requires Basic(k, cpu) && Lively(k, cpu) && WaitersOk(k, Retcode(k.current[cpu])) && k.threads[k.current[cpu]].state != Blocked
    requires var q := k.waits[Retcode(k.current[cpu])]; Distinct(q.list) && q.count == |q.list|
    ensures var t := k.current[cpu];
            if k.threads[t].detached then Quiet(k, Exit(k, cpu)) && Exit(k, cpu).waits == k.waits
            else FreesAll(k, Retcode(t), NoError, Exit(k, cpu))
  {
    var w, k1 := Retcode(k.current[cpu]), Dying(k, cpu);
    DyingQuiet(k, cpu);
    if k.threads[k.current[cpu]].detached {
      QuietThenResched(k, k1, cpu);
    } else {
      PopAllThenResched(k1, cpu, w, NoError);
      QuietThenFrees(k, k1, w, NoError, Resched(PopAll(k1, w, NoError), cpu));
      assert Exit(k, cpu) == Resched(PopAll(k1, w, NoError), cpu);
    }
  }

  lemma ExitDisturbs(k: K, cpu: nat, wait: Wid, inside: set<Tid>)
    requires Inv(k) && Inside(k, wait, inside) && Enabled(k, OpExit(cpu))
    ensures Defined(k, OpExit(cpu))
    ensures Undisturbed(k, Exit(k, cpu), wait, inside) <==> !Disturbs(k, OpExit(cpu), wait, inside)
  {
    var t := k.current[cpu];
    ExitMoves(k, cpu);
    if k.threads[t].detached {
      QuietIsUndisturbed(k, Exit(k, cpu), wait, inside);
    } else {
      FreesAllDisturbs(k, Retcode(t), NoError, Exit(k, cpu), wait, inside);
    }
  }

  /** Taking away a record and its queue leaves `wait` alone exactly when it was neither. */
  lemma ReapDisturbs(k: K, t: Tid, wait: Wid, inside: set<Tid>)
    requires Inside(k, wait, inside) && t in k.threads
    ensures Undisturbed(k, Reap(k, t), wait, inside) <==> Retcode(t) != wait && t !in inside
  {
    if Retcode(t) != wait && t !in inside { SameIsUndisturbed(k, Reap(k, t), wait, inside); }
  }

  lemma UndisturbedTwice(k: K, k1: K, k2: K, wait: Wid, inside: set<Tid>)
    requires Inside(k, wait, inside) && Undisturbed(k, k1, wait, inside)
    ensures Undisturbed(k1, k2, wait, inside) <==> Undisturbed(k, k2, wait, inside)
  {
  }

  lemma DetachDisturbs(k: K, t: Tid, wait: Wid, inside: set<Tid>)
    requires Inv(k) && Inside(k, wait, inside) && Enabled(k, OpDetach(t))
    ensures Defined(k, OpDetach(t))
    ensures Undisturbed(k, Detach(k, t), wait, inside) <==> !Disturbs(k, OpDetach(t), wait, inside)
  {
    WaitersAre(k, Retcode(t), {});
    assert WaitOk(k, Retcode(t), {});
    var k1 := PopAll(k, Retcode(t), ErrThreadDetached);
    PopAllFrees(k, Retcode(t), ErrThreadDetached);
    FreesAllDisturbs(k, Retcode(t), ErrThreadDetached, k1, wait, inside);
    if k.threads[t].state == Death {
      DetachReaps(k, k1, t, wait, inside);
    } else {
      DetachMarks(k, k1, t, wait, inside);
    }
  }

  lemma DetachReaps(k: K, k1: K, t: Tid, wait: Wid, inside: set<Tid>)
    requires Inside(k, wait, inside) && t in k.threads && t in k1.threads
    requires Undisturbed(k, k1, wait, inside) <==> !(Retcode(t) == wait && Awaited(k, wait))
    ensures Undisturbed(k, Reap(k1, t), wait, inside) <==> Retcode(t) != wait && t !in inside
  {
    if Retcode(t) != wait {
      UndisturbedTwice(k, k1, Reap(k1, t), wait, inside);
      ReapDisturbs(k1, t, wait, inside);
    }
  }

  lemma DetachMarks(k: K, k1: K, t: Tid, wait: Wid, inside: set<Tid>)
    requires Inside(k, wait, inside) && t in k1.threads && inside <= k1.threads.Keys && wait in k1.waits
    ensures Undisturbed(k, SetThread(k1, t, k1.threads[t].(detached := true)), wait, inside) <==> Undisturbed(k, k1, wait, inside)
  {
    var k2 := SetThread(k1, t, k1.threads[t].(detached := true));
    assert Pending(k2, inside) == Pending(k1, inside);
  }

  // ---------------------------------------------------------------- thread_reset

  /** A thread inside that is reset forgets how its wait ended: it will be told that it succeeded. */
  lemma ResetPending(k: K, t: Tid, inside: set<Tid>)
    requires Unqueue.requires(k, t) && inside <= k.threads.Keys && t in inside && k.threads[t].state != Blocked
    ensures inside <= Unqueue(k, t).threads.Keys
    ensures Pending(Unqueue(k, t), inside) == Pending(k, inside)[t := NoError]
  {
  }

  lemma ResetDisturbs(k: K, t: Tid, wait: Wid, inside: set<Tid>)
    requires Inv(k) && Inside(k, wait, inside) && Enabled(k, OpUnqueue(t))
    ensures Defined(k, OpUnqueue(t))
    ensures Undisturbed(k, Unqueue(k, t), wait, inside) <==> t !in inside || k.threads[t].blockRet == NoError
  {
    UnqueueKeepsIff(k, t);
    assert WaitOk(k, wait, {});
    ResetChanges(k, t, wait, inside);
  }

  lemma ResetChanges(k: K, t: Tid, wait: Wid, inside: set<Tid>)
    requires Unqueue.requires(k, t) && Inside(k, wait, inside) && k.threads[t].state == Ready
    requires k.waits[wait].count == |k.waits[wait].list| && NoJoiner(k, t)
    ensures Undisturbed(k, Unqueue(k, t), wait, inside) <==> t !in inside || k.threads[t].blockRet == NoError
  {
    var k' := Unqueue(k, t);
    assert k'.waits[wait] == k.waits[wait];
    if t !in inside || k.threads[t].blockRet == NoError {
      SameIsUndisturbed(k, k', wait, inside);
    } else {
      ResetPending(k, t, inside);
      assert Pending(k, inside)[t] != Pending(k', inside)[t];
    }
  }

  // ------------------------------------------------------------------- every step

  lemma WaitStep(k: K, op: Op, wait: Wid, inside: set<Tid>)
    requires Inv(k) && Enabled(k, op) && Inside(k, wait, inside)
    requires op.OpBlock? || op.OpWakeOne? || op.OpWakeAll? || op.OpTimeout?
    ensures Defined(k, op)
    ensures Undisturbed(k, After(k, op), wait, inside) <==> !Disturbs(k, op, wait, inside)
  {
    match op
    case OpBlock(cpu, w, z) =>
      CurrentIs(k, cpu, {});
      if !z {
        BlockMoves(k, cpu, w);
        BlocksDisturbs(k, w, k.current[cpu], Block(k, cpu, w, false), wait, inside);
      }
    case OpWakeOne(cpu, w, r, e) => WakeOneDisturbs(k, cpu, w, r, e, wait, inside);
    case OpWakeAll(cpu, w, r, e) =>
      WakeAllMoves(k, cpu, w, r, e);
      FreesAllDisturbs(k, w, e, WakeAll(k, cpu, w, r, e), wait, inside);
    case OpTimeout(t) => TimeoutDisturbs(k, t, wait, inside);
  }

  lemma RecordStep(k: K, op: Op, wait: Wid, inside: set<Tid>)
    requires Inv(k) && Enabled(k, op) && Inside(k, wait, inside)
    requires op.OpCreate? || op.OpExit? || op.OpDetach? || op.OpUnqueue? || op.OpReap? || op.OpInitQueue?
    ensures Defined(k, op)
    ensures Undisturbed(k, After(k, op), wait, inside) <==> !Disturbs(k, op, wait, inside)
  {
    match op
    case OpCreate(t, prio, pinned) => SameIsUndisturbed(k, Create(k, t, prio, pinned), wait, inside);
    case OpExit(cpu) => ExitDisturbs(k, cpu, wait, inside);
    case OpDetach(t) => DetachDisturbs(k, t, wait, inside);
    case OpUnqueue(t) => ResetDisturbs(k, t, wait, inside);
    case OpReap(t) => ReapDisturbs(k, t, wait, inside);
    case OpInitQueue(id) => SameIsUndisturbed(k, InitQueue(k, Object(id)), wait, inside);
  }

  /** Of all operations on threads, exactly these change the queue or a result pending on it. */
  lemma StepUndisturbedIff(k: K, op: Op, wait: Wid, inside: set<Tid>)
    requires Inv(k) && Enabled(k, op) && Inside(k, wait, inside)
    ensures Defined(k, op)
    ensures Undisturbed(k, After(k, op), wait, inside) <==> !Disturbs(k, op, wait, inside)
  {
    if OnlySchedules(op) {
      SchedulingQuiet(k, op);
      QuietIsUndisturbed(k, After(k, op), wait, inside);
    } else if op.OpBlock? || op.OpWakeOne? || op.OpWakeAll? || op.OpTimeout? {
      WaitStep(k, op, wait, inside);
    } else {
      RecordStep(k, op, wait, inside);
    }
  }
}
