/** Every operation of kernel/thread.c keeps the scheduler invariant. */
module SchedInv {
  import opened Wrappers
  import opened SchedSpec

  /** What the invariant says of the thread a CPU runs. */
  lemma CurrentIs(k: K, cpu: nat, l: set<Tid>)
    requires InvBut(k, l, {}) && cpu < |k.current|
    ensures Basic(k, cpu)
    ensures var t := k.current[cpu];
            && t !in l && k.threads[t].state == Running && k.threads[t].prio < NUM_PRIORITIES
            && k.threads[t].blockedOn.None? && k.threads[t].currCpu == cpu
  {
    assert InPlace(k, k.current[cpu]);
  }

  lemma WaiterIs(k: K, w: Wid, l: set<Tid>, v: set<nat>, i: nat)
    requires InvBut(k, l, v) && w in k.waits && i < |k.waits[w].list|
    ensures var t := k.waits[w].list[i];
            && t in k.threads && t !in l && k.threads[t].state == Blocked && !k.threads[t].idle
            && k.threads[t].prio < NUM_PRIORITIES
  {
    assert WaitOk(k, w, l) && InPlace(k, k.waits[w].list[i]);
  }

  lemma WaitersAre(k: K, w: Wid, v: set<nat>)
    requires InvBut(k, {}, v) && w in k.waits
    ensures WaitersOk(k, w)
  {
    forall i | 0 <= i < |k.waits[w].list|
      ensures k.waits[w].list[i] in k.threads && k.threads[k.waits[w].list[i]].prio < NUM_PRIORITIES
    {
      WaiterIs(k, w, {}, v, i);
    }
  }

  /** The CPU runs a thread other than its idle thread. */
  ghost predicate Busy(k: K, cpu: nat) {
    cpu < |k.current| && k.current[cpu] in k.threads && !k.threads[k.current[cpu]].idle
  }

  lemma YieldKeeps(k: K, cpu: nat)
    requires Inv(k) && cpu < |k.current|
    ensures Basic(k, cpu) && Inv(Yield(k, cpu))
  {
    CurrentIs(k, cpu, {});
    var t := k.current[cpu];
    var th := k.threads[t].(state := Ready, quantum := 0);
    LeaveCpu(k, cpu, th, {});
    var k1 := SetThread(k, t, th);
    if th.idle {
      ReschedRestores(k1, cpu);
    } else {
      InsertSettles(k1, t, {} + {t}, {cpu}, false);
      assert {} + {t} - {t} == {};
      ReschedRestores(InsertTail(k1, t), cpu);
    }
  }

  lemma PreemptKeeps(k: K, cpu: nat)
    requires Inv(k) && cpu < |k.current|
    ensures Basic(k, cpu) && Inv(Preempt(k, cpu))
  {
    CurrentIs(k, cpu, {});
    var t := k.current[cpu];
    var th := k.threads[t].(state := Ready);
    LeaveCpu(k, cpu, th, {});
    var k1 := SetThread(k, t, th);
    if th.idle {
      ReschedRestores(k1, cpu);
    } else {
      InsertSettles(k1, t, {} + {t}, {cpu}, th.quantum > 0);
      assert {} + {t} - {t} == {};
      ReschedRestores(if th.quantum > 0 then InsertHead(k1, t) else InsertTail(k1, t), cpu);
    }
  }

  lemma SetPriorityKeeps(k: K, cpu: nat, prio: int)
    requires Inv(k) && cpu < |k.current| && !k.threads[k.current[cpu]].idle
    ensures Basic(k, cpu) && Inv(SetPriority(k, cpu, prio))
  {
    CurrentIs(k, cpu, {});
    var t := k.current[cpu];
    var th := k.threads[t].(prio := Clamp(prio), state := Ready);
    LeaveCpu(k, cpu, th, {});
    InsertSettles(SetThread(k, t, th), t, {} + {t}, {cpu}, true);
    assert {} + {t} - {t} == {};
    ReschedRestores(InsertHead(SetThread(k, t, th), t), cpu);
  }

  /** A thread that is suspended, asleep or dead can be pulled into limbo. */
  lemma PullOut(k: K, t: Tid, v: set<nat>)
    requires InvBut(k, {}, v) && t in k.threads && OffQueues(k.threads[t].state)
    ensures !k.threads[t].idle && k.threads[t].prio < NUM_PRIORITIES && InvBut(k, {t}, v)
  {
    assert InPlace(k, t);
    forall p: nat | p < NUM_PRIORITIES ensures QueueOk(k, p, {t}) { assert QueueOk(k, p, {}); }
    forall w | w in k.waits ensures WaitOk(k, w, {t}) { assert WaitOk(k, w, {}); }
  }

  lemma ReadyKeeps(k: K, t: Tid)
    requires Inv(k) && t in k.threads && OffQueues(k.threads[t].state)
    ensures k.threads[t].prio < |k.rq| && Inv(SleepDone(k, t))
  {
    assert InPlace(k, t);
    PullOut(k, t, {});
    var th := k.threads[t].(state := Ready);
    LimboUpdate(k, t, th, {t}, {});
    InsertSettles(SetThread(k, t, th), t, {t}, {}, true);
    assert {t} - {t} == {};
  }

  lemma ResumeKeeps(k: K, cpu: nat, t: Tid, intsOff: bool)
    requires Inv(k) && cpu < |k.current| && t in k.threads
    ensures Basic(k, cpu) && k.threads[t].prio < NUM_PRIORITIES
    ensures Inv(Resume(k, cpu, t, intsOff))
  {
    CurrentIs(k, cpu, {});
    assert InPlace(k, t);
    if k.threads[t].state == Suspended {
      ReadyKeeps(k, t);
      if !intsOff { YieldKeeps(SleepDone(k, t), cpu); }
    }
  }

  lemma SleepKeeps(k: K, cpu: nat)
    requires Inv(k) && cpu < |k.current| && !k.threads[k.current[cpu]].idle
    ensures Basic(k, cpu) && Inv(Sleep(k, cpu))
  {
    CurrentIs(k, cpu, {});
    var t := k.current[cpu];
    var th := k.threads[t].(state := Sleeping);
    LeaveCpu(k, cpu, th, {});
    Settle(SetThread(k, t, th), t, {} + {t}, {cpu});
    assert {} + {t} - {t} == {};
    ReschedRestores(SetThread(k, t, th), cpu);
  }

  lemma BlockKeeps(k: K, cpu: nat, w: Wid, timeoutZero: bool)
    requires Inv(k) && cpu < |k.current| && w in k.waits && !k.threads[k.current[cpu]].idle
    ensures Basic(k, cpu) && Inv(Block(k, cpu, w, timeoutZero))
  {
    CurrentIs(k, cpu, {});
    if !timeoutZero {
      var t := k.current[cpu];
      var th := k.threads[t].(state := Blocked, blockedOn := Some(w), blockRet := NoError);
      LeaveCpu(k, cpu, th, {});
      AddWaiterSettles(SetThread(k, t, th), w, t, {} + {t}, {cpu});
      assert {} + {t} - {t} == {};
      ReschedRestores(AddWaiter(SetThread(k, t, th), w, t), cpu);
    }
  }

  lemma PopWaiterLimbo(k: K, w: Wid, i: nat, err: Status, v: set<nat>)
    requires InvBut(k, {}, v) && w in k.waits && i < |k.waits[w].list|
    ensures var t := k.waits[w].list[i];
            && t in k.threads && InvBut(PopWaiter(k, w, i, err), {t}, v)
            && PopWaiter(k, w, i, err).threads[t] == Woken(k.threads[t], err)
            && !k.threads[t].idle && k.threads[t].prio < NUM_PRIORITIES
  {
    WaiterIs(k, w, {}, v, i);
    var t := k.waits[w].list[i];
    TakeWaiterLimbo(k, w, i, {}, v);
    assert {} + {t} == {t};
    LimboUpdate(TakeWaiter(k, w, i), t, Woken(k.threads[t], err), {t}, v);
  }

  lemma PopAndQueue(k: K, w: Wid, i: nat, err: Status, v: set<nat>)
    requires InvBut(k, {}, v) && w in k.waits && i < |k.waits[w].list|
    ensures var t := k.waits[w].list[i];
            && t in k.threads && k.threads[t].prio < NUM_PRIORITIES
            && InvBut(InsertHead(PopWaiter(k, w, i, err), t), {}, v)
  {
    PopWaiterLimbo(k, w, i, err, v);
    var t := k.waits[w].list[i];
    InsertSettles(PopWaiter(k, w, i, err), t, {t}, v, true);
    assert {t} - {t} == {};
  }

  lemma WakeOneKeeps(k: K, cpu: nat, w: Wid, resched: bool, err: Status)
    requires Inv(k) && cpu < |k.current| && w in k.waits && (resched ==> !k.threads[k.current[cpu]].idle)
    ensures Basic(k, cpu) && WaitersOk(k, w) && Inv(WakeOne(k, cpu, w, resched, err))
  {
    CurrentIs(k, cpu, {});
    WaitersAre(k, w, {});
    if k.waits[w].list != [] {
      PopAndQueue(k, w, 0, err, {});
      if resched { WakeOneSwitch(k, cpu, w, err); }
    }
  }

  lemma WakeOneSwitch(k: K, cpu: nat, w: Wid, err: Status)
    requires Inv(k) && cpu < |k.current| && w in k.waits && !k.threads[k.current[cpu]].idle && k.waits[w].list != []
    requires Basic(k, cpu) && WaitersOk(k, w)
    ensures Inv(WakeOne(k, cpu, w, true, err))
  {
    WakeOneQueues(k, cpu, w, err);
    ReschedRestores(WakeOneQueued(k, cpu, w, err), cpu);
  }

  lemma WakeOneQueues(k: K, cpu: nat, w: Wid, err: Status)
    requires Inv(k) && cpu < |k.current| && w in k.waits && !k.threads[k.current[cpu]].idle && k.waits[w].list != []
    requires Basic(k, cpu) && WaitersOk(k, w)
    ensures InvBut(WakeOneQueued(k, cpu, w, err), {}, {cpu})
  {
    var t, o := k.waits[w].list[0], k.current[cpu];
    PopWaiterLimbo(k, w, 0, err, {});
    CurrentIs(k, cpu, {});
    var k1 := PopWaiter(k, w, 0, err);
    CurrentIs(k1, cpu, {t});
    var th := k1.threads[o].(state := Ready);
    LeaveCpu(k1, cpu, th, {t});
    var k2 := SetThread(k1, o, th);
    InsertSettles(k2, o, {t} + {o}, {cpu}, true);
    assert {t} + {o} - {o} == {t};
    InsertSettles(InsertHead(k2, o), t, {t}, {cpu}, true);
    assert {t} - {t} == {};
  }

  /** The loop of wait_queue_wake_all empties the queue and keeps the invariant. */
  lemma {:induction false} PopAllKeeps(k: K, w: Wid, err: Status, v: set<nat>)
    requires InvBut(k, {}, v) && w in k.waits
    ensures WaitersOk(k, w) && InvBut(PopAll(k, w, err), {}, v)
    ensures w in PopAll(k, w, err).waits && PopAll(k, w, err).waits[w] == WaitQueue([], 0)
    decreases |k.waits[w].list|
  {
    WaitersAre(k, w, v);
    if k.waits[w].list == [] {
      assert WaitOk(k, w, {});
    } else {
      PopAndQueue(k, w, 0, err, v);
      var k' := InsertHead(PopWaiter(k, w, 0, err), k.waits[w].list[0]);
      PopAllKeeps(k', w, err, v);
    }
  }

  lemma WakeAllKeeps(k: K, cpu: nat, w: Wid, resched: bool, err: Status)
    requires Inv(k) && cpu < |k.current| && w in k.waits && (resched ==> !k.threads[k.current[cpu]].idle)
    ensures Basic(k, cpu) && WaitersOk(k, w) && Inv(WakeAll(k, cpu, w, resched, err))
  {
    CurrentIs(k, cpu, {});
    WaitersAre(k, w, {});
    assert WaitOk(k, w, {});
    if resched && k.waits[w].count > 0 {
      var o := k.current[cpu];
      var th := k.threads[o].(state := Ready);
      LeaveCpu(k, cpu, th, {});
      var k1 := SetThread(k, o, th);
      InsertSettles(k1, o, {} + {o}, {cpu}, true);
      assert {} + {o} - {o} == {};
      var k2 := InsertHead(k1, o);
      PopAllKeeps(k2, w, err, {cpu});
      ReschedRestores(PopAll(k2, w, err), cpu);
    } else {
      PopAllKeeps(k, w, err, {});
    }
  }

  lemma UnblockKeeps(k: K, t: Tid, err: Status)
    requires Inv(k) && t in k.threads
    ensures Unblock.requires(k, t, err) && Inv(Unblock(k, t, err))
  {
    assert InPlace(k, t);
    if k.threads[t].state == Blocked {
      var w := k.threads[t].blockedOn.value;
      PopAndQueue(k, w, IndexOf(k.waits[w].list, t), err, {});
    }
  }

  lemma ExitKeeps(k: K, cpu: nat)
    requires Inv(k) && cpu < |k.current| && !k.threads[k.current[cpu]].idle && Retcode(k.current[cpu]) in k.waits
    ensures Basic(k, cpu) && WaitersOk(k, Retcode(k.current[cpu])) && Inv(Exit(k, cpu))
  {
    CurrentIs(k, cpu, {});
    var t := k.current[cpu];
    WaitersAre(k, Retcode(t), {});
    var th := k.threads[t].(state := Death);
    LeaveCpu(k, cpu, th, {});
    var k1 := SetThread(k, t, th);
    Settle(k1, t, {} + {t}, {cpu});
    assert {} + {t} - {t} == {};
    if th.detached {
      ReschedRestores(k1, cpu);
    } else {
      PopAllKeeps(k1, Retcode(t), NoError, {cpu});
      ReschedRestores(PopAll(k1, Retcode(t), NoError), cpu);
    }
  }

  /** The states differ only in fields the invariant does not speak about. */
  ghost predicate Alike(k: K, k': K) {
    && k' == k.(threads := k'.threads) && k'.threads.Keys == k.threads.Keys
    && forall u | u in k.threads ::
         var th := k'.threads[u];
         th == k.threads[u].(quantum := th.quantum, detached := th.detached, realTime := th.realTime)
  }

  lemma AlikeKeeps(k: K, k': K)
    requires Inv(k) && Alike(k, k')
    ensures Inv(k')
  {
    forall p: nat | p < NUM_PRIORITIES ensures QueueOk(k', p, {}) { assert QueueOk(k, p, {}); }
    forall w | w in k'.waits ensures WaitOk(k', w, {}) { assert WaitOk(k, w, {}); }
    forall u | u in k'.threads ensures InPlace(k', u) { assert InPlace(k, u); }
  }

  lemma TickIsAlike(k: K, cpu: nat)
    requires Basic(k, cpu)
    ensures Alike(k, Tick(k, cpu))
  {
  }

  lemma TickKeeps(k: K, cpu: nat)
    requires Inv(k) && cpu < |k.current|
    ensures Basic(k, cpu) && Inv(Tick(k, cpu))
  {
    CurrentIs(k, cpu, {});
    TickIsAlike(k, cpu);
    AlikeKeeps(k, Tick(k, cpu));
  }

  lemma DetachKeeps(k: K, t: Tid)
    requires Inv(k) && t in k.threads && Retcode(t) in k.waits
    ensures WaitersOk(k, Retcode(t)) && Inv(Detach(k, t))
  {
    WaitersAre(k, Retcode(t), {});
    PopAllKeeps(k, Retcode(t), ErrThreadDetached, {});
    if k.threads[t].state == Death {
      DeadNotWaiting(k, Retcode(t), t);
      PopAllSkips(k, Retcode(t), ErrThreadDetached, t);
      ReapKeeps(PopAll(k, Retcode(t), ErrThreadDetached), t);
    } else {
      DetachIsAlike(k, t);
      AlikeKeeps(PopAll(k, Retcode(t), ErrThreadDetached), Detach(k, t));
    }
  }

  lemma DeadNotWaiting(k: K, w: Wid, t: Tid)
    requires Inv(k) && w in k.waits && t in k.threads && k.threads[t].state == Death
    ensures t !in k.waits[w].list
  {
    assert WaitOk(k, w, {});
  }

  /** Waking the others leaves a thread alone that is not on the queue. */
  lemma {:induction false} PopAllSkips(k: K, w: Wid, err: Status, t: Tid)
    requires WaitersOk(k, w) && t in k.threads && t !in k.waits[w].list
    ensures PopAll(k, w, err).threads[t] == k.threads[t]
    decreases |k.waits[w].list|
  {
    if k.waits[w].list != [] {
      var k1 := InsertHead(PopWaiter(k, w, 0, err), k.waits[w].list[0]);
      assert k1.waits[w].list == k.waits[w].list[1..];
      PopAllSkips(k1, w, err, t);
    }
  }

  lemma DetachIsAlike(k: K, t: Tid)
    requires t in k.threads && WaitersOk(k, Retcode(t)) && k.threads[t].state != Death
    ensures Alike(PopAll(k, Retcode(t), ErrThreadDetached), Detach(k, t))
  {
    SetAlike(PopAll(k, Retcode(t), ErrThreadDetached), t);
  }

  lemma SetAlike(k: K, t: Tid)
    requires t in k.threads
    ensures Alike(k, SetThread(k, t, k.threads[t].(detached := true)))
  {
  }

  lemma CreateKeeps(k: K, t: Tid, prio: nat, pinned: int)
    requires Inv(k) && t !in k.threads && Retcode(t) !in k.waits && prio < NUM_PRIORITIES
    ensures Inv(Create(k, t, prio, pinned))
  {
    var k' := Create(k, t, prio, pinned);
    forall p: nat | p < NUM_PRIORITIES ensures QueueOk(k', p, {}) { assert QueueOk(k, p, {}); }
    forall w | w in k'.waits ensures WaitOk(k', w, {}) { if w != Retcode(t) { assert WaitOk(k, w, {}); } }
    forall u | u in k'.threads ensures InPlace(k', u) {
      if u != t { assert InPlace(k, u); }
    }
  }

  lemma InitQueueKeeps(k: K, w: Wid)
    requires Inv(k) && (w in k.waits ==> k.waits[w].list == [])
    ensures Inv(InitQueue(k, w))
  {
    var k' := InitQueue(k, w);
    forall p: nat | p < NUM_PRIORITIES ensures QueueOk(k', p, {}) { assert QueueOk(k, p, {}); }
    forall x | x in k'.waits ensures WaitOk(k', x, {}) { if x != w { assert WaitOk(k, x, {}); } }
    forall u | u in k'.threads ensures InPlace(k', u) { assert InPlace(k, u); }
  }

  /** A queued thread taken off its queue and suspended leaves the invariant intact. */
  lemma RemoveKeeps(k: K, t: Tid)
    requires Inv(k) && t in k.threads && k.threads[t].state == Ready && !k.threads[t].idle
    ensures Unqueue.requires(k, t)
    ensures var p := k.threads[t].prio;
            var th := k.threads[t].(state := Suspended, blockedOn := None, blockRet := NoError);
            Inv(SetThread(TakeQueued(k, p, IndexOf(k.rq[p], t), false), t, th))
  {
    assert InPlace(k, t);
    var p := k.threads[t].prio;
    var i := IndexOf(k.rq[p], t);
    TakeQueuedLimbo(k, p, i, false, {}, {});
    assert {} + {t} == {t};
    var k1, th := TakeQueued(k, p, i, false), k.threads[t].(state := Suspended, blockedOn := None, blockRet := NoError);
    LimboUpdate(k1, t, th, {t}, {});
    Settle(SetThread(k1, t, th), t, {t}, {});
    assert {t} - {t} == {};
  }

  /** Nobody waits for the thread to end. */
  ghost predicate NoJoiner(k: K, t: Tid) { Retcode(t) in k.waits ==> k.waits[Retcode(t)].list == [] }

  /** Resetting a queued thread keeps the invariant exactly when nobody waits to join it: a joiner
      would stay blocked on a queue that has forgotten it. */
  lemma UnqueueKeepsIff(k: K, t: Tid)
    requires Inv(k) && t in k.threads && k.threads[t].state == Ready && !k.threads[t].idle
    ensures Unqueue.requires(k, t)
    ensures Inv(Unqueue(k, t)) <==> NoJoiner(k, t)
  {
    RemoveKeeps(k, t);
    var p := k.threads[t].prio;
    var th := k.threads[t].(state := Suspended, blockedOn := None, blockRet := NoError);
    if NoJoiner(k, t) {
      InitQueueKeeps(SetThread(TakeQueued(k, p, IndexOf(k.rq[p], t), false), t, th), Retcode(t));
    } else {
      JoinerStranded(k, t);
    }
  }

  lemma JoinerStranded(k: K, t: Tid)
    requires Inv(k) && t in k.threads && k.threads[t].state == Ready && Unqueue.requires(k, t) && !NoJoiner(k, t)
    ensures !Inv(Unqueue(k, t))
  {
    var j, k' := k.waits[Retcode(t)].list[0], Unqueue(k, t);
    assert WaitOk(k, Retcode(t), {});
    assert j != t && k'.threads[j] == k.threads[j] && !InPlace(k', j);
  }

  /** Such a state exists: thread 1 is ready and thread 2 waits to join it, CPU 0 being idle. */
  lemma JoinerExample()
    ensures exists k: K :: Inv(k) && 1 in k.threads && k.threads[1].state == Ready && !k.threads[1].idle && !NoJoiner(k, 1)
  {
    var idle := Thread(Running, IDLE_PRIORITY, true, 0, 0, None, NoError, 0, true, false);
    var one := Thread(Ready, 16, false, -1, -1, None, NoError, 0, false, false);
    var two := Thread(Blocked, 16, false, -1, -1, Some(Retcode(1)), NoError, 0, false, false);
    var rq: seq<seq<Tid>> := seq(NUM_PRIORITIES, p => if p == 16 then [1] else []);
    var k := K(map[0 := idle, 1 := one, 2 := two], rq, {16}, map[Retcode(1) := WaitQueue([2], 1)], [0], [0]);
    assert rq[16][0] == 1 && k.waits[Retcode(1)].list[0] == 2 && k.idle[0] == 0;
    forall p: nat | p < NUM_PRIORITIES ensures QueueOk(k, p, {}) { assert rq[p] == if p == 16 then [1] else []; }
    assert InPlace(k, 0) && InPlace(k, 1) && InPlace(k, 2);
    assert Inv(k);
  }

  /** A dead thread nobody waits for can go. */
  lemma ReapKeeps(k: K, t: Tid)
    requires Inv(k) && t in k.threads && k.threads[t].state == Death && NoJoiner(k, t)
    ensures Inv(Reap(k, t))
  {
    var k' := Reap(k, t);
    assert InPlace(k, t);
    forall p: nat | p < NUM_PRIORITIES ensures QueueOk(k', p, {}) { assert QueueOk(k, p, {}); }
    forall w | w in k'.waits ensures WaitOk(k', w, {}) { assert WaitOk(k, w, {}); }
    forall u | u in k'.threads ensures InPlace(k', u) { assert InPlace(k, u); }
  }

  /** What the invariant promises: no thread runs on two CPUs. */
  lemma OneCpuEach(k: K, c: nat, d: nat)
    requires Inv(k) && c < |k.current| && d < |k.current| && k.current[c] == k.current[d]
    ensures c == d
  {
    CurrentIs(k, c, {});
    CurrentIs(k, d, {});
  }

  /** No thread is on two queues, or twice on one. */
  lemma OneQueueEach(k: K, t: Tid, p: nat, q: nat, w: Wid, x: Wid)
    requires Inv(k) && p < NUM_PRIORITIES && q < NUM_PRIORITIES && w in k.waits && x in k.waits
    ensures t in k.rq[p] && t in k.rq[q] ==> p == q
    ensures t in k.waits[w].list && t in k.waits[x].list ==> w == x
    ensures !(t in k.rq[p] && t in k.waits[w].list)
  {
    assert QueueOk(k, p, {}) && QueueOk(k, q, {}) && WaitOk(k, w, {}) && WaitOk(k, x, {});
  }
}
