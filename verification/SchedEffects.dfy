/** What each operation of kernel/thread.c does to every thread and every queue, and who runs after it. */
module SchedEffects {
  import opened Wrappers
  import opened SchedSpec
  import opened SchedInv
  import opened SchedIdle

  // ------------------------------------------------------------ what a switch is

  /** Of the threads on these queues the i-th at priority `p` comes first for the CPU. */
  ghost predicate First(k: K, rq: seq<seq<Tid>>, cpu: nat, p: nat, i: nat) {
    && p < |rq| && i < |rq[p]| && Eligible(k, rq[p][i], cpu)
    && (forall j | 0 <= j < i :: !Eligible(k, rq[p][j], cpu))
    && (forall q, j | p < q < |rq| && 0 <= j < |rq[q]| :: !Eligible(k, rq[q][j], cpu))
  }

  /** With these queues, the CPU takes the first of the highest that may run on it, its idle thread if
      there is none, and leaves the others in their places. */
  ghost predicate Takes(k: K, rq: seq<seq<Tid>>, cpu: nat, k': K) {
    && cpu < |k.current| == |k'.current| && cpu < |k.idle| && k'.idle == k.idle
    && k'.current == k.current[cpu := k'.current[cpu]]
    && ((exists p: nat, i: nat :: First(k, rq, cpu, p, i) && k'.current[cpu] == rq[p][i] && k'.rq == rq[p := RemoveAt(rq[p], i)])
        || ((forall p, i | 0 <= p < |rq| && 0 <= i < |rq[p]| :: !Eligible(k, rq[p][i], cpu))
            && k'.current[cpu] == k.idle[cpu] && k'.rq == rq))
  }

  /** The record of thread `t` after the CPU went from `o` to `c`: who comes is given a quantum of 5 if it
      has none left, who goes belongs to no CPU. */
  function Switched(th: Thread, t: Tid, o: Tid, c: Tid, cpu: nat): Thread {
    if t == c then
      if c == o then th.(state := Running)
      else th.(state := Running, currCpu := cpu, quantum := if th.quantum <= 0 then 5 else th.quantum)
    else if t == o then th.(currCpu := -1)
    else th
  }

  /** From threads `ths`, queues `rq` and wait queues `waits`, the CPU switches, and nothing else happens. */
  ghost predicate Switches(k: K, ths: map<Tid, Thread>, rq: seq<seq<Tid>>, waits: map<Wid, WaitQueue>, cpu: nat, k': K) {
    && Takes(k, rq, cpu, k') && k'.waits == waits && k'.threads.Keys == ths.Keys
    && forall t | t in ths :: k'.threads[t] == Switched(ths[t], t, k.current[cpu], k'.current[cpu], cpu)
  }

  lemma ReschedTakes(k: K, cpu: nat)
    requires Basic(k, cpu)
    ensures Takes(k, k.rq, cpu, Resched(k, cpu))
  {
    PickIsBest(k, cpu, NUM_PRIORITIES);
    match PickFrom(k, cpu, NUM_PRIORITIES)
    case None =>
    case Some((p, i)) => assert First(k, k.rq, cpu, p, i);
  }

  lemma ReschedSwitches(k: K, cpu: nat)
    requires Basic(k, cpu)
    ensures Switches(k, k.threads, k.rq, k.waits, cpu, Resched(k, cpu))
  {
    ReschedTakes(k, cpu);
    PickIsBest(k, cpu, NUM_PRIORITIES);
    var (c, k1) := Top(k, cpu);
    DispatchSwitches(k1, cpu, c);
  }

  lemma DispatchSwitches(k: K, cpu: nat, c: Tid)
    requires cpu < |k.current| && c in k.threads && k.current[cpu] in k.threads
    ensures var k' := Dispatch(k, cpu, c);
            && k'.waits == k.waits && k'.current[cpu] == c && k'.threads.Keys == k.threads.Keys
            && forall t | t in k.threads :: k'.threads[t] == Switched(k.threads[t], t, k.current[cpu], c, cpu)
  {
  }

  /** Who may run where is not changed on the way. */
  lemma SwitchesFrom(k: K, k1: K, ths: map<Tid, Thread>, rq: seq<seq<Tid>>, waits: map<Wid, WaitQueue>, cpu: nat, k': K)
    requires Switches(k1, ths, rq, waits, cpu, k') && SamePinning(k, k1) && k1.current == k.current && k1.idle == k.idle
    ensures Switches(k, ths, rq, waits, cpu, k')
  {
    forall t ensures Eligible(k1, t, cpu) == Eligible(k, t, cpu) {}
    if exists p: nat, i: nat :: First(k1, rq, cpu, p, i) && k'.current[cpu] == rq[p][i] && k'.rq == rq[p := RemoveAt(rq[p], i)] {
      var p: nat, i: nat :| First(k1, rq, cpu, p, i) && k'.current[cpu] == rq[p][i] && k'.rq == rq[p := RemoveAt(rq[p], i)];
      assert First(k, rq, cpu, p, i);
    }
  }

  lemma ReschedFrom(k: K, k1: K, cpu: nat)
    requires Basic(k1, cpu) && SamePinning(k, k1) && k1.current == k.current && k1.idle == k.idle
    ensures Switches(k, k1.threads, k1.rq, k1.waits, cpu, Resched(k1, cpu))
  {
    ReschedSwitches(k1, cpu);
    SwitchesFrom(k, k1, k1.threads, k1.rq, k1.waits, cpu, Resched(k1, cpu));
  }

  // ------------------------------------------------------------- each operation

  /** Queue `p` with one thread more, behind the others or in front of them. */
  function Behind(rq: seq<seq<Tid>>, p: nat, t: Tid): seq<seq<Tid>>
    requires p < |rq|
  {
    rq[p := rq[p] + [t]]
  }

  function InFront(rq: seq<seq<Tid>>, p: nat, t: Tid): seq<seq<Tid>>
    requires p < |rq|
  {
    rq[p := [t] + rq[p]]
  }

  /** thread_yield: the caller goes behind its peers with no quantum left. */
  lemma YieldIs(k: K, cpu: nat)
    requires Basic(k, cpu)
    ensures var o, th := k.current[cpu], k.threads[k.current[cpu]];
            Switches(k, k.threads[o := th.(state := Ready, quantum := 0)], if th.idle then k.rq else Behind(k.rq, th.prio, o),
                     k.waits, cpu, Yield(k, cpu))
  {
    var o, th := k.current[cpu], k.threads[k.current[cpu]];
    var k1 := SetThread(k, o, th.(state := Ready, quantum := 0));
    var k2 := if th.idle then k1 else InsertTail(k1, o);
    ReschedFrom(k, k2, cpu);
  }

  /** thread_preempt: a thread with quantum left goes in front of its peers, one without behind them. */
  lemma PreemptIs(k: K, cpu: nat)
    requires Basic(k, cpu)
    ensures var o, th := k.current[cpu], k.threads[k.current[cpu]];
            Switches(k, k.threads[o := th.(state := Ready)],
                     if th.idle then k.rq else if th.quantum > 0 then InFront(k.rq, th.prio, o) else Behind(k.rq, th.prio, o),
                     k.waits, cpu, Preempt(k, cpu))
  {
    var o, th := k.current[cpu], k.threads[k.current[cpu]];
    var k1 := SetThread(k, o, th.(state := Ready));
    var k2 := if th.idle then k1 else if th.quantum > 0 then InsertHead(k1, o) else InsertTail(k1, o);
    ReschedFrom(k, k2, cpu);
  }

  /** thread_set_priority: in front of its new peers, between 1 and 31. */
  lemma SetPriorityIs(k: K, cpu: nat, prio: int)
    requires Basic(k, cpu)
    ensures 1 <= Clamp(prio) <= 31 && (1 <= prio <= 31 ==> Clamp(prio) == prio)
         && (prio < 1 ==> Clamp(prio) == 1) && (prio > 31 ==> Clamp(prio) == 31)
    ensures var o, th := k.current[cpu], k.threads[k.current[cpu]];
            Switches(k, k.threads[o := th.(prio := Clamp(prio), state := Ready)], InFront(k.rq, Clamp(prio), o),
                     k.waits, cpu, SetPriority(k, cpu, prio))
  {
    var k2 := PriorityQueued(k, cpu, prio);
    ReschedFrom(k, k2, cpu);
  }

  /** thread_sleep: the caller sleeps and is on no queue. */
  lemma SleepIs(k: K, cpu: nat)
    requires Basic(k, cpu)
    ensures var o := k.current[cpu];
            Switches(k, k.threads[o := k.threads[o].(state := Sleeping)], k.rq, k.waits, cpu, Sleep(k, cpu))
  {
    var k1 := SetThread(k, k.current[cpu], k.threads[k.current[cpu]].(state := Sleeping));
    ReschedFrom(k, k1, cpu);
  }

  /** The thread becomes ready in front of its peers; nobody else is touched and nobody switches. */
  ghost predicate Readied(k: K, t: Tid, th: Thread, waits: map<Wid, WaitQueue>, k': K)
    requires th.prio < |k.rq|
  {
    && k'.threads == k.threads[t := th.(state := Ready)] && k'.rq == InFront(k.rq, th.prio, t)
    && k'.waits == waits && k'.current == k.current && k'.idle == k.idle
  }

  /** thread_sleep_handler: a thread that sleeps is ready afterwards, in front of its peers. */
  lemma SleepDoneIs(k: K, t: Tid)
    requires t in k.threads && k.threads[t].prio < |k.rq|
    ensures Readied(k, t, k.threads[t], k.waits, SleepDone(k, t))
  {
  }

  /** thread_resume: so is a suspended thread, and then the caller yields to it unless interrupts are off. */
  lemma ResumeIs(k: K, cpu: nat, t: Tid, intsOff: bool)
    requires Basic(k, cpu) && t in k.threads && k.threads[t].prio < NUM_PRIORITIES
    ensures k.threads[t].state != Suspended ==> Resume(k, cpu, t, intsOff) == k
    ensures k.threads[t].state == Suspended ==>
              exists k1: K :: Readied(k, t, k.threads[t], k.waits, k1) && Basic(k1, cpu)
                && Resume(k, cpu, t, intsOff) == if intsOff then k1 else Yield(k1, cpu)
  {
    var k1 := InsertHead(SetThread(k, t, k.threads[t].(state := Ready)), t);
    assert Readied(k, t, k.threads[t], k.waits, k1) && Basic(k1, cpu);
  }

  /** wait_queue_block: the caller is blocked on the queue, behind those who wait already. */
  lemma BlockIs(k: K, cpu: nat, w: Wid)
    requires Basic(k, cpu) && w in k.waits
    ensures Block(k, cpu, w, true) == k
    ensures var o, q := k.current[cpu], k.waits[w];
            Switches(k, k.threads[o := k.threads[o].(state := Blocked, blockedOn := Some(w), blockRet := NoError)], k.rq,
                     k.waits[w := WaitQueue(q.list + [o], q.count + 1)], cpu, Block(k, cpu, w, false))
  {
    var o := k.current[cpu];
    var th := k.threads[o].(state := Blocked, blockedOn := Some(w), blockRet := NoError);
    var k1 := AddWaiter(SetThread(k, o, th), w, o);
    ReschedFrom(k, k1, cpu);
  }

  /** wait_queue_wake_one: who waited longest is ready in front of its peers ... */
  lemma WakeOneIs(k: K, cpu: nat, w: Wid, err: Status)
    requires Basic(k, cpu) && WaitersOk(k, w) && k.waits[w].list != []
    ensures var q, t := k.waits[w], k.waits[w].list[0];
            Readied(k, t, Woken(k.threads[t], err), k.waits[w := WaitQueue(q.list[1..], q.count - 1)], WakeOne(k, cpu, w, false, err))
  {
    assert RemoveAt(k.waits[w].list, 0) == k.waits[w].list[1..];
  }

  /** ... and if the caller reschedules, the caller is in front of its own, but behind the woken one. */
  lemma WakeOneSwitches(k: K, cpu: nat, w: Wid, err: Status)
    requires Basic(k, cpu) && WaitersOk(k, w) && k.waits[w].list != [] && k.current[cpu] != k.waits[w].list[0]
    ensures var q, o, t := k.waits[w], k.current[cpu], k.waits[w].list[0];
            Switches(k, k.threads[t := Woken(k.threads[t], err)][o := k.threads[o].(state := Ready)],
                     InFront(InFront(k.rq, k.threads[o].prio, o), k.threads[t].prio, t),
                     k.waits[w := WaitQueue(q.list[1..], q.count - 1)], cpu, WakeOne(k, cpu, w, true, err))
  {
    WokenQueued(k, cpu, w, err);
    ReschedFrom(k, WakeOneQueued(k, cpu, w, err), cpu);
  }

  lemma WokenQueued(k: K, cpu: nat, w: Wid, err: Status)
    requires Basic(k, cpu) && WaitersOk(k, w) && k.waits[w].list != [] && k.current[cpu] != k.waits[w].list[0]
    ensures var q, o, t, k2 := k.waits[w], k.current[cpu], k.waits[w].list[0], WakeOneQueued(k, cpu, w, err);
            && k2.threads == k.threads[t := Woken(k.threads[t], err)][o := k.threads[o].(state := Ready)]
            && k2.rq == InFront(InFront(k.rq, k.threads[o].prio, o), k.threads[t].prio, t)
            && k2.waits == k.waits[w := WaitQueue(q.list[1..], q.count - 1)]
            && k2.current == k.current && k2.idle == k.idle && SamePinning(k, k2) && Basic(k2, cpu)
  {
    assert RemoveAt(k.waits[w].list, 0) == k.waits[w].list[1..];
  }

  /** Those of the list are woken, the others are as they were. */
  ghost function AllWoken(ths: map<Tid, Thread>, list: seq<Tid>, err: Status): map<Tid, Thread> {
    map t | t in ths :: if t in list then Woken(ths[t], err) else ths[t]
  }

  /** Each of the list is in front of its peers, who waited longest behind the others. */
  ghost function WithFronts(k: K, list: seq<Tid>, rq: seq<seq<Tid>>): seq<seq<Tid>>
    requires forall t | t in list :: t in k.threads
  {
    seq(|rq|, p requires 0 <= p < |rq| => Fronts(k, list, p) + rq[p])
  }

  lemma SameFronts(k: K, k1: K, list: seq<Tid>, rq: seq<seq<Tid>>)
    requires forall t | t in list :: t in k.threads && t in k1.threads && k1.threads[t].prio == k.threads[t].prio
    ensures WithFronts(k1, list, rq) == WithFronts(k, list, rq)
  {
    forall p: nat | p < |rq| ensures Fronts(k1, list, p) == Fronts(k, list, p) { FrontsSame(k, k1, list, p); }
  }

  /** The record of a thread that is not on the list does not matter to those that are. */
  lemma OneApart(ths: map<Tid, Thread>, list: seq<Tid>, err: Status, o: Tid, th: Thread)
    requires o in ths && o !in list
    ensures AllWoken(ths[o := th], list, err) == AllWoken(ths, list, err)[o := th]
  {
  }

  /** The loop of wait_queue_wake_all */
  lemma PopAllIs(k: K, w: Wid, err: Status)
    requires WaitersOk(k, w) && k.waits[w].count == |k.waits[w].list|
    ensures forall t | t in k.waits[w].list :: t in k.threads
    ensures var r := PopAll(k, w, err);
            && r.threads == AllWoken(k.threads, k.waits[w].list, err) && r.rq == WithFronts(k, k.waits[w].list, k.rq)
            && r.waits == k.waits[w := WaitQueue([], 0)] && r.current == k.current && r.idle == k.idle
  {
    WaitersKnown(k, w);
    PopAllThreads(k, w, err);
    forall p: nat | p < NUM_PRIORITIES
      ensures PopAll(k, w, err).rq[p] == Fronts(k, k.waits[w].list, p) + k.rq[p]
    {
      PopAllQueues(k, w, err, p);
    }
  }

  lemma {:induction false} PopAllThreads(k: K, w: Wid, err: Status)
    requires WaitersOk(k, w) && k.waits[w].count == |k.waits[w].list|
    ensures PopAll(k, w, err).threads == AllWoken(k.threads, k.waits[w].list, err)
    ensures PopAll(k, w, err).waits == k.waits[w := WaitQueue([], 0)]
    decreases |k.waits[w].list|
  {
    var list := k.waits[w].list;
    if list == [] {
      assert k.waits == k.waits[w := WaitQueue([], 0)];
    } else {
      var k1 := InsertHead(PopWaiter(k, w, 0, err), list[0]);
      PopOneIs(k, w, err, 0);
      PopOneRest(k, w, err);
      PopAllThreads(k1, w, err);
      AllWokenStep(k.threads, list, err);
    }
  }

  lemma PopOneRest(k: K, w: Wid, err: Status)
    requires WaitersOk(k, w) && k.waits[w].list != []
    ensures var list := k.waits[w].list; var k1 := InsertHead(PopWaiter(k, w, 0, err), list[0]);
            && k1.threads == k.threads[list[0] := Woken(k.threads[list[0]], err)]
            && k1.waits == k.waits[w := WaitQueue(list[1..], k.waits[w].count - 1)]
            && k1.waits[w := WaitQueue([], 0)] == k.waits[w := WaitQueue([], 0)]
  {
    assert RemoveAt(k.waits[w].list, 0) == k.waits[w].list[1..];
  }

  lemma AllWokenStep(ths: map<Tid, Thread>, list: seq<Tid>, err: Status)
    requires list != [] && list[0] in ths
    ensures AllWoken(ths[list[0] := Woken(ths[list[0]], err)], list[1..], err) == AllWoken(ths, list, err)
  {
    assert forall t :: t in list <==> t == list[0] || t in list[1..];
  }

  /** wait_queue_wake_all, without a reschedule */
  lemma WakeAllIs(k: K, cpu: nat, w: Wid, err: Status)
    requires Basic(k, cpu) && WaitersOk(k, w) && k.waits[w].count == |k.waits[w].list|
    ensures WakeAll(k, cpu, w, false, err) == PopAll(k, w, err)
    ensures k.waits[w].list == [] ==> WakeAll(k, cpu, w, true, err) == k
  {
  }

  /** With one, the caller is in front of its peers, but behind those woken. */
  lemma WakeAllSwitches(k: K, cpu: nat, w: Wid, err: Status)
    requires Basic(k, cpu) && WaitersOk(k, w) && k.waits[w].count == |k.waits[w].list| && k.waits[w].list != []
    requires k.current[cpu] !in k.waits[w].list
    ensures forall t | t in k.waits[w].list :: t in k.threads
    ensures var o, list := k.current[cpu], k.waits[w].list;
            Switches(k, AllWoken(k.threads, list, err)[o := k.threads[o].(state := Ready)],
                     WithFronts(k, list, InFront(k.rq, k.threads[o].prio, o)),
                     k.waits[w := WaitQueue([], 0)], cpu, WakeAll(k, cpu, w, true, err))
  {
    var o, list, k0 := k.current[cpu], k.waits[w].list, SteppedAside(k, cpu);
    assert WaitersOk(k0, w);
    PopAllIs(k0, w, err);
    WaitersKnown(k, w);
    SameFronts(k, k0, list, k0.rq);
    OneApart(k.threads, list, err, o, k.threads[o].(state := Ready));
    ReschedFrom(k, PopAll(k0, w, err), cpu);
  }

  /** thread_unblock_from_wait_queue: a blocked thread leaves its queue, the others there keep their order. */
  lemma UnblockIs(k: K, t: Tid, err: Status)
    requires Unblock.requires(k, t, err)
    ensures k.threads[t].state != Blocked ==> Unblock(k, t, err) == k
    ensures k.threads[t].state == Blocked ==>
              var w := k.threads[t].blockedOn.value; var q := k.waits[w];
              exists i: nat :: i < |q.list| && q.list[i] == t
                && Readied(k, t, Woken(k.threads[t], err), k.waits[w := WaitQueue(q.list[..i] + q.list[i + 1..], q.count - 1)],
                           Unblock(k, t, err))
  {
    if k.threads[t].state == Blocked {
      var i := IndexOf(k.waits[k.threads[t].blockedOn.value].list, t);
      assert k.waits[k.threads[t].blockedOn.value].list[i] == t;
    }
  }

  /** thread_exit: the caller is dead and on no queue; if it is not detached its joiners are woken with success. */
  lemma ExitIs(k: K, cpu: nat)
    requires Basic(k, cpu) && WaitersOk(k, Retcode(k.current[cpu]))
    requires var q := k.waits[Retcode(k.current[cpu])]; q.count == |q.list| && k.current[cpu] !in q.list
    ensures var o := k.current[cpu]; var w := Retcode(o); var list := k.waits[w].list; var th := k.threads[o].(state := Death);
            && (forall t | t in list :: t in k.threads)
            && if th.detached then Switches(k, k.threads[o := th], k.rq, k.waits, cpu, Exit(k, cpu))
               else Switches(k, AllWoken(k.threads, list, NoError)[o := th], WithFronts(k, list, k.rq),
                             k.waits[w := WaitQueue([], 0)], cpu, Exit(k, cpu))
  {
    var o := k.current[cpu];
    var w, th := Retcode(o), k.threads[o].(state := Death);
    var k1 := SetThread(k, o, th);
    assert WaitersOk(k1, w);
    if th.detached {
      ReschedFrom(k, k1, cpu);
    } else {
      JoinersWoken(k, k1, o, w);
      ReschedFrom(k, PopAll(k1, w, NoError), cpu);
    }
    WaitersKnown(k, w);
  }

  lemma JoinersWoken(k: K, k1: K, o: Tid, w: Wid)
    requires WaitersOk(k, w) && o in k.threads && k1 == SetThread(k, o, k.threads[o].(state := Death)) && WaitersOk(k1, w)
    requires k.waits[w].count == |k.waits[w].list| && o !in k.waits[w].list
    ensures forall t | t in k.waits[w].list :: t in k.threads
    ensures var r, list := PopAll(k1, w, NoError), k.waits[w].list;
            && r.threads == AllWoken(k.threads, list, NoError)[o := k.threads[o].(state := Death)]
            && r.rq == WithFronts(k, list, k.rq) && r.waits == k.waits[w := WaitQueue([], 0)]
            && r.current == k.current && r.idle == k.idle
  {
    WaitersKnown(k, w);
    PopAllIs(k1, w, NoError);
    var list := k.waits[w].list;
    SameFronts(k, k1, list, k.rq);
    OneApart(k.threads, list, NoError, o, k.threads[o].(state := Death));
  }

  /** thread_detach: joiners are woken with ERR_THREAD_DETACHED; a dead thread goes with its queue, a live
      one is marked. */
  lemma DetachIs(k: K, t: Tid)
    requires t in k.threads && WaitersOk(k, Retcode(t)) && t !in k.waits[Retcode(t)].list
    requires k.waits[Retcode(t)].count == |k.waits[Retcode(t)].list|
    ensures var w := Retcode(t); var list := k.waits[w].list; var k' := Detach(k, t);
            && (forall u | u in list :: u in k.threads)
            && k'.rq == WithFronts(k, list, k.rq) && k'.current == k.current && k'.idle == k.idle
            && var ths := AllWoken(k.threads, list, ErrThreadDetached);
               if k.threads[t].state == Death then k'.threads == ths - {t} && k'.waits == k.waits - {w}
               else k'.threads == ths[t := k.threads[t].(detached := true)] && k'.waits == k.waits[w := WaitQueue([], 0)]
  {
    PopAllIs(k, Retcode(t), ErrThreadDetached);
    assert k.waits[Retcode(t) := WaitQueue([], 0)] - {Retcode(t)} == k.waits - {Retcode(t)};
  }

  /** thread_create_etc: a suspended thread of this priority and pinning, with nobody to join it. */
  lemma CreateIs(k: K, t: Tid, prio: nat, pinned: int)
    requires t !in k.threads
    ensures var k', th := Create(k, t, prio, pinned), Create(k, t, prio, pinned).threads[t];
            && k'.threads == k.threads[t := th] && k'.waits == k.waits[Retcode(t) := WaitQueue([], 0)]
            && k'.rq == k.rq && k'.current == k.current && k'.idle == k.idle
            && th.state == Suspended && th.prio == prio && th.pinned == pinned && !th.idle && !th.detached && !th.realTime
            && th.currCpu == -1 && th.blockedOn.None? && th.quantum == 0
  {
  }

  /** remove_task_from_rqueue and thread_reset: the thread leaves its queue, where the others keep their order. */
  lemma UnqueueIs(k: K, t: Tid)
    requires Unqueue.requires(k, t)
    ensures var k', p, th := Unqueue(k, t), k.threads[t].prio, k.threads[t].(state := Suspended, blockedOn := None, blockRet := NoError);
            && k'.threads == k.threads[t := th] && k'.waits == k.waits[Retcode(t) := WaitQueue([], 0)]
            && k'.current == k.current && k'.idle == k.idle
            && exists i: nat :: i < |k.rq[p]| && k.rq[p][i] == t && k'.rq == k.rq[p := k.rq[p][..i] + k.rq[p][i + 1..]]
  {
    var i := IndexOf(k.rq[k.threads[t].prio], t);
    assert k.rq[k.threads[t].prio][i] == t;
  }

  /** thread_timer_tick: a regular thread has one less of its quantum, and nothing else changes. */
  lemma TickIs(k: K, cpu: nat)
    requires Basic(k, cpu)
    ensures var o := k.current[cpu]; var th := k.threads[o];
            Tick(k, cpu) == if th.realTime || th.idle then k else k.(threads := k.threads[o := th.(quantum := th.quantum - 1)])
  {
  }

  // ------------------------------------------------------------------ who runs

  /** The first is determined. */
  lemma FirstUnique(k: K, rq: seq<seq<Tid>>, cpu: nat, p: nat, i: nat, q: nat, j: nat)
    requires First(k, rq, cpu, p, i) && First(k, rq, cpu, q, j)
    ensures p == q && i == j
  {
    FirstLeads(k, rq, cpu, p, i, q, j);
    FirstLeads(k, rq, cpu, q, j, p, i);
  }

  lemma FirstLeads(k: K, rq: seq<seq<Tid>>, cpu: nat, p: nat, i: nat, q: nat, j: nat)
    requires First(k, rq, cpu, p, i) && q < |rq| && j < |rq[q]| && Eligible(k, rq[q][j], cpu)
    ensures q < p || (q == p && i <= j)
  {
  }

  lemma TakesFirst(k: K, rq: seq<seq<Tid>>, cpu: nat, p: nat, i: nat, k': K)
    requires Takes(k, rq, cpu, k') && First(k, rq, cpu, p, i)
    ensures k'.current[cpu] == rq[p][i] && k'.rq == rq[p := RemoveAt(rq[p], i)]
  {
    if q: nat, j: nat :| First(k, rq, cpu, q, j) && k'.current[cpu] == rq[q][j] && k'.rq == rq[q := RemoveAt(rq[q], j)] {
      FirstUnique(k, rq, cpu, p, i, q, j);
    }
  }

  /** No thread on these queues above priority `p` may run on the CPU. */
  ghost predicate NoneOver(k: K, rq: seq<seq<Tid>>, cpu: nat, p: nat) {
    forall q, j | p < q < |rq| && 0 <= j < |rq[q]| :: !Eligible(k, rq[q][j], cpu)
  }

  /** A thread put in front of its peers runs exactly if none that may run is queued above it. */
  lemma FrontRunsIff(k: K, rq: seq<seq<Tid>>, cpu: nat, p: nat, o: Tid, k': K)
    requires p < |rq| && Eligible(k, o, cpu) && Takes(k, InFront(rq, p, o), cpu, k')
    requires forall q, i | p < q < |rq| && 0 <= i < |rq[q]| :: rq[q][i] != o
    ensures k'.current[cpu] == o <==> NoneOver(k, rq, cpu, p)
    ensures NoneOver(k, rq, cpu, p) ==> k'.rq == rq
  {
    var rq' := InFront(rq, p, o);
    if NoneOver(k, rq, cpu, p) {
      assert First(k, rq', cpu, p, 0);
      TakesFirst(k, rq', cpu, p, 0, k');
      assert RemoveAt(rq'[p], 0) == rq[p];
    } else {
      HigherRuns(k, cpu, p, rq, rq', o, k');
    }
  }

  lemma HigherRuns(k: K, cpu: nat, p: nat, rq: seq<seq<Tid>>, rq': seq<seq<Tid>>, o: Tid, k': K)
    requires |rq'| == |rq| && !NoneOver(k, rq, cpu, p) && Takes(k, rq', cpu, k')
    requires forall q | p < q < |rq| :: rq'[q] == rq[q]
    requires forall q, i | p < q < |rq| && 0 <= i < |rq[q]| :: rq[q][i] != o
    ensures k'.current[cpu] != o
  {
    var q, j :| p < q < |rq| && 0 <= j < |rq[q]| && Eligible(k, rq[q][j], cpu);
    assert Eligible(k, rq'[q][j], cpu);
    var p': nat, i: nat :| First(k, rq', cpu, p', i) && k'.current[cpu] == rq'[p'][i] && k'.rq == rq'[p' := RemoveAt(rq'[p'], i)];
    assert p' >= q;
  }

  /** One put behind its peers runs on exactly if in addition none of its peers may run here. */
  lemma BehindRunsIff(k: K, cpu: nat, p: nat, o: Tid, k': K)
    requires p < |k.rq| && Eligible(k, o, cpu) && Takes(k, Behind(k.rq, p, o), cpu, k')
    requires forall q, i | p <= q < |k.rq| && 0 <= i < |k.rq[q]| :: k.rq[q][i] != o
    ensures k'.current[cpu] == o <==>
            NoneAbove(k, cpu, p) && forall i | 0 <= i < |k.rq[p]| :: !Eligible(k, k.rq[p][i], cpu)
  {
    var n := |k.rq[p]|;
    if NoneAbove(k, cpu, p) && forall i | 0 <= i < n :: !Eligible(k, k.rq[p][i], cpu) {
      assert First(k, Behind(k.rq, p, o), cpu, p, n);
      TakesFirst(k, Behind(k.rq, p, o), cpu, p, n, k');
    }
    if k'.current[cpu] == o { BehindRuns(k, cpu, p, o, k'); }
  }

  lemma BehindRuns(k: K, cpu: nat, p: nat, o: Tid, k': K)
    requires p < |k.rq| && Eligible(k, o, cpu) && Takes(k, Behind(k.rq, p, o), cpu, k') && k'.current[cpu] == o
    requires forall q, i | p <= q < |k.rq| && 0 <= i < |k.rq[q]| :: k.rq[q][i] != o
    ensures NoneAbove(k, cpu, p) && forall i | 0 <= i < |k.rq[p]| :: !Eligible(k, k.rq[p][i], cpu)
  {
    var rq, n := Behind(k.rq, p, o), |k.rq[p]|;
    assert Eligible(k, rq[p][n], cpu);
    var p': nat, i: nat :| First(k, rq, cpu, p', i) && k'.current[cpu] == rq[p'][i] && k'.rq == rq[p' := RemoveAt(rq[p'], i)];
    assert p' == p && i == n;
    forall q, j | p < q < |k.rq| && 0 <= j < |k.rq[q]| ensures !Eligible(k, k.rq[q][j], cpu) { assert rq[q] == k.rq[q]; }
    forall j | 0 <= j < n ensures !Eligible(k, k.rq[p][j], cpu) { assert rq[p][j] == k.rq[p][j]; }
  }

  lemma RunnerNotQueued(k: K, cpu: nat, q: nat)
    requires Inv(k) && cpu < |k.current| && q < NUM_PRIORITIES
    ensures k.current[cpu] !in k.rq[q]
  {
    assert QueueOk(k, q, {});
  }

  /** Who runs after a preemption, whatever is pinned where: with quantum left the thread itself unless one
      that may run is queued above it; without, only if none of its peers may run either. */
  lemma PreemptRunsOnIff(k: K, cpu: nat)
    requires Inv(k) && Busy(k, cpu)
    ensures Basic(k, cpu)
    ensures var o, p := k.current[cpu], k.threads[k.current[cpu]].prio;
            && (k.threads[o].quantum > 0 ==> (Preempt(k, cpu).current[cpu] == o <==> NoneAbove(k, cpu, p)))
            && (k.threads[o].quantum <= 0 ==>
                  (Preempt(k, cpu).current[cpu] == o <==>
                   NoneAbove(k, cpu, p) && forall i | 0 <= i < |k.rq[p]| :: !Eligible(k, k.rq[p][i], cpu)))
  {
    CurrentIs(k, cpu, {});
    PreemptIs(k, cpu);
    var o, p := k.current[cpu], k.threads[k.current[cpu]].prio;
    forall q: nat | q < NUM_PRIORITIES ensures o !in k.rq[q] { RunnerNotQueued(k, cpu, q); }
    if k.threads[o].quantum > 0 {
      FrontRunsIff(k, k.rq, cpu, p, o, Preempt(k, cpu));
    } else {
      BehindRunsIff(k, cpu, p, o, Preempt(k, cpu));
    }
  }

  lemma YieldRunsOnIff(k: K, cpu: nat)
    requires Inv(k) && Busy(k, cpu)
    ensures Basic(k, cpu)
    ensures var o, p := k.current[cpu], k.threads[k.current[cpu]].prio;
            Yield(k, cpu).current[cpu] == o <==>
            NoneAbove(k, cpu, p) && forall i | 0 <= i < |k.rq[p]| :: !Eligible(k, k.rq[p][i], cpu)
  {
    CurrentIs(k, cpu, {});
    YieldIs(k, cpu);
    var o, p := k.current[cpu], k.threads[k.current[cpu]].prio;
    forall q: nat | q < NUM_PRIORITIES ensures o !in k.rq[q] { RunnerNotQueued(k, cpu, q); }
    BehindRunsIff(k, cpu, p, o, Yield(k, cpu));
  }

  lemma SetPriorityRunsOnIff(k: K, cpu: nat, prio: int)
    requires Inv(k) && cpu < |k.current|
    ensures Basic(k, cpu)
    ensures SetPriority(k, cpu, prio).current[cpu] == k.current[cpu] <==> NoneAbove(k, cpu, Clamp(prio))
  {
    CurrentIs(k, cpu, {});
    SetPriorityIs(k, cpu, prio);
    var o := k.current[cpu];
    forall q: nat | q < NUM_PRIORITIES ensures o !in k.rq[q] { RunnerNotQueued(k, cpu, q); }
    FrontRunsIff(k, k.rq, cpu, Clamp(prio), o, SetPriority(k, cpu, prio));
  }

  /** After a wake-up that reschedules the woken thread runs exactly if it may run here, is not below the
      caller, and no thread that may run here is queued above it. */
  lemma WakeRunsIff(k: K, cpu: nat, w: Wid, err: Status)
    requires Inv(k) && cpu < |k.current| && w in k.waits && k.waits[w].list != []
    ensures Basic(k, cpu) && WaitersOk(k, w)
    ensures var o, t := k.current[cpu], k.waits[w].list[0]; var p := k.threads[t].prio;
            WakeOne(k, cpu, w, true, err).current[cpu] == t
            <==> Eligible(k, t, cpu) && NoneAbove(k, cpu, p) && k.threads[o].prio <= p
  {
    CurrentIs(k, cpu, {});
    WaitersAre(k, w, {});
    WaiterIs(k, w, {}, {}, 0);
    RunnerNotWaiting(k, w, cpu);
    WakeOneSwitches(k, cpu, w, err);
    var t := k.waits[w].list[0];
    forall q: nat | q < NUM_PRIORITIES ensures t !in k.rq[q] { assert QueueOk(k, q, {}); }
    FrontOfCaller(k, cpu, k.current[cpu], t, WakeOne(k, cpu, w, true, err));
  }

  lemma FrontOfCaller(k: K, cpu: nat, o: Tid, t: Tid, k': K)
    requires o in k.threads && t in k.threads && k.threads[o].prio < |k.rq| && k.threads[t].prio < |k.rq| && t != o
    requires Eligible(k, o, cpu) && Takes(k, InFront(InFront(k.rq, k.threads[o].prio, o), k.threads[t].prio, t), cpu, k')
    requires t != k.idle[cpu] && forall q, i | 0 <= q < |k.rq| && 0 <= i < |k.rq[q]| :: k.rq[q][i] != t
    ensures k'.current[cpu] == t
       <==> Eligible(k, t, cpu) && NoneAbove(k, cpu, k.threads[t].prio) && k.threads[o].prio <= k.threads[t].prio
  {
    var rq := InFront(k.rq, k.threads[o].prio, o);
    WithCaller(k, cpu, o, k.threads[o].prio, k.threads[t].prio);
    if Eligible(k, t, cpu) {
      FrontRunsIff(k, rq, cpu, k.threads[t].prio, t, k');
    } else {
      IneligibleNotRun(k, cpu, InFront(rq, k.threads[t].prio, t), t, k');
    }
  }

  lemma WithCaller(k: K, cpu: nat, o: Tid, po: nat, p: nat)
    requires po < |k.rq| && Eligible(k, o, cpu)
    ensures NoneOver(k, InFront(k.rq, po, o), cpu, p) <==> NoneAbove(k, cpu, p) && po <= p
  {
    var rq := InFront(k.rq, po, o);
    assert rq[po][0] == o;
    if NoneOver(k, rq, cpu, p) {
      forall q, j | p < q < |k.rq| && 0 <= j < |k.rq[q]| ensures !Eligible(k, k.rq[q][j], cpu) {
        var i := StillOn(k.rq, po, o, q, j);
      }
    }
  }

  lemma StillOn(rq: seq<seq<Tid>>, p: nat, o: Tid, q: nat, j: nat) returns (i: nat)
    requires p < |rq| && q < |rq| && j < |rq[q]|
    ensures i < |InFront(rq, p, o)[q]| && InFront(rq, p, o)[q][i] == rq[q][j]
  {
    i := if q == p then j + 1 else j;
  }

  lemma IneligibleNotRun(k: K, cpu: nat, rq: seq<seq<Tid>>, t: Tid, k': K)
    requires Takes(k, rq, cpu, k') && !Eligible(k, t, cpu) && t != k.idle[cpu]
    ensures k'.current[cpu] != t
  {
  }

  /** Nobody who may run on the CPU is left queued above the thread it runs, or at all if it idles. */
  lemma HighestRuns(k: K, rq: seq<seq<Tid>>, cpu: nat, k': K)
    requires Takes(k, rq, cpu, k') && forall q, i | 0 <= q < |rq| && 0 <= i < |rq[q]| :: rq[q][i] in k.threads && k.threads[rq[q][i]].prio == q
    ensures (exists q, i :: 0 <= q < |rq| && 0 <= i < |rq[q]| && Eligible(k, rq[q][i], cpu)) ==>
              k'.current[cpu] in k.threads && NoneOver(k, k'.rq, cpu, k.threads[k'.current[cpu]].prio)
  {
  }
}
