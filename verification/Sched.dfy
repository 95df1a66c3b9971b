/** kernel/thread.c as it runs: the scheduler's tables, updated in place under the thread lock. */
module Sched {
  import opened Wrappers
  import opened SchedSpec
  import opened SchedInv
  import opened SchedIdle

  /** A queued thread has its bit in the bitmap; a set bit may be stale. */
  ghost predicate BitsCover(k: K) {
    && (forall p: nat | p < |k.rq| :: k.rq[p] != [] ==> p in k.bits)
    && (forall b | b in k.bits :: b < NUM_PRIORITIES)
    && (forall p, j | 0 <= p < |k.rq| && 0 <= j < |k.rq[p]| :: k.rq[p][j] in k.threads)
  }

  lemma InvCovers(k: K, v: set<nat>)
    requires InvBut(k, {}, v)
    ensures |k.rq| == NUM_PRIORITIES && BitsCover(k)
  {
    forall p: nat | p < |k.rq|
      ensures k.rq[p] != [] ==> p in k.bits
      ensures forall j | 0 <= j < |k.rq[p]| :: k.rq[p][j] in k.threads
    {
      assert QueueOk(k, p, {});
    }
  }

  lemma {:induction false} HasHighest(s: set<nat>, n: nat)
    requires s != {} && forall b | b in s :: b < n
    ensures exists b :: b in s && forall c | c in s :: c <= b
  {
    var x :| x in s;
    if n - 1 !in s { HasHighest(s, n - 1); }
  }

  /** Queues above `n` that the scan has passed hold nobody eligible, so the choice is below. */
  lemma {:induction false} PickSkips(k: K, cpu: nat, m: nat, n: nat)
    requires m <= n <= |k.rq|
    requires forall p, j | m <= p < n && 0 <= j < |k.rq[p]| :: !Eligible(k, k.rq[p][j], cpu)
    ensures PickFrom(k, cpu, n) == PickFrom(k, cpu, m)
  {
    if m < n {
      FirstEligibleIs(k, k.rq[n - 1], cpu, 0);
      PickSkips(k, cpu, m, n - 1);
    }
  }

  class Kernel {
    var threads: map<Tid, Thread>
    var rq: seq<seq<Tid>>
    var bits: set<nat>
    var waits: map<Wid, WaitQueue>
    var current: seq<Tid>
    const idle: seq<Tid>

    ghost function View(): K
      reads this
    {
      K(threads, rq, bits, waits, current, idle)
    }

    ghost predicate Valid()
      reads this
    {
      Inv(View())
    }

    constructor (cpus: nat)
      ensures View() == Boot(cpus) && Valid()
    {
      threads := Boot(cpus).threads;
      rq := seq(NUM_PRIORITIES, _ => []);
      bits, waits := {}, map[];
      current, idle := seq(cpus, c => c), seq(cpus, c => c);
      BootHolds(cpus);
    }

    /** insert_in_run_queue_head */
    method InsertInRunQueueHead(t: Tid)
      requires t in threads && threads[t].prio < |rq|
      modifies this`rq, this`bits
      ensures View() == InsertHead(old(View()), t)
      ensures old(BitsCover(View()) && |rq| == NUM_PRIORITIES) ==> BitsCover(View())
    {
      var p := threads[t].prio;
      rq := rq[p := [t] + rq[p]];
      bits := bits + {p};
    }

    /** insert_in_run_queue_tail */
    method InsertInRunQueueTail(t: Tid)
      requires t in threads && threads[t].prio < |rq|
      modifies this`rq, this`bits
      ensures View() == InsertTail(old(View()), t)
      ensures old(BitsCover(View()) && |rq| == NUM_PRIORITIES) ==> BitsCover(View())
    {
      var p := threads[t].prio;
      rq := rq[p := rq[p] + [t]];
      bits := bits + {p};
    }

    /** The inner loop of get_top_thread: the first thread of a queue that may run here. */
    method ScanQueue(q: seq<Tid>, cpu: nat) returns (i: nat)
      requires forall j | 0 <= j < |q| :: q[j] in threads
      ensures i == FirstEligible(View(), q, cpu, 0)
    {
      i := 0;
      while i < |q| && threads[q[i]].pinned >= 0 && threads[q[i]].pinned != cpu
        invariant i <= |q| && FirstEligible(View(), q, cpu, 0) == FirstEligible(View(), q, cpu, i)
      {
        i := i + 1;
      }
    }

    /** get_top_thread: the bitmap, highest bit first, finds what a scan of every queue would. */
    method GetTopThread(cpu: nat) returns (t: Tid)
      requires |rq| == NUM_PRIORITIES && BitsCover(View()) && cpu < |idle|
      modifies this`rq, this`bits
      ensures (t, View()) == Top(old(View()), cpu)
    {
      ghost var k := View();
      var local := bits;
      ghost var n: nat := NUM_PRIORITIES;
      while local != {}
        invariant View() == k && local <= bits && n <= NUM_PRIORITIES
        invariant forall b | b in bits :: b in local <==> b < n
        invariant forall p, j | n <= p < NUM_PRIORITIES && 0 <= j < |rq[p]| :: !Eligible(k, rq[p][j], cpu)
        decreases |local|
      {
        HasHighest(local, NUM_PRIORITIES);
        var next :| next in local && forall c | c in local :: c <= next;
        assert forall p: nat | next < p < n :: rq[p] == [];
        PickSkips(k, cpu, next + 1, NUM_PRIORITIES);
        var i := ScanQueue(rq[next], cpu);
        FirstEligibleIs(k, rq[next], cpu, 0);
        if i < |rq[next]| {
          t := rq[next][i];
          rq := rq[next := RemoveAt(rq[next], i)];
          if rq[next] == [] { bits := bits - {next}; }
          return;
        }
        assert |local - {next}| < |local|;
        local := local - {next};
        n := next;
      }
      assert forall p: nat | p < n :: rq[p] == [];
      PickSkips(k, cpu, 0, NUM_PRIORITIES);
      t := idle[cpu];
    }

    /** The switch at the end of thread_resched. */
    method SwitchTo(cpu: nat, newThread: Tid)
      requires cpu < |current| && newThread in threads && current[cpu] in threads
      modifies this`threads, this`current
      ensures View() == Dispatch(old(View()), cpu, newThread)
    {
      var oldThread := current[cpu];
      threads := threads[newThread := threads[newThread].(state := Running)];
      if newThread != oldThread {
        var q := if threads[newThread].quantum <= 0 then 5 else threads[newThread].quantum;
        threads := threads[oldThread := threads[oldThread].(currCpu := -1)];
        threads := threads[newThread := threads[newThread].(quantum := q, currCpu := cpu)];
        current := current[cpu := newThread];
      }
    }

    /** thread_resched */
    method ThreadResched(cpu: nat)
      requires Basic(View(), cpu) && BitsCover(View())
      modifies this
      ensures View() == Resched(old(View()), cpu)
    {
      PickIsBest(View(), cpu, NUM_PRIORITIES);
      var newThread := GetTopThread(cpu);
      SwitchTo(cpu, newThread);
    }

    /** The record of thread `t` is rewritten. */
    method Put(t: Tid, th: Thread)
      requires t in threads
      modifies this`threads
      ensures View() == SetThread(old(View()), t, th)
      ensures old(BitsCover(View())) ==> BitsCover(View())
    {
      threads := threads[t := th];
    }

    /** thread_yield */
    method ThreadYield(cpu: nat)
      requires Valid() && cpu < |current|
      modifies this
      ensures Basic(old(View()), cpu) && View() == Yield(old(View()), cpu) && Valid()
    {
      YieldKeeps(View(), cpu);
      InvCovers(View(), {});
      var t := current[cpu];
      Put(t, threads[t].(state := Ready, quantum := 0));
      if !threads[t].idle { InsertInRunQueueTail(t); }
      ThreadResched(cpu);
    }

    /** thread_preempt */
    method ThreadPreempt(cpu: nat)
      requires Valid() && cpu < |current|
      modifies this
      ensures Basic(old(View()), cpu) && View() == Preempt(old(View()), cpu) && Valid()
    {
      PreemptKeeps(View(), cpu);
      InvCovers(View(), {});
      var t := current[cpu];
      Put(t, threads[t].(state := Ready));
      if !threads[t].idle {
        if threads[t].quantum > 0 { InsertInRunQueueHead(t); } else { InsertInRunQueueTail(t); }
      }
      ThreadResched(cpu);
    }

    /** thread_set_priority */
    method ThreadSetPriority(cpu: nat, priority: int)
      requires Valid() && cpu < |current|
      modifies this
      ensures Basic(old(View()), cpu) && View() == SetPriority(old(View()), cpu, priority)
      ensures Valid() <==> PriorityOk(old(View()), cpu, priority)
    {
      SetPriorityKeepsIff(View(), cpu, priority);
      InvCovers(View(), {});
      var t, p := current[cpu], priority;
      if p <= IDLE_PRIORITY { p := IDLE_PRIORITY + 1; }
      if p >= NUM_PRIORITIES { p := NUM_PRIORITIES - 1; }
      Put(t, threads[t].(prio := p, state := Ready));
      InsertInRunQueueHead(t);
      ThreadResched(cpu);
    }

    /** thread_resume */
    method ThreadResume(cpu: nat, t: Tid, intsOff: bool)
      requires Valid() && cpu < |current| && t in threads
      modifies this
      ensures Basic(old(View()), cpu) && old(threads[t].prio) < NUM_PRIORITIES && Valid()
      ensures View() == Resume(old(View()), cpu, t, intsOff)
    {
      ResumeKeeps(View(), cpu, t, intsOff);
      if threads[t].state == Suspended {
        ReadyKeeps(View(), t);
        Put(t, threads[t].(state := Ready));
        InsertInRunQueueHead(t);
        if !intsOff { ThreadYield(cpu); }
      }
    }

    /** thread_sleep: what follows setting the timer */
    method ThreadSleep(cpu: nat)
      requires Valid() && Busy(View(), cpu)
      modifies this
      ensures Basic(old(View()), cpu) && View() == Sleep(old(View()), cpu) && Valid()
    {
      SleepKeeps(View(), cpu);
      InvCovers(View(), {});
      Put(current[cpu], threads[current[cpu]].(state := Sleeping));
      ThreadResched(cpu);
    }

    /** thread_sleep_handler */
    method ThreadSleepHandler(t: Tid)
      requires Valid() && t in threads && threads[t].state == Sleeping
      modifies this
      ensures old(threads[t].prio < |rq|) && View() == SleepDone(old(View()), t) && Valid()
    {
      ReadyKeeps(View(), t);
      Put(t, threads[t].(state := Ready));
      InsertInRunQueueHead(t);
    }

    /** The current thread joins a wait queue and the CPU moves on. */
    method Enqueue(cpu: nat, w: Wid)
      requires Basic(View(), cpu) && BitsCover(View()) && w in waits
      modifies this
      ensures View() == Block(old(View()), cpu, w, false)
    {
      ghost var k := View();
      var t := current[cpu];
      waits := waits[w := WaitQueue(waits[w].list + [t], waits[w].count + 1)];
      Put(t, threads[t].(state := Blocked, blockedOn := Some(w), blockRet := NoError));
      assert View() == AddWaiter(SetThread(k, t, threads[t]), w, t);
      ThreadResched(cpu);
    }

    /** wait_queue_block, up to the switch */
    method WaitQueueBlock(cpu: nat, w: Wid, timeoutZero: bool) returns (timedOut: bool)
      requires Valid() && Busy(View(), cpu) && w in waits
      modifies this
      ensures Basic(old(View()), cpu) && View() == Block(old(View()), cpu, w, timeoutZero) && Valid()
      ensures timedOut == timeoutZero
    {
      BlockKeeps(View(), cpu, w, timeoutZero);
      InvCovers(View(), {});
      if !timeoutZero { Enqueue(cpu, w); }
      return timeoutZero;
    }

    /** list_remove_head of a wait queue, and the record of the thread that left it */
    method RemoveHead(w: Wid, err: Status) returns (t: Tid)
      requires w in waits && waits[w].list != [] && waits[w].list[0] in threads
      modifies this`waits, this`threads
      ensures t == old(waits[w].list[0]) && View() == PopWaiter(old(View()), w, 0, err)
      ensures old(BitsCover(View())) ==> BitsCover(View())
    {
      t := waits[w].list[0];
      assert RemoveAt(waits[w].list, 0) == waits[w].list[1..];
      waits := waits[w := WaitQueue(waits[w].list[1..], waits[w].count - 1)];
      Put(t, threads[t].(state := Ready, blockRet := err, blockedOn := None));
    }

    /** wait_queue_wake_one, whatever holds of the other queues */
    method WakeHead(cpu: nat, w: Wid, reschedule: bool, err: Status) returns (woken: nat)
      requires Basic(View(), cpu) && BitsCover(View()) && WaitersOk(View(), w)
      modifies this
      ensures View() == WakeOne(old(View()), cpu, w, reschedule, err)
      ensures woken == if old(waits[w].list) == [] then 0 else 1
    {
      woken := 0;
      if waits[w].list != [] {
        var t := RemoveHead(w, err);
        if reschedule {
          Put(current[cpu], threads[current[cpu]].(state := Ready));
          InsertInRunQueueHead(current[cpu]);
        }
        InsertInRunQueueHead(t);
        if reschedule { ThreadResched(cpu); }
        woken := 1;
      }
    }

    /** wait_queue_wake_one */
    method WaitQueueWakeOne(cpu: nat, w: Wid, reschedule: bool, err: Status) returns (woken: nat)
      requires Valid() && cpu < |current| && w in waits
      modifies this
      ensures Basic(old(View()), cpu) && WaitersOk(old(View()), w)
      ensures View() == WakeOne(old(View()), cpu, w, reschedule, err)
      ensures Valid() <==> WakeOneOk(old(View()), cpu, w, reschedule)
      ensures woken == if old(waits[w].list) == [] then 0 else 1
    {
      WakeOneKeepsIff(View(), cpu, w, reschedule, err);
      InvCovers(View(), {});
      woken := WakeHead(cpu, w, reschedule, err);
    }

    /** The loop of wait_queue_wake_all */
    method PopWaiters(w: Wid, err: Status) returns (woken: nat)
      requires WaitersOk(View(), w) && BitsCover(View())
      modifies this
      ensures View() == PopAll(old(View()), w, err) && woken == old(|waits[w].list|) && BitsCover(View())
    {
      woken := 0;
      while waits[w].list != []
        invariant WaitersOk(View(), w) && BitsCover(View())
        invariant PopAll(View(), w, err) == PopAll(old(View()), w, err)
        invariant woken + |waits[w].list| == old(|waits[w].list|)
        decreases |waits[w].list|
      {
        var t := RemoveHead(w, err);
        InsertInRunQueueHead(t);
        woken := woken + 1;
      }
    }

    /** The current thread goes to the head of its run queue, behind those about to be woken. */
    method StepAside(cpu: nat, w: Wid)
      requires Basic(View(), cpu) && BitsCover(View()) && WaitersOk(View(), w)
      modifies this`threads, this`rq, this`bits
      ensures var o, k := current[cpu], old(View());
              View() == InsertHead(SetThread(k, o, k.threads[o].(state := Ready)), o)
      ensures Basic(View(), cpu) && BitsCover(View()) && WaitersOk(View(), w)
    {
      Put(current[cpu], threads[current[cpu]].(state := Ready));
      InsertInRunQueueHead(current[cpu]);
    }

    /** wait_queue_wake_all, whatever holds of the other queues */
    method WakeWaiters(cpu: nat, w: Wid, reschedule: bool, err: Status) returns (woken: nat)
      requires Basic(View(), cpu) && BitsCover(View()) && WaitersOk(View(), w)
      modifies this
      ensures View() == WakeAll(old(View()), cpu, w, reschedule, err) && woken == old(|waits[w].list|)
    {
      if reschedule && waits[w].count > 0 { StepAside(cpu, w); }
      woken := PopWaiters(w, err);
      if woken > 0 && reschedule { ThreadResched(cpu); }
    }

    /** wait_queue_wake_all */
    method WaitQueueWakeAll(cpu: nat, w: Wid, reschedule: bool, err: Status) returns (woken: nat)
      requires Valid() && cpu < |current| && w in waits
      modifies this
      ensures Basic(old(View()), cpu) && WaitersOk(old(View()), w)
      ensures View() == WakeAll(old(View()), cpu, w, reschedule, err)
      ensures Valid() <==> WakeAllOk(old(View()), cpu, w, reschedule)
      ensures woken == old(|waits[w].list|)
    {
      WakeAllKeepsIff(View(), cpu, w, reschedule, err);
      InvCovers(View(), {});
      woken := WakeWaiters(cpu, w, reschedule, err);
    }

    /** The thread at place `i` of a wait queue is taken out and made ready. */
    method TakeOut(w: Wid, i: nat, err: Status)
      requires w in waits && i < |waits[w].list| && waits[w].list[i] in threads
      requires threads[waits[w].list[i]].prio < |rq|
      modifies this
      ensures View() == InsertHead(PopWaiter(old(View()), w, i, err), old(waits[w].list[i]))
    {
      ghost var k := View();
      var t := waits[w].list[i];
      waits := waits[w := WaitQueue(RemoveAt(waits[w].list, i), waits[w].count - 1)];
      Put(t, threads[t].(state := Ready, blockRet := err, blockedOn := None));
      assert View() == PopWaiter(k, w, i, err);
      InsertInRunQueueHead(t);
    }

    /** thread_unblock_from_wait_queue */
    method UnblockFromWaitQueue(t: Tid, err: Status) returns (r: Status)
      requires Valid() && t in threads
      modifies this
      ensures Unblock.requires(old(View()), t, err) && View() == Unblock(old(View()), t, err) && Valid()
      ensures r == if old(threads[t].state) == Blocked then NoError else ErrNotBlocked
    {
      UnblockKeeps(View(), t, err);
      if threads[t].state != Blocked { return ErrNotBlocked; }
      var w := threads[t].blockedOn.value;
      var i: nat :| i < |waits[w].list| && waits[w].list[i] == t;
      SameIndex(View(), w, t, i);
      TakeOut(w, i, err);
      return NoError;
    }

    /** thread_exit, whatever holds of the other queues */
    method Retire(cpu: nat)
      requires Basic(View(), cpu) && BitsCover(View()) && WaitersOk(View(), Retcode(current[cpu]))
      modifies this
      ensures View() == Exit(old(View()), cpu)
    {
      var t := current[cpu];
      Put(t, threads[t].(state := Death));
      if !threads[t].detached { var _ := PopWaiters(Retcode(t), NoError); }
      ThreadResched(cpu);
    }

    /** thread_exit */
    method ThreadExit(cpu: nat)
      requires Valid() && Busy(View(), cpu) && Retcode(current[cpu]) in waits
      modifies this
      ensures Basic(old(View()), cpu) && WaitersOk(old(View()), Retcode(old(current[cpu])))
      ensures View() == Exit(old(View()), cpu) && Valid()
    {
      ExitKeeps(View(), cpu);
      InvCovers(View(), {});
      Retire(cpu);
    }

    /** thread_create_etc */
    method ThreadCreate(t: Tid, priority: nat, pinned: int)
      requires Valid() && t !in threads && Retcode(t) !in waits && priority < NUM_PRIORITIES
      modifies this`threads, this`waits
      ensures View() == Create(old(View()), t, priority, pinned) && Valid()
    {
      CreateKeeps(View(), t, priority, pinned);
      threads := threads[t := Thread(Suspended, priority, false, pinned, -1, None, NoError, 0, false, false)];
      waits := waits[Retcode(t) := WaitQueue([], 0)];
    }

    /** thread_detach, whatever holds of the other queues */
    method LetGo(t: Tid)
      requires BitsCover(View()) && t in threads && WaitersOk(View(), Retcode(t))
      modifies this
      ensures View() == Detach(old(View()), t)
    {
      var dead := threads[t].state == Death;
      var _ := PopWaiters(Retcode(t), ErrThreadDetached);
      if dead {
        threads := threads - {t};
        waits := waits - {Retcode(t)};
      } else {
        Put(t, threads[t].(detached := true));
      }
    }

    /** thread_detach */
    method ThreadDetach(t: Tid)
      requires Valid() && t in threads && Retcode(t) in waits
      modifies this
      ensures WaitersOk(old(View()), Retcode(t)) && View() == Detach(old(View()), t) && Valid()
    {
      DetachKeeps(View(), t);
      InvCovers(View(), {});
      LetGo(t);
    }

    /** remove_task_from_rqueue, then thread_reset, of the i-th thread of a run queue */
    method TakeAndReset(p: nat, i: nat)
      requires p < |rq| && i < |rq[p]| && rq[p][i] in threads
      modifies this
      ensures var t, k := old(rq[p][i]), old(View());
              View() == InitQueue(SetThread(TakeQueued(k, p, i, false), t,
                                            k.threads[t].(state := Suspended, blockedOn := None, blockRet := NoError)), Retcode(t))
    {
      var t := rq[p][i];
      rq := rq[p := RemoveAt(rq[p], i)];
      Put(t, threads[t].(state := Suspended, blockedOn := None, blockRet := NoError));
      waits := waits[Retcode(t) := WaitQueue([], 0)];
    }

    /** remove_task_from_rqueue, then thread_reset */
    method RemoveAndReset(t: Tid)
      requires Valid() && t in threads && threads[t].state == Ready && !threads[t].idle
      modifies this
      ensures Unqueue.requires(old(View()), t) && View() == Unqueue(old(View()), t)
      ensures Valid() <==> NoJoiner(old(View()), t)
    {
      UnqueueKeepsIff(View(), t);
      var p := threads[t].prio;
      var i: nat :| i < |rq[p]| && rq[p][i] == t;
      SamePlaceInQueue(View(), p, t, i);
      TakeAndReset(p, i);
    }

    /** thread_timer_tick, whatever holds of the queues */
    method CountDown(cpu: nat) returns (reschedule: bool)
      requires Basic(View(), cpu)
      modifies this`threads
      ensures View() == Tick(old(View()), cpu)
      ensures reschedule <==> View() != old(View()) && threads[current[cpu]].quantum <= 0
    {
      var t := current[cpu];
      if threads[t].realTime || threads[t].idle { return false; }
      Put(t, threads[t].(quantum := threads[t].quantum - 1));
      return threads[t].quantum <= 0;
    }

    /** thread_timer_tick */
    method ThreadTimerTick(cpu: nat) returns (reschedule: bool)
      requires Valid() && cpu < |current|
      modifies this
      ensures Basic(old(View()), cpu) && View() == Tick(old(View()), cpu) && Valid() && Basic(View(), cpu)
      ensures reschedule <==> View() != old(View()) && threads[current[cpu]].quantum <= 0
    {
      TickKeeps(View(), cpu);
      reschedule := CountDown(cpu);
    }
  }

  /** A queued thread is at one place of its queue only. */
  lemma SamePlaceInQueue(k: K, p: nat, t: Tid, i: nat)
    requires Inv(k) && p < |k.rq| && i < |k.rq[p]| && k.rq[p][i] == t
    ensures IndexOf(k.rq[p], t) == i
  {
    assert QueueOk(k, p, {});
  }

  /** A waiter is at one place of its queue only. */
  lemma SameIndex(k: K, w: Wid, t: Tid, i: nat)
    requires Inv(k) && w in k.waits && i < |k.waits[w].list| && k.waits[w].list[i] == t
    ensures IndexOf(k.waits[w].list, t) == i
  {
    assert WaitOk(k, w, {});
  }
}
