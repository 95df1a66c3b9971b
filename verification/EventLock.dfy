/** kernel/event.c on top of kernel/thread.c: the code, run by the scheduler, takes exactly the steps
    of the event protocol. */
module EventLock {
  import opened Wrappers
  import opened SchedSpec
  import opened SchedInv
  import opened SchedIdle
  import opened Sched
  import opened WaitQueues
  import P = Event

  class EventT {
    const kernel: Kernel
    const wait: Wid
    const auto: bool
    var signaled: bool
    ghost var inside: set<Tid>

    ghost predicate Valid()
      reads this, kernel
    {
      Whole(kernel.View()) && Inside(kernel.View(), wait, inside)
    }

    ghost function View(): P.E
      requires Valid()
      reads this, kernel
    {
      P.E(auto, signaled, kernel.waits[wait].list, Pending(kernel.View(), inside))
    }

    /** event_init */
    constructor (k: Kernel, w: Wid, initial: bool, autoUnsignal: bool)
      requires k.Valid() && w in k.waits && k.waits[w].list == []
      ensures Valid() && kernel == k && wait == w && auto == autoUnsignal && View() == P.E(autoUnsignal, initial, [], map[])
    {
      kernel, wait, auto, signaled, inside := k, w, autoUnsignal, initial, {};
      assert Open(0);
    }

    /** event_wait_timeout, up to where it returns (with what it returns) or blocks */
    method WaitTimeout(cpu: nat, timeoutZero: bool) returns (r: Option<Status>)
      requires Valid() && Busy(kernel.View(), cpu) && kernel.current[cpu] !in inside
      modifies this, kernel
      ensures Valid() && View() == P.Wait(old(View()), old(kernel.current[cpu]), timeoutZero)
      ensures r == if old(signaled) then Some(NoError) else if timeoutZero then Some(ErrTimedOut) else None
      ensures signaled == (old(signaled) && !auto) && (r != None ==> kernel.View() == old(kernel.View()))
    {
      ghost var k := kernel.View();
      var t := kernel.current[cpu];
      if signaled {
        if auto { signaled := false; }
        return Some(NoError);
      }
      if timeoutZero { return Some(ErrTimedOut); }
      BlockOn(kernel, wait, cpu);
      BlockKeepsInside(k, wait, inside, t, kernel.View());
      inside := inside + {t};
      return None;
    }

    /** event_wait_timeout, from the return of wait_queue_block */
    method WaitReturn(cpu: nat) returns (r: Status)
      requires Valid() && Busy(kernel.View(), cpu) && kernel.current[cpu] in inside
      modifies this
      ensures old(kernel.current[cpu] in View().woken) && Valid() && r == old(View().woken[kernel.current[cpu]])
      ensures P.Enabled(old(View()), P.OpReturn(kernel.current[cpu]))
      ensures View() == P.After(old(View()), P.OpReturn(kernel.current[cpu]))
    {
      var t := kernel.current[cpu];
      NotWaiting(kernel.View(), wait, cpu);
      ghost var e := View();
      r := kernel.threads[t].blockRet;
      inside := inside - {t};
      assert Pending(kernel.View(), inside) == e.woken - {t};
    }

    /** event_signal */
    method SignalEvent(cpu: nat, resched: bool)
      requires Valid() && cpu < |kernel.idle|
      requires !signaled ==> if auto then WakeOneOk(kernel.View(), cpu, wait, resched) else WakeAllOk(kernel.View(), cpu, wait, resched)
      modifies this, kernel
      ensures Valid() && View() == P.Signal(old(View()))
      ensures signaled <==> old(signaled || !auto || kernel.waits[wait].list == [])
    {
      if signaled { return; }
      if auto {
        var woken := LetOneThrough(cpu, resched);
        if woken <= 0 { signaled := true; }
      } else {
        signaled := true;
        LetAllThrough(cpu, resched);
      }
    }

    /** wait_queue_wake_one on the event's queue */
    method LetOneThrough(cpu: nat, resched: bool) returns (woken: nat)
      requires Valid() && cpu < |kernel.idle| && WakeOneOk(kernel.View(), cpu, wait, resched)
      modifies kernel
      ensures Valid() && woken == if old(View().queue) == [] then 0 else 1
      ensures var e := old(View());
              View() == if e.queue == [] then e else e.(queue := e.queue[1..], woken := e.woken[e.queue[0] := NoError])
    {
      ghost var k := kernel.View();
      CpuCount(k);
      woken := WakeOneOf(kernel, wait, cpu, resched);
      if k.waits[wait].list != [] { FreesKeepsInside(k, wait, inside, 0, NoError, kernel.View()); }
      assert RemoveFirst(k.waits[wait].list);
    }

    /** wait_queue_wake_all on the event's queue */
    method LetAllThrough(cpu: nat, resched: bool)
      requires Valid() && cpu < |kernel.idle| && WakeAllOk(kernel.View(), cpu, wait, resched)
      modifies kernel
      ensures Valid()
      ensures View() == old(View()).(queue := [], woken := P.FreeAll(old(View()).woken, old(View()).queue))
    {
      ghost var k := kernel.View();
      CpuCount(k);
      var _ := WakeAllOf(kernel, wait, cpu, resched);
      FreesAllKeepsInside(k, wait, inside, kernel.View());
    }

    /** event_unsignal */
    method UnsignalEvent()
      requires Valid()
      modifies this`signaled
      ensures Valid() && View() == P.Unsignal(old(View())) && !signaled
    {
      signaled := false;
    }

    /** wait_queue_timeout_handler for a thread that waits for this event */
    method Expire(t: Tid)
      requires Valid() && t in kernel.waits[wait].list
      modifies kernel
      ensures Valid() && P.Enabled(old(View()), P.OpExpire(t)) && View() == P.After(old(View()), P.OpExpire(t))
    {
      ghost var k := kernel.View();
      TimeOut(kernel, wait, t);
      FreesKeepsInside(k, wait, inside, IndexOf(k.waits[wait].list, t), ErrTimedOut, kernel.View());
    }
  }

  /** Once all are through, nobody inside is blocked and those who waited are given success. */
  lemma FreesAllKeepsInside(k: K, w: Wid, inside: set<Tid>, k': K)
    requires Inside(k, w, inside) && FreesAll(k, w, NoError, k')
    ensures Inside(k', w, inside) && Pending(k', inside) == P.FreeAll(Pending(k, inside), k.waits[w].list)
  {
    var q, p, p', f := k.waits[w].list, Pending(k, inside), Pending(k', inside), P.FreeAll(Pending(k, inside), k.waits[w].list);
    forall t ensures (t in p' <==> t in f) && (t in p' ==> p'[t] == f[t]) {
      P.FreeAllIs(p, q, t);
      if t in inside && t !in q { assert SameWait(k, k', t); }
    }
    forall t | t in inside ensures k'.threads[t].state != Blocked {
      if t !in q { assert SameWait(k, k', t); }
    }
  }

  lemma CpuCount(k: K)
    requires Whole(k)
    ensures |k.current| == |k.idle|
  {
    assert Open(0);
  }
}
