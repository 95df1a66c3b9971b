/** kernel/semaphore.c on top of kernel/thread.c: the code, run by the scheduler, takes exactly
    the steps of the semaphore protocol. */
module SemaphoreLock {
  import opened Wrappers
  import opened SchedSpec
  import opened SchedInv
  import opened SchedIdle
  import opened Sched
  import opened WaitQueues
  import P = Semaphore

  class SemaphoreT {
    const kernel: Kernel
    const wait: Wid
    var count: int
    ghost var inside: set<Tid>

    ghost predicate Valid()
      reads this, kernel
    {
      Whole(kernel.View()) && Inside(kernel.View(), wait, inside)
    }

    ghost function View(): P.S
      requires Valid()
      reads this, kernel
    {
      P.S(count, kernel.waits[wait].list, Pending(kernel.View(), inside))
    }

    /** sem_init */
    constructor (k: Kernel, w: Wid, value: nat)
      requires k.Valid() && w in k.waits && k.waits[w].list == []
      ensures Valid() && kernel == k && wait == w && View() == P.Initial(value)
    {
      kernel, wait, count, inside := k, w, value, {};
      assert Open(0);
    }

    /** sem_post */
    method Post(cpu: nat, resched: bool) returns (woken: nat)
      requires Valid() && cpu < |kernel.current| && (count < 0 ==> WakeOneOk(kernel.View(), cpu, wait, resched))
      modifies this, kernel
      ensures Valid() && View() == P.Post(old(View()))
      ensures woken == if old(P.Takes(View(), P.OpPost)) then 1 else 0
      ensures count == old(count) + 1
    {
      ghost var k := kernel.View();
      woken := 0;
      count := count + 1;
      if count <= 0 {
        woken := WakeOneOf(kernel, wait, cpu, resched);
        if k.waits[wait].list != [] { FreesKeepsInside(k, wait, inside, 0, NoError, kernel.View()); }
      }
      assert RemoveFirst(k.waits[wait].list);
    }

    /** sem_timedwait, and sem_wait with an infinite timeout, up to where it returns or blocks */
    method TimedWait(cpu: nat, timeoutZero: bool) returns (r: Option<Status>)
      requires Valid() && Busy(kernel.View(), cpu) && kernel.current[cpu] !in inside
      modifies this, kernel
      ensures Valid() && View() == P.Wait(old(View()), old(kernel.current[cpu]), timeoutZero)
      ensures r == if old(count) > 0 then Some(NoError) else if timeoutZero then Some(ErrTimedOut) else None
      ensures count == if r == Some(ErrTimedOut) then old(count) else old(count) - 1
      ensures r != None ==> kernel.View() == old(kernel.View())
    {
      ghost var k := kernel.View();
      var t := kernel.current[cpu];
      count := count - 1;
      if count < 0 {
        if timeoutZero { count := count + 1; return Some(ErrTimedOut); }
        BlockOn(kernel, wait, cpu);
        BlockKeepsInside(k, wait, inside, t, kernel.View());
        inside := inside + {t};
        return None;
      }
      return Some(NoError);
    }

    /** sem_timedwait, from the return of wait_queue_block */
    method WaitReturn(cpu: nat) returns (r: Status)
      requires Valid() && Busy(kernel.View(), cpu) && kernel.current[cpu] in inside
      modifies this
      ensures old(kernel.current[cpu] in View().woken) && Valid()
      ensures View() == P.Return(old(View()), kernel.current[cpu])
      ensures r == old(View().woken[kernel.current[cpu]])
      ensures count == if r == ErrTimedOut then old(count) + 1 else old(count)
    {
      var t := kernel.current[cpu];
      NotWaiting(kernel.View(), wait, cpu);
      ghost var s := View();
      r := kernel.threads[t].blockRet;
      if r == ErrTimedOut { count := count + 1; }
      inside := inside - {t};
      assert Pending(kernel.View(), inside) == s.woken - {t};
    }

    /** sem_trywait */
    method TryWait() returns (ok: bool)
      requires Valid()
      modifies this
      ensures Valid() && View() == P.TryWait(old(View())) && ok == (old(count) > 0)
      ensures count == if ok then old(count) - 1 else old(count)
    {
      if count <= 0 { return false; }
      count := count - 1;
      return true;
    }

    /** wait_queue_timeout_handler for a thread that waits for this semaphore */
    method Expire(t: Tid)
      requires Valid() && t in kernel.waits[wait].list
      modifies kernel
      ensures Valid() && View() == P.Expire(old(View()), old(IndexOf(kernel.waits[wait].list, t)))
    {
      ghost var k := kernel.View();
      TimeOut(kernel, wait, t);
      FreesKeepsInside(k, wait, inside, IndexOf(k.waits[wait].list, t), ErrTimedOut, kernel.View());
    }
  }
}
