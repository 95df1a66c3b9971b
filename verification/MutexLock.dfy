/** kernel/mutex.c on top of kernel/thread.c: the code, run by the scheduler, takes exactly the
    steps of the mutex protocol. */
module MutexLock {
  import opened Wrappers
  import opened SchedSpec
  import opened SchedInv
  import opened SchedIdle
  import opened Sched
  import opened WaitQueues
  import P = Mutex
  import S = MutexSystem

  class MutexT {
    const kernel: Kernel
    const wait: Wid
    var count: int
    var holder: Option<Tid>
    ghost var inside: set<Tid>

    ghost function State(): S.Sys
      reads this, kernel
    {
      S.Sys(kernel.View(), wait, count, holder, inside)
    }

    ghost predicate Valid()
      reads this, kernel
    {
      S.Good(State())
    }

    ghost function View(): P.M
      requires Valid()
      reads this, kernel
    {
      S.View(State())
    }

    /** The call was action `a` of the system, which takes step `op` of the protocol. */
    twostate predicate Took(a: S.Act, op: P.Op)
      reads this, kernel
    {
      && S.Defined(old(State()), a) && State() == S.After(old(State()), a)
      && old(Valid()) && Valid() && P.Enabled(old(View()), op) && View() == P.After(old(View()), op)
    }

    /** mutex_init */
    constructor (k: Kernel, w: Wid)
      requires k.Valid() && w in k.waits && k.waits[w].list == []
      ensures Valid() && kernel == k && wait == w && View() == P.INITIAL
    {
      kernel, wait, count, holder, inside := k, w, 0, None, {};
      assert Open(0);
    }

    method Enter(cpu: nat, timeoutZero: bool) returns (r: Option<Status>)
      requires Whole(kernel.View()) && Busy(kernel.View(), cpu) && S.Defined(State(), S.Acquire(cpu, timeoutZero))
      modifies this, kernel
      ensures State() == S.After(old(State()), S.Acquire(cpu, timeoutZero))
      ensures r == if old(count) < 1 then Some(NoError) else if timeoutZero then Some(ErrTimedOut) else None
    {
      var t := kernel.current[cpu];
      count := count + 1;
      if count > 1 {
        if timeoutZero { count := count - 1; return Some(ErrTimedOut); }
        BlockOn(kernel, wait, cpu);
        inside := inside + {t};
        return None;
      }
      holder := Some(t);
      return Some(NoError);
    }

    /** mutex_acquire_timeout, up to where it returns (with what it returns) or blocks */
    method AcquireTimeout(cpu: nat, timeoutZero: bool) returns (r: Option<Status>)
      requires Valid() && S.Enabled(State(), S.Acquire(cpu, timeoutZero))
      modifies this, kernel
      ensures Took(S.Acquire(cpu, timeoutZero), P.OpAcquire(old(kernel.current[cpu]), timeoutZero))
      ensures r == if old(count) < 1 then Some(NoError) else if timeoutZero then Some(ErrTimedOut) else None
      ensures r == Some(NoError) ==> holder == Some(old(kernel.current[cpu])) && count == old(count) + 1 && kernel.View() == old(kernel.View())
      ensures r == Some(NoError) && old(P.Inv(View())) ==> count == 1
      ensures r == Some(ErrTimedOut) ==> State() == old(State())
      ensures r == None ==> holder == old(holder) && count == old(count) + 1
    {
      S.ActRefines(State(), S.Acquire(cpu, timeoutZero));
      ghost var m := View();
      r := Enter(cpu, timeoutZero);
      if P.Inv(m) { S.CountCovers(m); }
    }

    /** mutex_acquire_timeout, from the return of wait_queue_block */
    method AcquireReturn(cpu: nat) returns (r: Status)
      requires Valid() && S.Enabled(State(), S.Return(cpu))
      modifies this
      ensures Took(S.Return(cpu), P.OpReturn(kernel.current[cpu]))
      ensures old(kernel.current[cpu] in View().woken) && r == old(View().woken[kernel.current[cpu]])
      ensures r == NoError ==> holder == Some(kernel.current[cpu]) && count == old(count)
      ensures r == ErrTimedOut ==> holder == old(holder) && count == old(count) - 1
    {
      S.ActRefines(State(), S.Return(cpu));
      var t := kernel.current[cpu];
      r := kernel.threads[t].blockRet;
      if r != NoError { if r == ErrTimedOut { count := count - 1; } } else { holder := Some(t); }
      inside := inside - {t};
    }

    method Leave(cpu: nat)
      requires Whole(kernel.View()) && S.Defined(State(), S.Release(cpu))
      requires count > 1 ==> WakeOneOk(kernel.View(), cpu, wait, true)
      modifies this, kernel
      ensures State() == S.After(old(State()), S.Release(cpu))
    {
      holder := None;
      count := count - 1;
      if count >= 1 { var _ := WakeOneOf(kernel, wait, cpu, true); }
    }

    /** mutex_release */
    method Release(cpu: nat)
      requires Valid() && S.Enabled(State(), S.Release(cpu))
      modifies this, kernel
      ensures Took(S.Release(cpu), P.OpRelease(old(kernel.current[cpu])))
      ensures holder == None && count == old(count) - 1
    {
      S.ActRefines(State(), S.Release(cpu));
      Leave(cpu);
    }

    /** wait_queue_timeout_handler for a thread that waits for this mutex */
    method Expire(t: Tid)
      requires Valid() && t in kernel.waits[wait].list
      modifies kernel
      ensures Took(S.Expire(t), P.OpExpire(t))
    {
      S.ActRefines(State(), S.Expire(t));
      TimeOut(kernel, wait, t);
    }
  }
}
