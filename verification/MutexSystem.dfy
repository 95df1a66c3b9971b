/** A mutex among everything else threads do: between its own calls any operation of kernel/thread.c
    may come, and the mutex protocol still holds. */
module MutexSystem {
  import opened Wrappers
  import opened SchedSpec
  import opened SchedInv
  import opened SchedIdle
  import opened WaitQueues
  import opened WaitFrames
  import R = SchedRuns
  import P = Mutex

  /** The threads, the fields of a mutex whose queue is `wait`, and the threads inside its wait. */
  datatype Sys = Sys(k: K, wait: Wid, count: int, holder: Option<Tid>, inside: set<Tid>)

  ghost predicate Good(s: Sys) { Whole(s.k) && Inside(s.k, s.wait, s.inside) }

  /** What the mutex protocol sees of it. */
  ghost function View(s: Sys): P.M
    requires Inside(s.k, s.wait, s.inside)
  {
    P.M(s.count, s.holder, s.k.waits[s.wait].list, Pending(s.k, s.inside))
  }

  datatype Act =
    | Acquire(cpu: nat, timeoutZero: bool)
    | Return(cpu: nat)
    | Release(cpu: nat)
    | Expire(t: Tid)
    | Other(op: R.Op)

  /** A CPU's thread acquires unless it waits or holds, comes back if it is inside, and releases if it
      holds; other operations are those that leave the queue and its waiters alone, and reset no waiter. */
  ghost predicate Enabled(s: Sys, a: Act)
    requires Good(s)
  {
    match a
    case Acquire(cpu, _) => Busy(s.k, cpu) && s.k.current[cpu] !in s.inside && s.holder != Some(s.k.current[cpu])
    case Return(cpu) => Busy(s.k, cpu) && s.k.current[cpu] in s.inside
    case Release(cpu) =>
      && cpu < |s.k.current| && s.holder == Some(s.k.current[cpu])
      && (s.count > 1 ==> WakeOneOk(s.k, cpu, s.wait, true))
    case Expire(t) => t in s.k.waits[s.wait].list
    case Other(op) => Harmless(s, op)
  }

  ghost predicate Harmless(s: Sys, op: R.Op)
    requires s.wait in s.k.waits
  {
    R.Enabled(s.k, op) && !Disturbs(s.k, op, s.wait, s.inside) && !(op.OpUnqueue? && op.t in s.inside)
  }

  ghost predicate Defined(s: Sys, a: Act) {
    match a
    case Acquire(cpu, _) => Basic(s.k, cpu) && s.wait in s.k.waits
    case Return(cpu) => Basic(s.k, cpu)
    case Release(cpu) => Basic(s.k, cpu) && WaitersOk(s.k, s.wait)
    case Expire(t) => Unblock.requires(s.k, t, ErrTimedOut)
    case Other(op) => R.Defined(s.k, op)
  }

  /** mutex_acquire_timeout, up to where it returns or blocks */
  function AfterAcquire(s: Sys, cpu: nat, timeoutZero: bool): Sys
    requires Basic(s.k, cpu) && s.wait in s.k.waits
  {
    var t := s.k.current[cpu];
    if s.count + 1 > 1 then
      if timeoutZero then s
      else s.(k := Block(s.k, cpu, s.wait, false), count := s.count + 1, inside := s.inside + {t})
    else s.(count := s.count + 1, holder := Some(t))
  }

  /** mutex_acquire_timeout, from the return of wait_queue_block */
  function AfterReturn(s: Sys, t: Tid): Sys
    requires t in s.k.threads
  {
    var r := s.k.threads[t].blockRet;
    var s1 := s.(inside := s.inside - {t});
    if r == NoError then s1.(holder := Some(t)) else if r == ErrTimedOut then s1.(count := s.count - 1) else s1
  }

  /** mutex_release */
  function AfterRelease(s: Sys, cpu: nat): Sys
    requires Basic(s.k, cpu) && WaitersOk(s.k, s.wait)
  {
    var k' := if s.count - 1 >= 1 then WakeOne(s.k, cpu, s.wait, true, NoError) else s.k;
    s.(k := k', count := s.count - 1, holder := None)
  }

  ghost function After(s: Sys, a: Act): Sys
    requires Defined(s, a)
  {
    match a
    case Acquire(cpu, timeoutZero) => AfterAcquire(s, cpu, timeoutZero)
    case Return(cpu) => AfterReturn(s, s.k.current[cpu])
    case Release(cpu) => AfterRelease(s, cpu)
    case Expire(t) => s.(k := Unblock(s.k, t, ErrTimedOut))
    case Other(op) => s.(k := R.After(s.k, op))
  }

  /** The protocol step an action takes, none for the other operations. */
  ghost function StepOf(s: Sys, a: Act): Option<P.Op>
    requires Defined(s, a)
  {
    match a
    case Acquire(cpu, timeoutZero) => Some(P.OpAcquire(s.k.current[cpu], timeoutZero))
    case Return(cpu) => Some(P.OpReturn(s.k.current[cpu]))
    case Release(cpu) => Some(P.OpRelease(s.k.current[cpu]))
    case Expire(t) => Some(P.OpExpire(t))
    case Other(_) => None
  }

  /** The action takes its step of the protocol, and the others take none. */
  ghost predicate Refines(s: Sys, a: Act)
    requires Good(s) && Defined(s, a)
  {
    && Good(After(s, a))
    && match StepOf(s, a)
       case None => View(After(s, a)) == View(s)
       case Some(op) => P.Enabled(View(s), op) && View(After(s, a)) == P.After(View(s), op)
  }

  lemma Running(k: K, cpu: nat)
    requires Whole(k) && cpu < |k.current|
    ensures Basic(k, cpu) && k.threads[k.current[cpu]].state == SchedSpec.Running
    ensures forall w | w in k.waits :: k.current[cpu] !in k.waits[w].list && WaitersOk(k, w)
  {
    assert Open(0);
    CurrentIs(k, cpu, {});
    forall w | w in k.waits ensures k.current[cpu] !in k.waits[w].list && WaitersOk(k, w) {
      RunnerNotWaiting(k, w, cpu);
      WaitersAre(k, w, {});
    }
  }

  lemma Blocking(k: K, cpu: nat, wait: Wid, inside: set<Tid>)
    requires Whole(k) && Inside(k, wait, inside) && Busy(k, cpu) && k.current[cpu] !in inside
    ensures Basic(k, cpu)
    ensures var k', t := Block(k, cpu, wait, false), k.current[cpu];
            && Whole(k') && Inside(k', wait, inside + {t})
            && k'.waits[wait].list == k.waits[wait].list + [t] && Pending(k', inside + {t}) == Pending(k, inside)
  {
    assert Open(0);
    BlockMoves(k, cpu, wait);
    BlockKeeps(k, cpu, wait, false);
    BlockKeepsInside(k, wait, inside, k.current[cpu], Block(k, cpu, wait, false));
  }

  lemma AcquireRefines(s: Sys, cpu: nat, timeoutZero: bool)
    requires Good(s) && Busy(s.k, cpu) && s.k.current[cpu] !in s.inside
    ensures Basic(s.k, cpu) && Good(AfterAcquire(s, cpu, timeoutZero))
    ensures View(AfterAcquire(s, cpu, timeoutZero)) == P.Acquire(View(s), s.k.current[cpu], timeoutZero)
    ensures s.k.current[cpu] !in View(s).queue && s.k.current[cpu] !in View(s).woken
  {
    Running(s.k, cpu);
    if s.count + 1 > 1 && !timeoutZero { Blocking(s.k, cpu, s.wait, s.inside); }
  }

  lemma ReturnRefines(s: Sys, t: Tid)
    requires Good(s) && t in s.inside && s.k.threads[t].state != Blocked && t !in s.k.waits[s.wait].list
    ensures Good(AfterReturn(s, t)) && t in View(s).woken && View(s).woken[t] == s.k.threads[t].blockRet
    ensures View(AfterReturn(s, t)) == P.Return(View(s), t)
  {
    assert Pending(s.k, s.inside - {t}) == Pending(s.k, s.inside) - {t};
  }

  /** A hand-over to the head of the queue, if anybody waits. */
  lemma Waking(k: K, cpu: nat, wait: Wid, inside: set<Tid>)
    requires Whole(k) && Inside(k, wait, inside) && cpu < |k.current| && WakeOneOk(k, cpu, wait, true)
    ensures Basic(k, cpu) && WaitersOk(k, wait)
    ensures var k', q := WakeOne(k, cpu, wait, true, NoError), k.waits[wait].list;
            && Whole(k') && Inside(k', wait, inside)
            && k'.waits[wait].list == (if q == [] then [] else q[1..])
            && Pending(k', inside) == if q == [] then Pending(k, inside) else Pending(k, inside)[q[0] := NoError]
  {
    assert Open(0);
    WakeOneKeepsIff(k, cpu, wait, true, NoError);
    var q := k.waits[wait].list;
    if q != [] {
      WakeMoves(k, cpu, wait, true, NoError);
      QueueDistinct(k, wait);
      FreesKeepsInside(k, wait, inside, 0, NoError, WakeOne(k, cpu, wait, true, NoError));
      assert RemoveAt(q, 0) == q[1..];
    }
  }

  lemma ReleaseRefines(s: Sys, cpu: nat)
    requires Good(s) && cpu < |s.k.current| && (s.count > 1 ==> WakeOneOk(s.k, cpu, s.wait, true))
    ensures Basic(s.k, cpu) && WaitersOk(s.k, s.wait) && Good(AfterRelease(s, cpu))
    ensures View(AfterRelease(s, cpu)) == P.Release(View(s))
  {
    Running(s.k, cpu);
    if s.count - 1 >= 1 {
      Waking(s.k, cpu, s.wait, s.inside);
      HandsOver(s, WakeOne(s.k, cpu, s.wait, true, NoError));
    }
  }

  lemma HandsOver(s: Sys, k': K)
    requires Inside(s.k, s.wait, s.inside) && Inside(k', s.wait, s.inside) && s.count - 1 >= 1
    requires var q := s.k.waits[s.wait].list;
             && k'.waits[s.wait].list == (if q == [] then [] else q[1..])
             && Pending(k', s.inside) == if q == [] then Pending(s.k, s.inside) else Pending(s.k, s.inside)[q[0] := NoError]
    ensures View(s.(k := k', count := s.count - 1, holder := None)) == P.Release(View(s))
  {
  }

  lemma ExpireRefines(s: Sys, t: Tid)
    requires Good(s) && t in s.k.waits[s.wait].list
    ensures Unblock.requires(s.k, t, ErrTimedOut) && Good(s.(k := Unblock(s.k, t, ErrTimedOut)))
    ensures View(s.(k := Unblock(s.k, t, ErrTimedOut))) == P.Expire(View(s), IndexOf(s.k.waits[s.wait].list, t))
  {
    assert Open(0);
    ExpireMoves(s.k, t, s.wait);
    UnblockKeeps(s.k, t, ErrTimedOut);
    QueueDistinct(s.k, s.wait);
    FreesKeepsInside(s.k, s.wait, s.inside, IndexOf(s.k.waits[s.wait].list, t), ErrTimedOut, Unblock(s.k, t, ErrTimedOut));
  }

  lemma OtherRefines(s: Sys, op: R.Op)
    requires Good(s) && Harmless(s, op)
    ensures R.Defined(s.k, op) && Good(s.(k := R.After(s.k, op))) && View(s.(k := R.After(s.k, op))) == View(s)
  {
    assert Open(0);
    StepUndisturbedIff(s.k, op, s.wait, s.inside);
    R.StepKeeps(s.k, op, R.After(s.k, op));
  }

  /** Every action takes its step of the protocol or none. */
  lemma ActRefines(s: Sys, a: Act)
    requires Good(s) && Enabled(s, a)
    ensures Defined(s, a) && Refines(s, a)
  {
    match a
    case Acquire(cpu, z) => AcquireRefines(s, cpu, z);
    case Return(cpu) => Running(s.k, cpu); ReturnRefines(s, s.k.current[cpu]);
    case Release(cpu) => ReleaseRefines(s, cpu);
    case Expire(t) => ExpireRefines(s, t);
    case Other(op) => OtherRefines(s, op);
  }

  lemma ActKeeps(s: Sys, a: Act, s': Sys)
    requires Good(s) && P.Inv(View(s)) && Moves(s, a, s')
    ensures Good(s') && P.Inv(View(s'))
  {
    ActRefines(s, a);
    if StepOf(s, a).Some? { P.StepKeeps(View(s), StepOf(s, a).value); }
  }

  /** A run from a mutex nobody uses. */
  ghost predicate IsRun(ss: seq<Sys>, acts: seq<Act>) {
    Chain(ss, acts) && Good(ss[0]) && View(ss[0]) == P.INITIAL
  }

  ghost predicate Chain(ss: seq<Sys>, acts: seq<Act>) {
    |ss| == |acts| + 1 && forall i {:trigger acts[i]} | 0 <= i < |acts| :: Moves(ss[i], acts[i], ss[i + 1])
  }

  /** The action may come next, and `s'` is what it leaves. */
  ghost predicate Moves(s: Sys, a: Act, s': Sys) {
    Good(s) ==> Enabled(s, a) && (Defined(s, a) ==> s' == After(s, a))
  }

  /** Whatever the scheduler and other threads do meanwhile, the mutex has at most one owner and its
      count is owner + blocked + timed out but not yet back, and the scheduler keeps its invariant. */
  lemma {:induction false} RunKeeps(ss: seq<Sys>, acts: seq<Act>, i: nat)
    requires IsRun(ss, acts) && i < |ss|
    ensures Good(ss[i]) && P.Inv(View(ss[i]))
  {
    if i == 0 {
      P.InitialHolds();
    } else {
      RunKeeps(ss, acts, i - 1);
      RunMoves(ss, acts, i - 1);
    }
  }

  lemma RunMoves(ss: seq<Sys>, acts: seq<Act>, i: nat)
    requires Chain(ss, acts) && i < |acts| && Good(ss[i]) && P.Inv(View(ss[i]))
    ensures Good(ss[i + 1]) && P.Inv(View(ss[i + 1]))
  {
    var s, a, s' := ss[i], acts[i], ss[i + 1];
    assert Moves(s, a, s');
    ActKeeps(s, a, s');
  }

  /** Nobody gets the mutex while another thread holds it. */
  lemma MutualExclusion(ss: seq<Sys>, acts: seq<Act>, i: nat, t: Tid)
    requires IsRun(ss, acts) && i < |ss| && ss[i].holder.Some?
    ensures Good(ss[i]) && (t in Pending(ss[i].k, ss[i].inside) ==> Pending(ss[i].k, ss[i].inside)[t] != NoError)
  {
    RunKeeps(ss, acts, i);
    P.HolderAlone(View(ss[i]));
    assert t !in P.Granted(View(ss[i]));
  }

  // ------------------------------------------------------------ what callers are told

  /** What the call returns with this action, if it returns. */
  ghost function Result(s: Sys, a: Act): Option<Status>
    requires Defined(s, a)
  {
    match a
    case Acquire(_, timeoutZero) =>
      if s.count < 1 then Some(NoError) else if timeoutZero then Some(ErrTimedOut) else None
    case Return(cpu) => Some(s.k.threads[s.k.current[cpu]].blockRet)
    case _ => None
  }

  /** The call of thread `t` returns with success: it has the mutex. */
  ghost predicate Gets(s: Sys, a: Act, t: Tid) {
    Defined(s, a) && Result(s, a) == Some(NoError) && s.k.current[a.cpu] == t
  }

  /** Who is told so is the holder; who is told otherwise is not, and leaves the holder and the count as
      they were before the call. */
  lemma ToldIsHolder(s: Sys, a: Act)
    requires Good(s) && P.Inv(View(s)) && Enabled(s, a) && Defined(s, a)
    ensures forall t: Tid :: Gets(s, a, t) ==> After(s, a).holder == Some(t) && After(s, a).count >= 1
    ensures a.Acquire? && Result(s, a) == Some(NoError) ==> After(s, a).count == 1 && After(s, a).k == s.k
    ensures a.Acquire? && Result(s, a) == Some(ErrTimedOut) ==> After(s, a) == s
    ensures a.Acquire? && Result(s, a) == None ==> After(s, a).holder == s.holder && After(s, a).count == s.count + 1
    ensures a.Return? && Result(s, a) == Some(ErrTimedOut) ==> After(s, a).holder == s.holder && After(s, a).count == s.count - 1
  {
    if a.Return? { ReturnCounts(s, a.cpu); }
    CountCovers(View(s));
  }

  lemma ReturnCounts(s: Sys, cpu: nat)
    requires Good(s) && P.Inv(View(s)) && Enabled(s, Return(cpu))
    ensures Basic(s.k, cpu) && s.k.threads[s.k.current[cpu]].blockRet == NoError ==> s.count >= 1
  {
    Running(s.k, cpu);
    var t := s.k.current[cpu];
    if s.k.threads[t].blockRet == NoError { assert t in P.Owners(View(s)); }
  }

  lemma CountCovers(m: P.M)
    requires P.Inv(m)
    ensures m.count >= 0 && (m.holder.Some? ==> m.count >= 1)
  {
    if m.holder.Some? { assert m.holder.value in P.Owners(m); }
  }

  /** While a thread holds the mutex nobody else is told to have it, and only its release ends that. */
  lemma HolderStays(s: Sys, a: Act, t: Tid)
    requires Good(s) && P.Inv(View(s)) && Enabled(s, a) && s.holder == Some(t)
    ensures forall u: Tid :: !Gets(s, a, u)
    ensures Defined(s, a) && (!a.Release? ==> After(s, a).holder == Some(t))
  {
    ActRefines(s, a);
    CountCovers(View(s));
    if a.Return? { NotGranted(s, a.cpu); }
  }

  lemma NotGranted(s: Sys, cpu: nat)
    requires Good(s) && P.Inv(View(s)) && Enabled(s, Return(cpu)) && s.holder.Some?
    ensures Basic(s.k, cpu) && s.k.threads[s.k.current[cpu]].blockRet != NoError
  {
    Running(s.k, cpu);
    P.HolderAlone(View(s));
    assert s.k.current[cpu] !in P.Granted(View(s));
  }

  ghost predicate NoRelease(acts: seq<Act>, i: nat, j: nat) {
    forall k {:trigger acts[k]} | i < k < j && k < |acts| :: !acts[k].Release?
  }

  /** One action of a run. */
  lemma RunStep(ss: seq<Sys>, acts: seq<Act>, i: nat)
    requires IsRun(ss, acts) && i < |acts|
    ensures Good(ss[i]) && P.Inv(View(ss[i])) && Enabled(ss[i], acts[i])
    ensures Defined(ss[i], acts[i]) && ss[i + 1] == After(ss[i], acts[i])
  {
    RunKeeps(ss, acts, i);
    assert Moves(ss[i], acts[i], ss[i + 1]);
    ActRefines(ss[i], acts[i]);
  }

  lemma GetsHolds(ss: seq<Sys>, acts: seq<Act>, i: nat, t: Tid)
    requires IsRun(ss, acts) && i < |acts| && Gets(ss[i], acts[i], t)
    ensures ss[i + 1].holder == Some(t)
  {
    RunStep(ss, acts, i);
    ToldIsHolder(ss[i], acts[i]);
  }

  lemma HeldStep(ss: seq<Sys>, acts: seq<Act>, i: nat, t: Tid)
    requires IsRun(ss, acts) && i < |acts| && ss[i].holder == Some(t)
    ensures forall u: Tid :: !Gets(ss[i], acts[i], u)
    ensures !acts[i].Release? ==> ss[i + 1].holder == Some(t)
  {
    RunStep(ss, acts, i);
    HolderStays(ss[i], acts[i], t);
  }

  lemma {:induction false} HoldsOn(ss: seq<Sys>, acts: seq<Act>, i: nat, j: nat, t: Tid)
    requires IsRun(ss, acts) && i < j <= |acts| && Gets(ss[i], acts[i], t) && NoRelease(acts, i, j)
    ensures ss[j].holder == Some(t)
    decreases j
  {
    if j == i + 1 {
      GetsHolds(ss, acts, i, t);
    } else {
      LessReleases(acts, i, j);
      HoldsOn(ss, acts, i, j - 1, t);
      HeldStep(ss, acts, j - 1, t);
    }
  }

  lemma LessReleases(acts: seq<Act>, i: nat, j: nat)
    requires i + 1 < j <= |acts| && NoRelease(acts, i, j)
    ensures NoRelease(acts, i, j - 1) && !acts[j - 1].Release?
  {
  }

  /** From the return of a call of thread `t` with success until a release, no call returns with success,
      whatever else the threads and the scheduler do. */
  lemma OneAtATime(ss: seq<Sys>, acts: seq<Act>, i: nat, j: nat, t: Tid, u: Tid)
    requires IsRun(ss, acts) && i < j < |acts| && Gets(ss[i], acts[i], t) && NoRelease(acts, i, j)
    ensures !Gets(ss[j], acts[j], u)
  {
    HoldsOn(ss, acts, i, j, t);
    HeldStep(ss, acts, j, t);
  }

  // ----------------------------------------------------------- the exception

  /** A thread that is reset starts from its entry and does not come back from a wait it was inside. */
  ghost function Reset(s: Sys, t: Tid): Sys
    requires Unqueue.requires(s.k, t)
  {
    s.(k := Unqueue(s.k, t), inside := s.inside - {t})
  }

  /** So what it added to the count stays: the protocol's invariant survives a reset exactly when the
      thread was not inside. */
  lemma ResetKeepsIff(s: Sys, t: Tid)
    requires Good(s) && P.Inv(View(s)) && R.Enabled(s.k, R.OpUnqueue(t))
    ensures Unqueue.requires(s.k, t) && Good(Reset(s, t))
    ensures P.Inv(View(Reset(s, t))) <==> t !in s.inside
  {
    if t in s.inside {
      ResetForgets(s, t);
      NeverBack(View(s), t);
    } else {
      OtherRefines(s, R.OpUnqueue(t));
      assert s.inside - {t} == s.inside;
    }
  }

  lemma ResetForgets(s: Sys, t: Tid)
    requires Good(s) && R.Enabled(s.k, R.OpUnqueue(t)) && t in s.inside
    ensures Unqueue.requires(s.k, t) && Good(Reset(s, t))
    ensures t in View(s).woken && View(Reset(s, t)) == View(s).(woken := View(s).woken - {t})
  {
    Resetting(s.k, t, s.wait, s.inside);
    assert Pending(Unqueue(s.k, t), s.inside - {t}) == Pending(s.k, s.inside) - {t};
    ReadyNotWaiting(s.k, s.wait, t);
  }

  lemma ReadyNotWaiting(k: K, w: Wid, t: Tid)
    requires Whole(k) && w in k.waits && t in k.threads && k.threads[t].state != Blocked
    ensures t !in k.waits[w].list
  {
    assert Open(0);
    assert WaitOk(k, w, {});
  }

  lemma NeverBack(m: P.M, t: Tid)
    requires P.Inv(m) && t in m.woken
    ensures !P.Inv(m.(woken := m.woken - {t}))
  {
    var m' := m.(woken := m.woken - {t});
    OneLess(m, t, m');
    assert |P.Owners(m')| + |P.Late(m')| == |P.Owners(m)| + |P.Late(m)| - 1;
  }

  lemma OneLess(m: P.M, t: Tid, m': P.M)
    requires t in m.woken && m.holder != Some(t) && m' == m.(woken := m.woken - {t})
    ensures (t in P.Owners(m) && P.Owners(m') == P.Owners(m) - {t} && P.Late(m') == P.Late(m))
         || (t in P.Late(m) && P.Late(m') == P.Late(m) - {t} && P.Owners(m') == P.Owners(m))
  {
    if m.woken[t] == NoError {
      assert P.Granted(m') == P.Granted(m) - {t};
      assert P.Late(m') == P.Late(m);
    } else {
      assert P.Granted(m') == P.Granted(m);
      assert P.Late(m') == P.Late(m) - {t};
    }
  }

  lemma Resetting(k: K, t: Tid, wait: Wid, inside: set<Tid>)
    requires Whole(k) && Inside(k, wait, inside) && R.Enabled(k, R.OpUnqueue(t)) && t in inside
    ensures Unqueue.requires(k, t)
    ensures var k' := Unqueue(k, t);
            && Whole(k') && Inside(k', wait, inside) && k'.waits[wait] == k.waits[wait]
            && Pending(k', inside) == Pending(k, inside)[t := NoError]
  {
    assert Open(0);
    UnqueueKeepsIff(k, t);
    ResetPending(k, t, inside);
    assert WaitOk(k, wait, {});
    ResetInside(k, t, wait, inside);
  }

  lemma ResetInside(k: K, t: Tid, wait: Wid, inside: set<Tid>)
    requires Unqueue.requires(k, t) && Inside(k, wait, inside) && NoJoiner(k, t)
    requires k.waits[wait].count == |k.waits[wait].list| && k.threads[t].state == Ready
    ensures Inside(Unqueue(k, t), wait, inside) && Unqueue(k, t).waits[wait] == k.waits[wait]
  {
  }

  /** Nor can its record be trusted any more: it says that a wait that timed out was granted, which
      makes a second owner exactly when the mutex has one. */
  lemma ResetGrantsIff(s: Sys, t: Tid)
    requires Good(s) && P.Inv(View(s)) && R.Enabled(s.k, R.OpUnqueue(t))
    requires t in s.inside && s.k.threads[t].blockRet != NoError
    ensures Unqueue.requires(s.k, t) && Good(s.(k := Unqueue(s.k, t)))
    ensures var m, m' := View(s), View(s.(k := Unqueue(s.k, t)));
            && P.Owners(m') == P.Owners(m) + {t} && t !in P.Owners(m)
            && (P.Inv(m') <==> P.Owners(m) == {})
  {
    Resetting(s.k, t, s.wait, s.inside);
    GrantIff(View(s), t);
  }

  lemma GrantIff(m: P.M, t: Tid)
    requires P.Inv(m) && t in m.woken && m.woken[t] != NoError
    ensures var m' := m.(woken := m.woken[t := NoError]);
            && P.Owners(m') == P.Owners(m) + {t} && t !in P.Owners(m)
            && (P.Inv(m') <==> P.Owners(m) == {})
  {
    var m' := m.(woken := m.woken[t := NoError]);
    GrantSets(m, t, m');
    assert |P.Owners(m')| == |P.Owners(m)| + 1 && |P.Late(m')| == |P.Late(m)| - 1;
    if P.Owners(m) == {} {
      assert forall u | u in m'.woken :: u in m.woken;
    }
  }

  lemma GrantSets(m: P.M, t: Tid, m': P.M)
    requires t in m.woken && m.woken[t] != NoError && m.holder != Some(t) && m' == m.(woken := m.woken[t := NoError])
    ensures P.Owners(m') == P.Owners(m) + {t} && t !in P.Owners(m)
    ensures P.Late(m') == P.Late(m) - {t} && t in P.Late(m)
  {
    assert P.Granted(m') == P.Granted(m) + {t};
  }

  /** Thread 1 runs; thread 2 waited, timed out and is ready. */
  lemma LateThread() returns (k: K)
    ensures Inv(k) && k.threads.Keys == {0, 1, 2} && k.waits == map[Object(0) := WaitQueue([], 0)]
    ensures k.threads[2].state == Ready && !k.threads[2].idle && k.threads[2].blockRet == ErrTimedOut
  {
    var idle := Thread(Ready, IDLE_PRIORITY, true, 0, -1, None, NoError, 0, true, false);
    var one := Thread(SchedSpec.Running, 16, false, -1, 0, None, NoError, 0, false, false);
    var two := Thread(Ready, 16, false, -1, -1, None, ErrTimedOut, 0, false, false);
    var rq: seq<seq<Tid>> := seq(NUM_PRIORITIES, p => if p == 16 then [2] else []);
    k := K(map[0 := idle, 1 := one, 2 := two], rq, {16}, map[Object(0) := WaitQueue([], 0)], [1], [0]);
    assert rq[16][0] == 2 && k.idle[0] == 0;
    forall p: nat | p < NUM_PRIORITIES ensures QueueOk(k, p, {}) { assert rq[p] == if p == 16 then [2] else []; }
    assert InPlace(k, 0) && InPlace(k, 1) && InPlace(k, 2);
  }

  /** Thread 1 holds the mutex, and thread 2 waited for it. */
  lemma LateWaiter() returns (s: Sys)
    ensures Good(s) && P.Inv(View(s)) && R.Enabled(s.k, R.OpUnqueue(2)) && s.inside == {2}
    ensures s.holder == Some(1) && s.k.threads[2].blockRet == ErrTimedOut
  {
    var k := LateThread();
    s := Sys(k, Object(0), 2, Some(1), {2});
    assert Open(0);
    assert Pending(k, {2}) == map[2 := ErrTimedOut];
    HeldOnce(View(s));
  }

  lemma HeldOnce(m: P.M)
    requires m == P.M(2, Some(1), [], map[2 := ErrTimedOut])
    ensures P.Inv(m)
  {
    assert P.Granted(m) == {} && P.Owners(m) == {1} && P.Late(m) == {2};
  }

  /** The reset of thread 2 leaves its count behind, and two owners on record. */
  lemma ResetExample()
    ensures exists s: Sys :: Good(s) && P.Inv(View(s)) && R.Enabled(s.k, R.OpUnqueue(2)) && Unqueue.requires(s.k, 2)
              && Good(Reset(s, 2)) && !P.Inv(View(Reset(s, 2)))
              && Good(s.(k := Unqueue(s.k, 2))) && {1, 2} <= P.Owners(View(s.(k := Unqueue(s.k, 2))))
  {
    var s := LateWaiter();
    ResetKeepsIff(s, 2);
    ResetGrantsIff(s, 2);
    assert 1 in P.Owners(View(s));
  }
}
