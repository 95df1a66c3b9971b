/** The scheduler state of kernel/thread.c as a value: thread records, run queues with
    their bitmap, wait queues and the thread each CPU runs. */
module SchedSpec {
  import opened Wrappers

  type Tid = nat
  const NUM_PRIORITIES: nat := 32
  const IDLE_PRIORITY: nat := 0

  datatype TState = Suspended | Ready | Running | Blocked | Sleeping | Death
  datatype Status = NoError | ErrTimedOut | ErrNotBlocked | ErrThreadDetached

  /** Wait queues: the one every thread keeps for its joiners, and those of other objects. */
  datatype Wid = Retcode(t: Tid) | Object(id: nat)

  datatype Thread = Thread(
    state: TState, prio: nat, idle: bool, pinned: int, currCpu: int,
    blockedOn: Option<Wid>, blockRet: Status, quantum: int, detached: bool, realTime: bool)

  datatype WaitQueue = WaitQueue(list: seq<Tid>, count: int)

  datatype K = K(
    threads: map<Tid, Thread>, rq: seq<seq<Tid>>, bits: set<nat>,
    waits: map<Wid, WaitQueue>, current: seq<Tid>, idle: seq<Tid>)

  // ---------------------------------------------------------- the invariant

  /** CPUs, their idle threads, which are pinned to them, and their current threads, which may run there. */
  ghost predicate Cpus(k: K) {
    && |k.rq| == NUM_PRIORITIES && |k.current| == |k.idle|
    && (forall c | 0 <= c < |k.idle| :: k.idle[c] in k.threads && k.threads[k.idle[c]].idle && k.threads[k.idle[c]].pinned == c)
    && Distinct(k.idle)
    && (forall c | 0 <= c < |k.current| ::
          k.current[c] in k.threads && k.threads[k.current[c]].currCpu == c && Eligible(k, k.current[c], c))
  }

  /** Thread `t` is in the run queue its record says, and in no other. */
  ghost predicate InPlace(k: K, t: Tid)
    requires t in k.threads && |k.rq| == NUM_PRIORITIES
  {
    var th := k.threads[t];
    && th.prio < NUM_PRIORITIES
    && (th.state == Ready && !th.idle ==> t in k.rq[th.prio])
    && (th.state == Blocked ==> th.blockedOn.Some? && th.blockedOn.value in k.waits && t in k.waits[th.blockedOn.value].list)
    && (th.state != Blocked ==> th.blockedOn.None?)
    && (th.idle ==> th.state == Ready || th.state == Running)
    && (th.state == Running ==> 0 <= th.currCpu < |k.current| && k.current[th.currCpu] == t)
    && (th.idle ==> exists c :: 0 <= c < |k.idle| && k.idle[c] == t && (th.state == Running ==> th.currCpu == c))
  }

  /** The run queue of priority `p` holds distinct ready threads of that priority. */
  ghost predicate QueueOk(k: K, p: nat, l: set<Tid>)
    requires p < |k.rq|
  {
    && Distinct(k.rq[p]) && (k.rq[p] != [] ==> p in k.bits)
    && forall i | 0 <= i < |k.rq[p]| ::
         var t := k.rq[p][i];
         t in k.threads && t !in l && k.threads[t].state == Ready && !k.threads[t].idle && k.threads[t].prio == p
  }

  ghost predicate WaitOk(k: K, w: Wid, l: set<Tid>)
    requires w in k.waits
  {
    var q := k.waits[w];
    && q.count == |q.list| && Distinct(q.list)
    && forall i | 0 <= i < |q.list| ::
         var t := q.list[i];
         t in k.threads && t !in l && k.threads[t].state == Blocked && k.threads[t].blockedOn == Some(w)
  }

  /** The invariant in the middle of an operation: the threads in `l` are on no queue and
      their state is not settled yet, and the CPUs in `v` have no running thread. */
  ghost predicate InvBut(k: K, l: set<Tid>, v: set<nat>) {
    && Cpus(k)
    && (forall p: nat | p < NUM_PRIORITIES :: QueueOk(k, p, l))
    && (forall w | w in k.waits :: WaitOk(k, w, l))
    && (forall t | t in k.threads && t !in l :: InPlace(k, t))
    && (forall c: nat | c < |k.current| && c !in v :: k.current[c] !in l && k.threads[k.current[c]].state == Running)
    && (forall t | t in k.threads && t !in l && k.threads[t].state == Running :: k.threads[t].currCpu !in v)
    && (forall b | b in k.bits :: b < NUM_PRIORITIES)
  }

  ghost predicate Inv(k: K) { InvBut(k, {}, {}) }

  // ------------------------------------------------------------- primitives

  function SetThread(k: K, t: Tid, th: Thread): K { k.(threads := k.threads[t := th]) }

  function InsertHead(k: K, t: Tid): K
    requires t in k.threads && k.threads[t].prio < |k.rq|
  {
    var p := k.threads[t].prio;
    k.(rq := k.rq[p := [t] + k.rq[p]], bits := k.bits + {p})
  }

  function InsertTail(k: K, t: Tid): K
    requires t in k.threads && k.threads[t].prio < |k.rq|
  {
    var p := k.threads[t].prio;
    k.(rq := k.rq[p := k.rq[p] + [t]], bits := k.bits + {p})
  }

  /** A thread in limbo may have its record rewritten. */
  lemma LimboUpdate(k: K, t: Tid, th: Thread, l: set<Tid>, v: set<nat>)
    requires InvBut(k, l, v) && t in l && t in k.threads && !th.idle && !k.threads[t].idle
    requires th.currCpu == k.threads[t].currCpu && th.pinned == k.threads[t].pinned
    ensures InvBut(SetThread(k, t, th), l, v)
  {
    var k' := SetThread(k, t, th);
    forall p: nat | p < NUM_PRIORITIES ensures QueueOk(k', p, l) { assert QueueOk(k, p, l); }
    forall w | w in k'.waits ensures WaitOk(k', w, l) { assert WaitOk(k, w, l); }
    forall u | u in k'.threads && u !in l ensures InPlace(k', u) { assert InPlace(k, u); }
  }

  lemma InsertSettles(k: K, t: Tid, l: set<Tid>, v: set<nat>, head: bool)
    requires InvBut(k, l, v) && t in l && t in k.threads
    requires var th := k.threads[t]; th.state == Ready && !th.idle && th.prio < NUM_PRIORITIES && th.blockedOn.None?
    ensures InvBut(if head then InsertHead(k, t) else InsertTail(k, t), l - {t}, v)
  {
    var k' := if head then InsertHead(k, t) else InsertTail(k, t);
    var q := k.threads[t].prio;
    assert t in k'.rq[q] by { if head { assert k'.rq[q][0] == t; } else { assert k'.rq[q][|k.rq[q]|] == t; } }
    forall p: nat | p < NUM_PRIORITIES ensures QueueOk(k', p, l - {t}) { assert QueueOk(k, p, l); }
    forall w | w in k'.waits ensures WaitOk(k', w, l - {t}) { assert WaitOk(k, w, l); }
    forall u | u in k'.threads && u !in l - {t} ensures InPlace(k', u) {
      if u != t { assert InPlace(k, u); }
    }
  }

  ghost predicate OffQueues(st: TState) { st == Suspended || st == Sleeping || st == Death }

  /** Threads that are suspended, asleep or dead belong on no queue. */
  lemma Settle(k: K, t: Tid, l: set<Tid>, v: set<nat>)
    requires InvBut(k, l, v) && t in l && t in k.threads
    requires var th := k.threads[t]; OffQueues(th.state) && !th.idle && th.blockedOn.None? && th.prio < NUM_PRIORITIES
    ensures InvBut(k, l - {t}, v)
  {
    forall p: nat | p < NUM_PRIORITIES ensures QueueOk(k, p, l - {t}) { assert QueueOk(k, p, l); }
    forall w | w in k.waits ensures WaitOk(k, w, l - {t}) { assert WaitOk(k, w, l); }
    forall u | u in k.threads && u !in l - {t} ensures InPlace(k, u) {
      if u != t { assert InPlace(k, u); }
    }
  }

  /** list_delete of the i-th thread of run queue p; `clear` also drops the bitmap bit of an emptied queue. */
  function TakeQueued(k: K, p: nat, i: nat, clear: bool): K
    requires p < |k.rq| && i < |k.rq[p]|
  {
    var q := RemoveAt(k.rq[p], i);
    k.(rq := k.rq[p := q], bits := if clear && q == [] then k.bits - {p} else k.bits)
  }

  lemma TakeQueuedLimbo(k: K, p: nat, i: nat, clear: bool, l: set<Tid>, v: set<nat>)
    requires InvBut(k, l, v) && p < NUM_PRIORITIES && i < |k.rq[p]|
    ensures InvBut(TakeQueued(k, p, i, clear), l + {k.rq[p][i]}, v)
  {
    var t, k', l' := k.rq[p][i], TakeQueued(k, p, i, clear), l + {k.rq[p][i]};
    assert QueueOk(k, p, l);
    RemoveAtIs(k.rq[p], i);
    forall q: nat | q < NUM_PRIORITIES ensures QueueOk(k', q, l') {
      assert QueueOk(k, q, l);
      assert k'.rq[q] == if q == p then RemoveAt(k.rq[p], i) else k.rq[q];
      forall j | 0 <= j < |k'.rq[q]|
        ensures var u := k'.rq[q][j];
                u in k.threads && u !in l' && k.threads[u].state == Ready && !k.threads[u].idle && k.threads[u].prio == q
      {
        assert k'.rq[q][j] in k.rq[q];
      }
    }
    forall w | w in k'.waits ensures WaitOk(k', w, l') { assert WaitOk(k, w, l); }
    forall u | u in k'.threads && u !in l' ensures InPlace(k', u) { assert InPlace(k, u); }
  }

  /** The i-th waiter of `w` leaves its list. */
  function TakeWaiter(k: K, w: Wid, i: nat): K
    requires w in k.waits && i < |k.waits[w].list|
  {
    k.(waits := k.waits[w := WaitQueue(RemoveAt(k.waits[w].list, i), k.waits[w].count - 1)])
  }

  lemma TakeWaiterLimbo(k: K, w: Wid, i: nat, l: set<Tid>, v: set<nat>)
    requires InvBut(k, l, v) && w in k.waits && i < |k.waits[w].list|
    ensures InvBut(TakeWaiter(k, w, i), l + {k.waits[w].list[i]}, v)
  {
    var t := k.waits[w].list[i];
    var k', l' := TakeWaiter(k, w, i), l + {t};
    assert WaitOk(k, w, l);
    RemoveAtIs(k.waits[w].list, i);
    forall p: nat | p < NUM_PRIORITIES ensures QueueOk(k', p, l') { assert QueueOk(k, p, l); }
    forall x | x in k'.waits ensures WaitOk(k', x, l') {
      assert WaitOk(k, x, l);
      forall j | 0 <= j < |k'.waits[x].list|
        ensures var u := k'.waits[x].list[j];
                u in k.threads && u !in l' && k.threads[u].state == Blocked && k.threads[u].blockedOn == Some(x)
      {
        assert k'.waits[x].list[j] in k.waits[x].list;
      }
    }
    forall u | u in k'.threads && u !in l' ensures InPlace(k', u) { assert InPlace(k, u); }
  }

  function AddWaiter(k: K, w: Wid, t: Tid): K
    requires w in k.waits
  {
    k.(waits := k.waits[w := WaitQueue(k.waits[w].list + [t], k.waits[w].count + 1)])
  }

  lemma AddWaiterSettles(k: K, w: Wid, t: Tid, l: set<Tid>, v: set<nat>)
    requires InvBut(k, l, v) && w in k.waits && t in l && t in k.threads
    requires var th := k.threads[t]; th.state == Blocked && !th.idle && th.blockedOn == Some(w) && th.prio < NUM_PRIORITIES
    ensures InvBut(AddWaiter(k, w, t), l - {t}, v)
  {
    var k', l' := AddWaiter(k, w, t), l - {t};
    assert WaitOk(k, w, l);
    assert k'.waits[w].list[|k.waits[w].list|] == t;
    forall p: nat | p < NUM_PRIORITIES ensures QueueOk(k', p, l') { assert QueueOk(k, p, l); }
    forall x | x in k'.waits ensures WaitOk(k', x, l') { assert WaitOk(k, x, l); }
    forall u | u in k'.threads && u !in l' ensures InPlace(k', u) {
      if u != t { assert InPlace(k, u); }
    }
  }

  /** The thread a CPU runs stops running; it is in limbo unless it is the idle thread. */
  lemma LeaveCpu(k: K, cpu: nat, th: Thread, l: set<Tid>)
    requires InvBut(k, l, {}) && cpu < |k.current|
    requires var old' := k.threads[k.current[cpu]];
             && th.idle == old'.idle && th.currCpu == old'.currCpu && th.pinned == old'.pinned
             && th.state != Running && th.prio < NUM_PRIORITIES
             && (th.idle ==> th.state == Ready && th.blockedOn.None?)
    ensures var t := k.current[cpu];
            InvBut(SetThread(k, t, th), if th.idle then l else l + {t}, {cpu})
  {
    var t := k.current[cpu];
    var k', l' := SetThread(k, t, th), if th.idle then l else l + {t};
    assert InPlace(k, t);
    forall p: nat | p < NUM_PRIORITIES ensures QueueOk(k', p, l') { assert QueueOk(k, p, l); }
    forall w | w in k'.waits ensures WaitOk(k', w, l') { assert WaitOk(k, w, l); }
    forall u | u in k'.threads && u !in l' ensures InPlace(k', u) { assert InPlace(k, u); }
  }

  // ------------------------------------------------------------ get_top_thread

  predicate Eligible(k: K, t: Tid, cpu: nat) {
    t in k.threads && (k.threads[t].pinned < 0 || k.threads[t].pinned == cpu)
  }

  /** No thread queued at a priority above `p` may run on this CPU. */
  ghost predicate NoneAbove(k: K, cpu: nat, p: nat) {
    forall q, j | p < q < |k.rq| && 0 <= j < |k.rq[q]| :: !Eligible(k, k.rq[q][j], cpu)
  }

  /** The first eligible thread of `q` at or after `i`, or |q|. */
  function FirstEligible(k: K, q: seq<Tid>, cpu: nat, i: nat): (r: nat)
    requires i <= |q|
    ensures i <= r <= |q|
    decreases |q| - i
  {
    if i == |q| || Eligible(k, q[i], cpu) then i else FirstEligible(k, q, cpu, i + 1)
  }

  /** The simple choice: highest priority below `n` that has an eligible thread, first in its queue. */
  function PickFrom(k: K, cpu: nat, n: nat): Option<(nat, nat)>
    requires n <= |k.rq|
  {
    if n == 0 then None
    else
      var i := FirstEligible(k, k.rq[n - 1], cpu, 0);
      if i < |k.rq[n - 1]| then Some((n - 1, i)) else PickFrom(k, cpu, n - 1)
  }

  lemma {:induction false} FirstEligibleIs(k: K, q: seq<Tid>, cpu: nat, i: nat)
    requires i <= |q|
    ensures var r := FirstEligible(k, q, cpu, i);
            && (r < |q| ==> Eligible(k, q[r], cpu))
            && forall j | i <= j < r :: !Eligible(k, q[j], cpu)
    decreases |q| - i
  {
    if i < |q| && !Eligible(k, q[i], cpu) { FirstEligibleIs(k, q, cpu, i + 1); }
  }

  /** What the choice means: nothing eligible comes before it. */
  lemma {:induction false} PickIsBest(k: K, cpu: nat, n: nat)
    requires n <= |k.rq|
    ensures match PickFrom(k, cpu, n)
            case None => forall p, j | 0 <= p < n && 0 <= j < |k.rq[p]| :: !Eligible(k, k.rq[p][j], cpu)
            case Some((p, i)) =>
              && p < n && i < |k.rq[p]| && Eligible(k, k.rq[p][i], cpu)
              && (forall j | 0 <= j < i :: !Eligible(k, k.rq[p][j], cpu))
              && (forall q, j | p < q < n && 0 <= j < |k.rq[q]| :: !Eligible(k, k.rq[q][j], cpu))
  {
    if n > 0 {
      FirstEligibleIs(k, k.rq[n - 1], cpu, 0);
      PickIsBest(k, cpu, n - 1);
    }
  }

  /** get_top_thread: the chosen thread, off its queue. */
  function Top(k: K, cpu: nat): (Tid, K)
    requires |k.rq| == NUM_PRIORITIES && cpu < |k.idle|
  {
    PickIsBest(k, cpu, NUM_PRIORITIES);
    match PickFrom(k, cpu, NUM_PRIORITIES)
    case None => (k.idle[cpu], k)
    case Some((p, i)) => (k.rq[p][i], TakeQueued(k, p, i, true))
  }

  // ------------------------------------------------------------ thread_resched

  function Dispatch(k: K, cpu: nat, t: Tid): K
    requires cpu < |k.current| && t in k.threads && k.current[cpu] in k.threads
  {
    var o := k.current[cpu];
    var k1 := SetThread(k, t, k.threads[t].(state := Running));
    if t == o then k1
    else
      var q := if k.threads[t].quantum <= 0 then 5 else k.threads[t].quantum;
      var k2 := SetThread(k1, o, k1.threads[o].(currCpu := -1));
      SetThread(k2, t, k2.threads[t].(quantum := q, currCpu := cpu)).(current := k.current[cpu := t])
  }

  predicate Basic(k: K, cpu: nat) {
    && |k.rq| == NUM_PRIORITIES && cpu < |k.current| == |k.idle|
    && k.current[cpu] in k.threads && k.idle[cpu] in k.threads
    && k.threads[k.current[cpu]].prio < NUM_PRIORITIES
  }

  /** Every waiter of `w` is a thread that has a run queue to go to. */
  predicate WaitersOk(k: K, w: Wid) {
    && w in k.waits && |k.rq| == NUM_PRIORITIES
    && forall i | 0 <= i < |k.waits[w].list| ::
         k.waits[w].list[i] in k.threads && k.threads[k.waits[w].list[i]].prio < NUM_PRIORITIES
  }

  function Resched(k: K, cpu: nat): K
    requires Basic(k, cpu)
  {
    PickIsBest(k, cpu, NUM_PRIORITIES);
    var (t, k1) := Top(k, cpu);
    Dispatch(k1, cpu, t)
  }

  lemma DispatchIs(k: K, cpu: nat, t: Tid)
    requires cpu < |k.current| && t in k.threads && k.current[cpu] in k.threads && k.threads[k.current[cpu]].currCpu == cpu
    ensures var k', o := Dispatch(k, cpu, t), k.current[cpu];
            && k'.threads.Keys == k.threads.Keys && k'.rq == k.rq && k'.bits == k.bits && k'.waits == k.waits
            && k'.idle == k.idle && k'.current == k.current[cpu := t]
            && (forall u | u in k.threads && u != t && u != o :: k'.threads[u] == k.threads[u])
            && (o != t ==> k'.threads[o] == k.threads[o].(currCpu := -1))
            && k'.threads[t] == k.threads[t].(state := Running, currCpu := cpu, quantum := k'.threads[t].quantum)
  {
  }

  lemma DispatchRestores(k: K, cpu: nat, t: Tid)
    requires cpu < |k.current| && t in k.threads && k.threads[t].state == Ready && k.threads[t].blockedOn.None? && k.threads[t].prio < NUM_PRIORITIES
    requires (InvBut(k, {t}, {cpu}) && !k.threads[t].idle) || (InvBut(k, {}, {cpu}) && t == k.idle[cpu])
    requires Eligible(k, t, cpu)
    ensures k.current[cpu] in k.threads && Inv(Dispatch(k, cpu, t))
  {
    var k', l := Dispatch(k, cpu, t), if k.threads[t].idle then {} else {t};
    DispatchQueues(k, cpu, t, l);
    DispatchCpus(k, cpu, t, l);
    forall u | u in k'.threads ensures InPlace(k', u) {
      DispatchIs(k, cpu, t);
      DispatchInPlace(k, cpu, t, l, u);
    }
  }

  lemma DispatchQueues(k: K, cpu: nat, t: Tid, l: set<Tid>)
    requires cpu < |k.current| && t in k.threads && k.threads[t].state == Ready && InvBut(k, l, {cpu})
    requires (l == {t} && !k.threads[t].idle) || (l == {} && t == k.idle[cpu])
    ensures var k' := Dispatch(k, cpu, t);
            && |k'.rq| == NUM_PRIORITIES && (forall p: nat | p < NUM_PRIORITIES :: QueueOk(k', p, {}))
            && (forall w | w in k'.waits :: WaitOk(k', w, {})) && (forall b | b in k'.bits :: b < NUM_PRIORITIES)
  {
    var k' := Dispatch(k, cpu, t);
    DispatchIs(k, cpu, t);
    forall p: nat | p < NUM_PRIORITIES ensures QueueOk(k', p, {}) { DispatchQueue(k, cpu, t, l, p); }
    forall w | w in k'.waits ensures WaitOk(k', w, {}) { DispatchWait(k, cpu, t, l, w); }
  }

  lemma DispatchQueue(k: K, cpu: nat, t: Tid, l: set<Tid>, p: nat)
    requires cpu < |k.current| && t in k.threads && k.current[cpu] in k.threads && k.threads[k.current[cpu]].currCpu == cpu
    requires p < |k.rq| && QueueOk(k, p, l) && (t in l || k.threads[t].idle)
    ensures QueueOk(Dispatch(k, cpu, t), p, {})
  {
    DispatchIs(k, cpu, t);
    NotQueued(k, p, t, l);
  }

  lemma DispatchWait(k: K, cpu: nat, t: Tid, l: set<Tid>, w: Wid)
    requires cpu < |k.current| && t in k.threads && k.current[cpu] in k.threads && k.threads[k.current[cpu]].currCpu == cpu
    requires w in k.waits && WaitOk(k, w, l) && k.threads[t].state == Ready
    ensures WaitOk(Dispatch(k, cpu, t), w, {})
  {
    DispatchIs(k, cpu, t);
  }

  lemma DispatchCpus(k: K, cpu: nat, t: Tid, l: set<Tid>)
    requires cpu < |k.current| && t in k.threads && k.threads[t].state == Ready && InvBut(k, l, {cpu}) && Eligible(k, t, cpu)
    requires (l == {t} && !k.threads[t].idle) || (l == {} && t == k.idle[cpu])
    ensures var k' := Dispatch(k, cpu, t);
            && Cpus(k') && forall c: nat | c < |k'.current| :: k'.threads[k'.current[c]].state == Running
  {
    DispatchIs(k, cpu, t);
    var k' := Dispatch(k, cpu, t);
    forall c: nat | c < |k'.current|
      ensures k'.current[c] in k'.threads && k'.threads[k'.current[c]].currCpu == c && Eligible(k', k'.current[c], c)
      ensures k'.threads[k'.current[c]].state == Running
    {
      if c != cpu { assert k.threads[k.current[c]].state == Running && k.threads[k.current[c]].currCpu == c; }
    }
    forall c | 0 <= c < |k'.idle|
      ensures k'.idle[c] in k'.threads && k'.threads[k'.idle[c]].idle && k'.threads[k'.idle[c]].pinned == c
    {
      assert k.threads[k.idle[c]].idle && k.threads[k.idle[c]].pinned == c;
    }
  }

  lemma NotQueued(k: K, p: nat, t: Tid, l: set<Tid>)
    requires p < |k.rq| && QueueOk(k, p, l) && t in k.threads && (t in l || k.threads[t].idle)
    ensures t !in k.rq[p]
  {
  }

  lemma DispatchInPlace(k: K, cpu: nat, t: Tid, l: set<Tid>, u: Tid)
    requires cpu < |k.current| && t in k.threads && k.threads[t].state == Ready && k.threads[t].blockedOn.None? && k.threads[t].prio < NUM_PRIORITIES
    requires InvBut(k, l, {cpu}) && u in k.threads
    requires (l == {t} && !k.threads[t].idle) || (l == {} && t == k.idle[cpu])
    ensures InPlace(Dispatch(k, cpu, t), u)
  {
    DispatchIs(k, cpu, t);
    var k' := Dispatch(k, cpu, t);
    if u != t {
      assert InPlace(k, u);
      if k.threads[u].idle {
        var c :| 0 <= c < |k.idle| && k.idle[c] == u && (k.threads[u].state == Running ==> k.threads[u].currCpu == c);
        assert k'.idle[c] == u;
      }
    } else if k.threads[t].idle {
      assert k'.idle[cpu] == t;
    }
  }

  /** Rescheduling gives the CPU a running thread again, whatever became of the last one. */
  lemma ReschedRestores(k: K, cpu: nat)
    requires InvBut(k, {}, {cpu}) && cpu < |k.current|
    ensures Inv(Resched(k, cpu))
  {
    PickIsBest(k, cpu, NUM_PRIORITIES);
    match PickFrom(k, cpu, NUM_PRIORITIES)
    case None =>
      var t := k.idle[cpu];
      assert InPlace(k, t);
      DispatchRestores(k, cpu, t);
    case Some((p, i)) =>
      var t := k.rq[p][i];
      assert QueueOk(k, p, {}) && InPlace(k, t);
      TakeQueuedLimbo(k, p, i, true, {}, {cpu});
      assert {} + {t} == {t};
      DispatchRestores(TakeQueued(k, p, i, true), cpu, t);
  }

  // ------------------------------------------------------------- operations

  /** thread_yield */
  function Yield(k: K, cpu: nat): K
    requires Basic(k, cpu)
  {
    var t := k.current[cpu];
    var th := k.threads[t].(state := Ready, quantum := 0);
    var k1 := SetThread(k, t, th);
    Resched(if th.idle then k1 else InsertTail(k1, t), cpu)
  }

  /** thread_preempt */
  function Preempt(k: K, cpu: nat): K
    requires Basic(k, cpu)
  {
    var t := k.current[cpu];
    var th := k.threads[t].(state := Ready);
    var k1 := SetThread(k, t, th);
    Resched(if th.idle then k1 else if th.quantum > 0 then InsertHead(k1, t) else InsertTail(k1, t), cpu)
  }

  function Clamp(prio: int): nat {
    if prio <= IDLE_PRIORITY then IDLE_PRIORITY + 1 else if prio >= NUM_PRIORITIES then NUM_PRIORITIES - 1 else prio
  }

  /** thread_set_priority */
  function SetPriority(k: K, cpu: nat, prio: int): K
    requires Basic(k, cpu)
  {
    Resched(PriorityQueued(k, cpu, prio), cpu)
  }

  /** The caller is back at the head of its new queue, and the CPU is to choose. */
  function PriorityQueued(k: K, cpu: nat, prio: int): K
    requires Basic(k, cpu)
  {
    var t := k.current[cpu];
    InsertHead(SetThread(k, t, k.threads[t].(prio := Clamp(prio), state := Ready)), t)
  }

  /** thread_resume, with the yield that follows unless interrupts were off */
  function Resume(k: K, cpu: nat, t: Tid, intsOff: bool): K
    requires Basic(k, cpu)
    requires t in k.threads && k.threads[t].prio < NUM_PRIORITIES
  {
    if k.threads[t].state != Suspended then k
    else
      var k1 := InsertHead(SetThread(k, t, k.threads[t].(state := Ready)), t);
      if intsOff then k1 else Yield(k1, cpu)
  }

  /** thread_sleep */
  function Sleep(k: K, cpu: nat): K
    requires Basic(k, cpu)
  {
    Resched(SetThread(k, k.current[cpu], k.threads[k.current[cpu]].(state := Sleeping)), cpu)
  }

  /** thread_sleep_handler */
  function SleepDone(k: K, t: Tid): K
    requires t in k.threads && k.threads[t].prio < |k.rq|
  {
    InsertHead(SetThread(k, t, k.threads[t].(state := Ready)), t)
  }

  /** wait_queue_block */
  function Block(k: K, cpu: nat, w: Wid, timeoutZero: bool): K
    requires Basic(k, cpu) && w in k.waits
  {
    if timeoutZero then k
    else
      var t := k.current[cpu];
      var th := k.threads[t].(state := Blocked, blockedOn := Some(w), blockRet := NoError);
      Resched(AddWaiter(SetThread(k, t, th), w, t), cpu)
  }

  function Woken(th: Thread, err: Status): Thread {
    th.(state := Ready, blockRet := err, blockedOn := None)
  }

  /** The head of a wait queue leaves it and is made ready, not yet queued. */
  function PopWaiter(k: K, w: Wid, i: nat, err: Status): K
    requires w in k.waits && i < |k.waits[w].list| && k.waits[w].list[i] in k.threads
  {
    var t := k.waits[w].list[i];
    SetThread(TakeWaiter(k, w, i), t, Woken(k.threads[t], err))
  }

  /** Both the waker and the woken are queued, and the CPU is to choose. */
  function WakeOneQueued(k: K, cpu: nat, w: Wid, err: Status): K
    requires Basic(k, cpu) && WaitersOk(k, w) && k.waits[w].list != []
  {
    var t, o := k.waits[w].list[0], k.current[cpu];
    var k1 := PopWaiter(k, w, 0, err);
    InsertHead(InsertHead(SetThread(k1, o, k1.threads[o].(state := Ready)), o), t)
  }

  /** wait_queue_wake_one */
  function WakeOne(k: K, cpu: nat, w: Wid, resched: bool, err: Status): K
    requires Basic(k, cpu) && WaitersOk(k, w)
  {
    if k.waits[w].list == [] then k
    else if resched then Resched(WakeOneQueued(k, cpu, w, err), cpu)
    else InsertHead(PopWaiter(k, w, 0, err), k.waits[w].list[0])
  }

  /** The loop of wait_queue_wake_all */
  function PopAll(k: K, w: Wid, err: Status): (r: K)
    requires WaitersOk(k, w)
    ensures |r.rq| == |k.rq| && r.threads.Keys == k.threads.Keys && r.current == k.current && r.idle == k.idle
    ensures forall t | t in k.threads :: r.threads[t].prio == k.threads[t].prio
    decreases |k.waits[w].list|
  {
    if k.waits[w].list == [] then k
    else
      var k1 := PopWaiter(k, w, 0, err);
      PopAll(InsertHead(k1, k.waits[w].list[0]), w, err)
  }

  /** The current thread is ready and at the head of its queue. */
  function SteppedAside(k: K, cpu: nat): K
    requires Basic(k, cpu)
  {
    var o := k.current[cpu];
    InsertHead(SetThread(k, o, k.threads[o].(state := Ready)), o)
  }

  /** wait_queue_wake_all, up to the reschedule */
  function WakeAllQueued(k: K, cpu: nat, w: Wid, resched: bool, err: Status): K
    requires Basic(k, cpu) && WaitersOk(k, w)
  {
    PopAll(if resched && k.waits[w].count > 0 then SteppedAside(k, cpu) else k, w, err)
  }

  /** wait_queue_wake_all */
  function WakeAll(k: K, cpu: nat, w: Wid, resched: bool, err: Status): K
    requires Basic(k, cpu) && WaitersOk(k, w)
  {
    var k1 := WakeAllQueued(k, cpu, w, resched, err);
    if resched && k.waits[w].list != [] then Resched(k1, cpu) else k1
  }

  ghost function IndexOf(s: seq<Tid>, t: Tid): (i: nat)
    requires t in s
    ensures i < |s| && s[i] == t
  {
    var i: nat :| i < |s| && s[i] == t;
    i
  }

  /** thread_unblock_from_wait_queue, as called when a wait times out */
  ghost function Unblock(k: K, t: Tid, err: Status): K
    requires t in k.threads && k.threads[t].prio < |k.rq|
    requires k.threads[t].state == Blocked ==>
               && k.threads[t].blockedOn.Some? && k.threads[t].blockedOn.value in k.waits
               && t in k.waits[k.threads[t].blockedOn.value].list
  {
    if k.threads[t].state != Blocked then k
    else
      var w := k.threads[t].blockedOn.value;
      InsertHead(PopWaiter(k, w, IndexOf(k.waits[w].list, t), err), t)
  }

  /** thread_exit */
  function Exit(k: K, cpu: nat): K
    requires Basic(k, cpu) && WaitersOk(k, Retcode(k.current[cpu]))
  {
    var t := k.current[cpu];
    var k1 := SetThread(k, t, k.threads[t].(state := Death));
    Resched(if k.threads[t].detached then k1 else PopAll(k1, Retcode(t), NoError), cpu)
  }

  /** What thread_join does for a dead thread: its structure goes, with its wait queue. */
  function Reap(k: K, t: Tid): K {
    k.(threads := k.threads - {t}, waits := k.waits - {Retcode(t)})
  }

  /** thread_detach, which joins a thread that is dead already */
  function Detach(k: K, t: Tid): K
    requires t in k.threads && WaitersOk(k, Retcode(t))
  {
    var k1 := PopAll(k, Retcode(t), ErrThreadDetached);
    if k.threads[t].state == Death then Reap(k1, t) else SetThread(k1, t, k1.threads[t].(detached := true))
  }

  /** thread_create_etc */
  function Create(k: K, t: Tid, prio: nat, pinned: int): K {
    SetThread(k, t, Thread(Suspended, prio, false, pinned, -1, None, NoError, 0, false, false))
      .(waits := k.waits[Retcode(t) := WaitQueue([], 0)])
  }

  /** wait_queue_init */
  function InitQueue(k: K, w: Wid): K {
    k.(waits := k.waits[w := WaitQueue([], 0)])
  }

  /** remove_task_from_rqueue, then thread_reset: the bitmap bit stays behind, and the thread's
      own wait queue is initialised anew, whoever waits on it */
  ghost function Unqueue(k: K, t: Tid): K
    requires t in k.threads && k.threads[t].prio < |k.rq| && t in k.rq[k.threads[t].prio]
  {
    var p := k.threads[t].prio;
    var th := k.threads[t].(state := Suspended, blockedOn := None, blockRet := NoError);
    InitQueue(SetThread(TakeQueued(k, p, IndexOf(k.rq[p], t), false), t, th), Retcode(t))
  }

  /** thread_timer_tick */
  function Tick(k: K, cpu: nat): K
    requires Basic(k, cpu)
  {
    var t := k.current[cpu];
    if k.threads[t].realTime || k.threads[t].idle then k
    else SetThread(k, t, k.threads[t].(quantum := k.threads[t].quantum - 1))
  }

  /** Every CPU in thread_become_idle: it runs its own idle thread and nothing is queued. */
  function Boot(cpus: nat): K {
    K(map t: nat | t < cpus :: t := Thread(Running, IDLE_PRIORITY, true, t, t, None, NoError, 0, true, false),
      seq(NUM_PRIORITIES, _ => []), {}, map[], seq(cpus, c => c), seq(cpus, c => c))
  }

  lemma BootHolds(cpus: nat)
    ensures Inv(Boot(cpus))
  {
    var k := Boot(cpus);
    forall t | t in k.threads ensures InPlace(k, t) { assert k.idle[t] == t; }
  }
}
