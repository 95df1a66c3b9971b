/** What becomes of the invariant when the idle thread makes a call that puts its caller on a run
    queue: thread_set_priority, or a wake-up that reschedules. */
module SchedIdle {
  import opened Wrappers
  import opened SchedSpec
  import opened SchedInv

  /** `k2` is `k1` with thread `o` queued at place `j` of priority `p`. */
  ghost predicate Plus(k1: K, k2: K, o: Tid, p: nat, j: nat) {
    && p < |k1.rq| && j <= |k1.rq[p]|
    && k2 == k1.(rq := k1.rq[p := k1.rq[p][..j] + [o] + k1.rq[p][j..]], bits := k1.bits + {p})
  }

  /** The choice falls on thread `o`, taken off a run queue. */
  ghost predicate Picks(k: K, cpu: nat, o: Tid)
    requires |k.rq| == NUM_PRIORITIES
  {
    match PickFrom(k, cpu, NUM_PRIORITIES)
    case None => false
    case Some((p, i)) => p < |k.rq| && i < |k.rq[p]| && k.rq[p][i] == o
  }

  /** An idle thread left on a queue breaks the invariant. */
  lemma IdleQueuedBreaks(k: K, p: nat, o: Tid)
    requires |k.rq| == NUM_PRIORITIES && p < NUM_PRIORITIES && o in k.rq[p] && o in k.threads && k.threads[o].idle
    ensures !Inv(k)
  {
    if Inv(k) {
      assert QueueOk(k, p, {});
      NotQueued(k, p, o, {});
    }
  }

  /** Taken off again, it leaves everything as it was but for the bitmap. */
  lemma TakenBack(k1: K, k2: K, cpu: nat, o: Tid, p: nat, j: nat)
    requires InvBut(k1, {}, {cpu}) && Plus(k1, k2, o, p, j)
    ensures j < |k2.rq[p]| && InvBut(TakeQueued(k2, p, j, true), {}, {cpu})
    ensures TakeQueued(k2, p, j, true) == k1.(bits := TakeQueued(k2, p, j, true).bits)
  {
    var k3 := TakeQueued(k2, p, j, true);
    assert RemoveAt(k2.rq[p], j) == k1.rq[p];
    assert k3.rq == k1.rq;
    forall q: nat | q < NUM_PRIORITIES ensures QueueOk(k3, q, {}) { assert QueueOk(k1, q, {}); }
    forall w | w in k3.waits ensures WaitOk(k3, w, {}) { assert WaitOk(k1, w, {}); }
    forall u | u in k3.threads ensures InPlace(k3, u) { assert InPlace(k1, u); }
  }

  /** It is on one queue only. */
  lemma OnlyPlace(k1: K, k2: K, cpu: nat, o: Tid, p: nat, j: nat, q: nat, i: nat)
    requires InvBut(k1, {}, {cpu}) && Plus(k1, k2, o, p, j) && o in k1.threads && k1.threads[o].idle
    requires q < NUM_PRIORITIES && i < |k2.rq[q]| && k2.rq[q][i] == o
    ensures q == p && i == j
  {
    assert QueueOk(k1, q, {});
    NotQueued(k1, q, o, {});
  }

  /** With its idle thread queued, a CPU keeps the invariant exactly if it chooses that thread. */
  lemma IdleResched(k1: K, k2: K, cpu: nat, o: Tid, p: nat, j: nat)
    requires InvBut(k1, {}, {cpu}) && cpu < |k1.current| && o == k1.current[cpu] == k1.idle[cpu]
    requires k1.threads[o].state == Ready && k1.threads[o].prio < NUM_PRIORITIES && k1.threads[o].blockedOn.None?
    requires Plus(k1, k2, o, p, j)
    ensures Basic(k2, cpu) && (Inv(Resched(k2, cpu)) <==> Picks(k2, cpu, o))
  {
    PickIsBest(k2, cpu, NUM_PRIORITIES);
    if Picks(k2, cpu, o) {
      var (q, i) := PickFrom(k2, cpu, NUM_PRIORITIES).value;
      OnlyPlace(k1, k2, cpu, o, p, j, q, i);
      TakenBack(k1, k2, cpu, o, p, j);
      DispatchRestores(TakeQueued(k2, p, j, true), cpu, o);
    } else {
      forall q, i | 0 <= q < |k2.rq| && 0 <= i < |k2.rq[q]| ensures k2.rq[q][i] in k2.threads { assert QueueOk(k1, q, {}); }
      StillQueued(k2, cpu, o, p, j);
      IdleQueuedBreaks(Resched(k2, cpu), p, o);
    }
  }

  /** A choice that falls elsewhere leaves the thread on its queue. */
  lemma StillQueued(k2: K, cpu: nat, o: Tid, p: nat, j: nat)
    requires Basic(k2, cpu) && p < NUM_PRIORITIES && j < |k2.rq[p]| && k2.rq[p][j] == o && o in k2.threads
    requires !Picks(k2, cpu, o)
    requires forall q, i | 0 <= q < |k2.rq| && 0 <= i < |k2.rq[q]| :: k2.rq[q][i] in k2.threads
    ensures var k' := Resched(k2, cpu);
            |k'.rq| == NUM_PRIORITIES && o in k'.rq[p] && o in k'.threads && k'.threads[o].idle == k2.threads[o].idle
  {
    PickIsBest(k2, cpu, NUM_PRIORITIES);
    match PickFrom(k2, cpu, NUM_PRIORITIES)
    case None =>
    case Some((q, i)) =>
      var r := RemoveAt(k2.rq[q], i);
      if q == p {
        assert i != j;
        assert r[if j < i then j else j - 1] == o;
      }
  }

  /** The idle thread of a CPU, about to be queued. */
  lemma IdleSteps(k: K, cpu: nat, th: Thread, l: set<Tid>)
    requires InvBut(k, l, {}) && cpu < |k.current| && k.threads[k.current[cpu]].idle
    requires th == k.threads[k.current[cpu]].(state := Ready, prio := th.prio) && th.prio < NUM_PRIORITIES
    ensures th.blockedOn.None? && k.idle[cpu] == k.current[cpu] && InvBut(SetThread(k, k.current[cpu], th), l, {cpu})
  {
    CurrentIs(k, cpu, l);
    assert InPlace(k, k.current[cpu]);
    LeaveCpu(k, cpu, th, l);
  }

  /** The choice falls on a queued thread exactly if nothing that may run comes before it. */
  lemma PicksIff(k: K, cpu: nat, o: Tid, p: nat, j: nat)
    requires |k.rq| == NUM_PRIORITIES && p < NUM_PRIORITIES && j < |k.rq[p]| && k.rq[p][j] == o && Eligible(k, o, cpu)
    requires forall q, i | 0 <= q < |k.rq| && 0 <= i < |k.rq[q]| && k.rq[q][i] == o :: q == p && i == j
    ensures Picks(k, cpu, o) <==> NoneAbove(k, cpu, p) && forall i | 0 <= i < j :: !Eligible(k, k.rq[p][i], cpu)
  {
    PickIsBest(k, cpu, NUM_PRIORITIES);
  }

  lemma HeadIsPlus(k: K, o: Tid)
    requires o in k.threads && k.threads[o].prio < |k.rq|
    ensures Plus(k, InsertHead(k, o), o, k.threads[o].prio, 0)
  {
    var q := k.rq[k.threads[o].prio];
    assert q[..0] + [o] + q[0..] == [o] + q;
  }

  /** With the idle thread queued: the invariant is kept exactly if nothing that may run here is
      queued above it or in front of it. */
  lemma IdleReschedIff(k1: K, k2: K, cpu: nat, o: Tid, p: nat, j: nat)
    requires InvBut(k1, {}, {cpu}) && cpu < |k1.current| && o == k1.current[cpu] == k1.idle[cpu]
    requires k1.threads[o].state == Ready && k1.threads[o].prio < NUM_PRIORITIES && k1.threads[o].blockedOn.None?
    requires Plus(k1, k2, o, p, j)
    ensures Basic(k2, cpu)
    ensures Inv(Resched(k2, cpu)) <==> NoneAbove(k2, cpu, p) && forall i | 0 <= i < j :: !Eligible(k2, k2.rq[p][i], cpu)
  {
    IdleResched(k1, k2, cpu, o, p, j);
    forall q, i | 0 <= q < |k2.rq| && 0 <= i < |k2.rq[q]| && k2.rq[q][i] == o ensures q == p && i == j {
      OnlyPlace(k1, k2, cpu, o, p, j, q, i);
    }
    assert k2.rq[p][j] == o;
    PicksIff(k2, cpu, o, p, j);
  }

  // ------------------------------------------------------- thread_set_priority

  /** The call is not made by an idle thread, or nothing queued above its new priority may run here. */
  ghost predicate PriorityOk(k: K, cpu: nat, prio: int) {
    Basic(k, cpu) && k.threads[k.current[cpu]].idle ==> NoneAbove(k, cpu, Clamp(prio))
  }

  lemma SetPriorityKeepsIff(k: K, cpu: nat, prio: int)
    requires Inv(k) && cpu < |k.current|
    ensures Basic(k, cpu) && (Inv(SetPriority(k, cpu, prio)) <==> PriorityOk(k, cpu, prio))
  {
    CurrentIs(k, cpu, {});
    var o := k.current[cpu];
    if k.threads[o].idle {
      var th := k.threads[o].(prio := Clamp(prio), state := Ready);
      IdleSteps(k, cpu, th, {});
      var k1 := SetThread(k, o, th);
      HeadIsPlus(k1, o);
      IdleReschedIff(k1, InsertHead(k1, o), cpu, o, th.prio, 0);
      AboveUnchanged(k, InsertHead(k1, o), cpu, th.prio);
    } else {
      SetPriorityKeeps(k, cpu, prio);
    }
  }

  /** Who may run here above a priority depends on the queues above it and on the pinning only. */
  lemma AboveUnchanged(k: K, k': K, cpu: nat, p: nat)
    requires |k'.rq| == |k.rq| && forall q | p < q < |k.rq| :: k'.rq[q] == k.rq[q]
    requires SamePinning(k, k')
    ensures NoneAbove(k', cpu, p) <==> NoneAbove(k, cpu, p)
  {
    if NoneAbove(k, cpu, p) {
      forall q, j | p < q < |k'.rq| && 0 <= j < |k'.rq[q]| ensures !Eligible(k', k'.rq[q][j], cpu) {
        assert !Eligible(k, k.rq[q][j], cpu);
      }
    }
    if NoneAbove(k', cpu, p) {
      forall q, j | p < q < |k.rq| && 0 <= j < |k.rq[q]| ensures !Eligible(k, k.rq[q][j], cpu) {
        assert !Eligible(k', k'.rq[q][j], cpu);
      }
    }
  }

  ghost predicate SamePinning(k: K, k': K) {
    k'.threads.Keys == k.threads.Keys && forall t | t in k.threads :: k'.threads[t].pinned == k.threads[t].pinned
  }

  // ------------------------------------------------------- the threads woken

  /** The threads of `list` that go to the queue of priority `p`, in the order they end up there. */
  ghost function Fronts(k: K, list: seq<Tid>, p: nat): seq<Tid>
    requires forall t | t in list :: t in k.threads
  {
    if list == [] then []
    else Fronts(k, list[1..], p) + if k.threads[list[0]].prio == p then [list[0]] else []
  }

  lemma {:induction false} FrontsAre(k: K, list: seq<Tid>, p: nat, t: Tid)
    requires forall u | u in list :: u in k.threads
    ensures t in Fronts(k, list, p) <==> t in list && k.threads[t].prio == p
  {
    if list != [] { FrontsAre(k, list[1..], p, t); }
  }

  lemma {:induction false} FrontsSame(k: K, k': K, list: seq<Tid>, p: nat)
    requires forall t | t in list :: t in k.threads && t in k'.threads && k'.threads[t].prio == k.threads[t].prio
    ensures Fronts(k', list, p) == Fronts(k, list, p)
  {
    if list != [] { FrontsSame(k, k', list[1..], p); }
  }

  /** Waking everybody puts each in front of the queue of its priority, and changes no pinning. */
  lemma {:induction false} PopAllQueues(k: K, w: Wid, err: Status, p: nat)
    requires WaitersOk(k, w) && p < NUM_PRIORITIES
    ensures forall t | t in k.waits[w].list :: t in k.threads
    ensures PopAll(k, w, err).rq[p] == Fronts(k, k.waits[w].list, p) + k.rq[p] && SamePinning(k, PopAll(k, w, err))
    decreases |k.waits[w].list|
  {
    var list := k.waits[w].list;
    if list != [] {
      var t := list[0];
      var k1 := InsertHead(PopWaiter(k, w, 0, err), t);
      PopOneIs(k, w, err, p);
      PopAllQueues(k1, w, err, p);
      FrontsSame(k, k1, list[1..], p);
      FrontStep(Fronts(k, list[1..], p), k.rq[p], t, k.threads[t].prio == p);
    }
  }

  lemma FrontStep(f: seq<Tid>, s: seq<Tid>, t: Tid, here: bool)
    ensures f + (if here then [t] + s else s) == (f + if here then [t] else []) + s
  {
  }

  /** The first turn of that loop. */
  lemma PopOneIs(k: K, w: Wid, err: Status, p: nat)
    requires WaitersOk(k, w) && p < NUM_PRIORITIES && k.waits[w].list != []
    ensures var t := k.waits[w].list[0]; var k1 := InsertHead(PopWaiter(k, w, 0, err), t);
            && WaitersOk(k1, w) && k1.waits[w].list == k.waits[w].list[1..] && SamePinning(k, k1)
            && (forall u | u in k.threads :: k1.threads[u].prio == k.threads[u].prio)
            && k1.rq[p] == (if k.threads[t].prio == p then [t] + k.rq[p] else k.rq[p])
            && PopAll(k, w, err) == PopAll(k1, w, err)
  {
    assert RemoveAt(k.waits[w].list, 0) == k.waits[w].list[1..];
  }

  /** Nobody of the list may run here at priority `p` or above. */
  ghost predicate NoneWoken(k: K, cpu: nat, list: seq<Tid>, p: nat) {
    forall t | t in list && t in k.threads :: !(Eligible(k, t, cpu) && k.threads[t].prio >= p)
  }

  /** What comes before a thread at the head of queue `p` once the list is woken in front of it. */
  lemma WokenAhead(k: K, k': K, cpu: nat, list: seq<Tid>, p: nat, o: Tid)
    requires |k.rq| == |k'.rq| == NUM_PRIORITIES && p < NUM_PRIORITIES && SamePinning(k, k')
    requires forall t | t in list :: t in k.threads && k.threads[t].prio < NUM_PRIORITIES
    requires forall q: nat | q < NUM_PRIORITIES ::
               k'.rq[q] == Fronts(k, list, q) + (if q == p then [o] + k.rq[q] else k.rq[q])
    ensures |Fronts(k, list, p)| < |k'.rq[p]| && k'.rq[p][|Fronts(k, list, p)|] == o
    ensures (NoneAbove(k', cpu, p) && forall i | 0 <= i < |Fronts(k, list, p)| :: !Eligible(k', k'.rq[p][i], cpu))
       <==> NoneAbove(k, cpu, p) && NoneWoken(k, cpu, list, p)
  {
    var f := |Fronts(k, list, p)|;
    assert k'.rq[p] == Fronts(k, list, p) + ([o] + k.rq[p]);
    if NoneAbove(k', cpu, p) && forall i | 0 <= i < f :: !Eligible(k', k'.rq[p][i], cpu) {
      WokenAheadOnly(k, k', cpu, list, p, o);
    }
    if NoneAbove(k, cpu, p) && NoneWoken(k, cpu, list, p) {
      forall q: nat, i | p <= q < |k'.rq| && 0 <= i < |k'.rq[q]| && (q == p ==> i < f) ensures !Eligible(k', k'.rq[q][i], cpu) {
        assert k'.rq[q] == Fronts(k, list, q) + (if q == p then [o] + k.rq[q] else k.rq[q]);
        if i < |Fronts(k, list, q)| {
          FrontsAre(k, list, q, k'.rq[q][i]);
        } else {
          assert !Eligible(k, k.rq[q][i - |Fronts(k, list, q)|], cpu);
        }
      }
    }
  }

  lemma WokenAheadOnly(k: K, k': K, cpu: nat, list: seq<Tid>, p: nat, o: Tid)
    requires |k.rq| == |k'.rq| == NUM_PRIORITIES && p < NUM_PRIORITIES && SamePinning(k, k')
    requires forall t | t in list :: t in k.threads && k.threads[t].prio < NUM_PRIORITIES
    requires forall q: nat | q < NUM_PRIORITIES ::
               k'.rq[q] == Fronts(k, list, q) + (if q == p then [o] + k.rq[q] else k.rq[q])
    requires NoneAbove(k', cpu, p)
    requires forall i | 0 <= i < |Fronts(k, list, p)| :: i < |k'.rq[p]| && !Eligible(k', k'.rq[p][i], cpu)
    ensures NoneAbove(k, cpu, p) && NoneWoken(k, cpu, list, p)
  {
    forall q: nat, i | p < q < |k.rq| && 0 <= i < |k.rq[q]| ensures !Eligible(k, k.rq[q][i], cpu) {
      Behind(Fronts(k, list, q), k.rq[q], k'.rq[q], i);
    }
    forall t | t in list && t in k.threads && k.threads[t].prio >= p ensures !Eligible(k, t, cpu) {
      var q := k.threads[t].prio;
      var i := InFront(k, list, q, t, if q == p then [o] + k.rq[q] else k.rq[q], k'.rq[q]);
      NotAhead(k', cpu, p, q, i, |Fronts(k, list, p)|);
    }
  }

  lemma Behind(f: seq<Tid>, s: seq<Tid>, queue: seq<Tid>, i: nat)
    requires queue == f + s && i < |s|
    ensures |f| + i < |queue| && queue[|f| + i] == s[i]
  {
  }

  lemma NotAhead(k: K, cpu: nat, p: nat, q: nat, i: nat, f: nat)
    requires NoneAbove(k, cpu, p) && p <= q < |k.rq| && i < |k.rq[q]| && (q == p ==> i < f)
    requires forall j | 0 <= j < f :: j < |k.rq[p]| && !Eligible(k, k.rq[p][j], cpu)
    ensures !Eligible(k, k.rq[q][i], cpu)
  {
  }

  /** A woken thread is in the front part of its queue. */
  lemma InFront(k: K, list: seq<Tid>, q: nat, t: Tid, rest: seq<Tid>, queue: seq<Tid>) returns (i: nat)
    requires (forall u | u in list :: u in k.threads) && t in list && k.threads[t].prio == q
    requires queue == Fronts(k, list, q) + rest
    ensures i < |Fronts(k, list, q)| <= |queue| && queue[i] == t
  {
    FrontsAre(k, list, q, t);
    i :| 0 <= i < |Fronts(k, list, q)| && Fronts(k, list, q)[i] == t;
  }

  // ------------------------------------------------------- wait_queue_wake_one

  /** The wake-up does not reschedule an idle thread, or neither a queued thread above it nor the
      thread woken, at its priority or above, may run here. */
  ghost predicate WakeOneOk(k: K, cpu: nat, w: Wid, resched: bool)
    requires w in k.waits
  {
    Basic(k, cpu) && resched && k.waits[w].list != [] && k.threads[k.current[cpu]].idle ==>
      var p := k.threads[k.current[cpu]].prio;
      NoneAbove(k, cpu, p) && NoneWoken(k, cpu, k.waits[w].list[..1], p)
  }

  lemma WakeOneKeepsIff(k: K, cpu: nat, w: Wid, resched: bool, err: Status)
    requires Inv(k) && cpu < |k.current| && w in k.waits
    ensures Basic(k, cpu) && WaitersOk(k, w)
    ensures Inv(WakeOne(k, cpu, w, resched, err)) <==> WakeOneOk(k, cpu, w, resched)
  {
    CurrentIs(k, cpu, {});
    WaitersAre(k, w, {});
    if resched && k.waits[w].list != [] && k.threads[k.current[cpu]].idle {
      IdleWakesOne(k, cpu, w, err);
    } else if k.waits[w].list != [] {
      WakeOneKeeps(k, cpu, w, resched, err);
    }
  }

  lemma IdleWakesOne(k: K, cpu: nat, w: Wid, err: Status)
    requires Inv(k) && Basic(k, cpu) && WaitersOk(k, w) && k.waits[w].list != [] && k.threads[k.current[cpu]].idle
    ensures Inv(WakeOne(k, cpu, w, true, err)) <==> WakeOneOk(k, cpu, w, true)
  {
    var t, o := k.waits[w].list[0], k.current[cpu];
    var k2 := IdleMeetsWaiter(k, cpu, w, err);
    OneWokenIff(k, k2, cpu, t, o);
    assert k.waits[w].list[..1] == [t];
  }

  lemma OneWokenIff(k: K, k2: K, cpu: nat, t: Tid, o: Tid)
    requires Basic(k, cpu) && o == k.current[cpu] == k.idle[cpu] && t in k.threads && t != o && k.threads[t].prio < NUM_PRIORITIES
    requires k2.rq == k.rq && k2.current == k.current && k2.idle == k.idle && k.threads[o].blockedOn.None?
    requires SamePinning(k, k2) && k2.threads[t].prio == k.threads[t].prio && k2.threads[o] == k.threads[o].(state := Ready)
    requires InvBut(InsertHead(k2, t), {}, {cpu})
    ensures Basic(InsertHead(InsertHead(k2, o), t), cpu)
    ensures Inv(Resched(InsertHead(InsertHead(k2, o), t), cpu))
       <==> NoneAbove(k, cpu, k.threads[o].prio) && NoneWoken(k, cpu, [t], k.threads[o].prio)
  {
    var p := k.threads[o].prio;
    TwoHeads(k2, o, t);
    var j := if k2.threads[t].prio == p then 1 else 0;
    IdleReschedIff(InsertHead(k2, t), InsertHead(InsertHead(k2, o), t), cpu, o, p, j);
    OneWokenAhead(k, cpu, t, o, InsertHead(InsertHead(k2, o), t));
  }

  lemma TwoHeads(k: K, o: Tid, t: Tid)
    requires o in k.threads && t in k.threads && k.threads[o].prio < |k.rq| && k.threads[t].prio < |k.rq|
    ensures Plus(InsertHead(k, t), InsertHead(InsertHead(k, o), t), o, k.threads[o].prio,
                 if k.threads[t].prio == k.threads[o].prio then 1 else 0)
  {
    HeadIsPlus(k, o);
    PlusInsert(k, InsertHead(k, o), o, k.threads[o].prio, t);
  }

  /** The waiter is off its queue and the idle thread has stepped down; neither is queued yet. */
  lemma IdleMeetsWaiter(k: K, cpu: nat, w: Wid, err: Status) returns (k2: K)
    requires Inv(k) && Basic(k, cpu) && WaitersOk(k, w) && k.waits[w].list != [] && k.threads[k.current[cpu]].idle
    ensures var t, o := k.waits[w].list[0], k.current[cpu];
            && t in k.threads && t != o && k2.rq == k.rq && k2.current == k.current && k2.idle == k.idle && k.idle[cpu] == o
            && k2.threads == k.threads[t := Woken(k.threads[t], err)][o := k.threads[o].(state := Ready)]
            && WakeOneQueued(k, cpu, w, err) == InsertHead(InsertHead(k2, o), t)
            && k.threads[o].blockedOn.None? && InvBut(InsertHead(k2, t), {}, {cpu})
  {
    var t, o := k.waits[w].list[0], k.current[cpu];
    PopWaiterLimbo(k, w, 0, err, {});
    RunnerNotWaiting(k, w, cpu);
    var k1 := PopWaiter(k, w, 0, err);
    CurrentIs(k1, cpu, {t});
    var th := k1.threads[o].(state := Ready);
    IdleSteps(k1, cpu, th, {t});
    k2 := SetThread(k1, o, th);
    InsertSettles(k2, t, {t}, {cpu}, true);
    assert {t} - {t} == {};
  }

  /** Queueing another thread in front moves the place by one at most. */
  lemma PlusInsert(k1: K, k2: K, o: Tid, p: nat, t: Tid)
    requires Plus(k1, k2, o, p, 0) && t in k1.threads && k1.threads[t].prio < |k1.rq|
    ensures Plus(InsertHead(k1, t), InsertHead(k2, t), o, p, if k1.threads[t].prio == p then 1 else 0)
  {
    var q, s := k1.threads[t].prio, k1.rq[p];
    var j := if q == p then 1 else 0;
    assert s[..0] + [o] + s[0..] == [o] + s;
    if q == p { assert ([t] + s)[..1] + [o] + ([t] + s)[1..] == [t] + ([o] + s); }
    assert InsertHead(k1, t).bits + {p} == InsertHead(k2, t).bits;
    assert InsertHead(k2, t).rq == InsertHead(k1, t).rq[p := InsertHead(k1, t).rq[p][..j] + [o] + InsertHead(k1, t).rq[p][j..]];
  }

  lemma OneWokenAhead(k: K, cpu: nat, t: Tid, o: Tid, k': K)
    requires |k.rq| == NUM_PRIORITIES && t in k.threads && o in k.threads
    requires k.threads[t].prio < NUM_PRIORITIES && k.threads[o].prio < NUM_PRIORITIES && SamePinning(k, k')
    requires var p, q := k.threads[o].prio, k.threads[t].prio;
             var rq := k.rq[p := [o] + k.rq[p]]; k'.rq == rq[q := [t] + rq[q]]
    ensures var p := k.threads[o].prio; var j := if k.threads[t].prio == p then 1 else 0;
            && j < |k'.rq[p]|
            && ((NoneAbove(k', cpu, p) && forall i | 0 <= i < j :: !Eligible(k', k'.rq[p][i], cpu))
                <==> NoneAbove(k, cpu, p) && NoneWoken(k, cpu, [t], p))
  {
    var p := k.threads[o].prio;
    forall q: nat | q < NUM_PRIORITIES ensures Fronts(k, [t], q) == if k.threads[t].prio == q then [t] else [] {
      assert [t][1..] == [] && Fronts(k, [], q) == [];
    }
    WokenAhead(k, k', cpu, [t], p, o);
  }

  // ------------------------------------------------------- wait_queue_wake_all

  /** The same for everybody who waits. */
  ghost predicate WakeAllOk(k: K, cpu: nat, w: Wid, resched: bool)
    requires w in k.waits
  {
    Basic(k, cpu) && resched && k.waits[w].list != [] && k.threads[k.current[cpu]].idle ==>
      var p := k.threads[k.current[cpu]].prio;
      NoneAbove(k, cpu, p) && NoneWoken(k, cpu, k.waits[w].list, p)
  }

  lemma WakeAllKeepsIff(k: K, cpu: nat, w: Wid, resched: bool, err: Status)
    requires Inv(k) && cpu < |k.current| && w in k.waits
    ensures Basic(k, cpu) && WaitersOk(k, w)
    ensures Inv(WakeAll(k, cpu, w, resched, err)) <==> WakeAllOk(k, cpu, w, resched)
  {
    CurrentIs(k, cpu, {});
    WaitersAre(k, w, {});
    assert WaitOk(k, w, {});
    if resched && k.waits[w].list != [] && k.threads[k.current[cpu]].idle {
      IdleWakesAll(k, cpu, w, err);
    } else if resched && k.waits[w].list == [] {
      WakeAllKeeps(k, cpu, w, false, err);
    } else {
      WakeAllKeeps(k, cpu, w, resched, err);
    }
  }

  lemma IdleWakesAll(k: K, cpu: nat, w: Wid, err: Status)
    requires Inv(k) && Basic(k, cpu) && WaitersOk(k, w) && k.waits[w].list != [] && k.threads[k.current[cpu]].idle
    requires k.waits[w].count > 0
    ensures Inv(WakeAll(k, cpu, w, true, err)) <==> WakeAllOk(k, cpu, w, true)
  {
    var o, list := k.current[cpu], k.waits[w].list;
    var th := k.threads[o].(state := Ready);
    CurrentIs(k, cpu, {});
    IdleSteps(k, cpu, th, {});
    var k1 := SetThread(k, o, th);
    RunnerNotWaiting(k, w, cpu);
    PopAllKeeps(k1, w, err, {cpu});
    PopAllSkips(k1, w, err, o);
    var k2 := InsertHead(k1, o);
    assert WaitersOk(k2, w);
    AllWokenPlus(k1, k2, o, w, err);
    IdleReschedIff(PopAll(k1, w, err), PopAll(k2, w, err), cpu, o, th.prio, |Fronts(k1, list, th.prio)|);
    AllWokenAhead(k, k1, k2, cpu, w, err, o);
  }

  /** Waking everybody does not depend on the thread queued beside them, which ends up behind those
      of its priority. */
  lemma AllWokenPlus(k1: K, k2: K, o: Tid, w: Wid, err: Status)
    requires WaitersOk(k1, w) && o in k1.threads && k1.threads[o].prio < NUM_PRIORITIES && k2 == InsertHead(k1, o)
    ensures forall t | t in k1.waits[w].list :: t in k1.threads
    ensures WaitersOk(k2, w)
    ensures Plus(PopAll(k1, w, err), PopAll(k2, w, err), o, k1.threads[o].prio, |Fronts(k1, k1.waits[w].list, k1.threads[o].prio)|)
  {
    var p, list := k1.threads[o].prio, k1.waits[w].list;
    var r1, r2 := PopAll(k1, w, err), PopAll(k2, w, err);
    PopAllRest(k1, k2, w, p, err);
    forall t | t in list ensures t in k1.threads { var i :| 0 <= i < |list| && list[i] == t; }
    var f := |Fronts(k1, list, p)|;
    AllWokenQueue(k1, k2, o, w, err, p);
    var s := r1.rq[p][..f] + [o] + r1.rq[p][f..];
    forall q: nat | q < NUM_PRIORITIES ensures r2.rq[q] == r1.rq[p := s][q] { AllWokenQueue(k1, k2, o, w, err, q); }
    assert r2.rq == r1.rq[p := s];
  }

  lemma AllWokenQueue(k1: K, k2: K, o: Tid, w: Wid, err: Status, q: nat)
    requires WaitersOk(k1, w) && o in k1.threads && k1.threads[o].prio < NUM_PRIORITIES && k2 == InsertHead(k1, o)
    requires WaitersOk(k2, w) && q < NUM_PRIORITIES && forall t | t in k1.waits[w].list :: t in k1.threads
    ensures var p := k1.threads[o].prio; var f := |Fronts(k1, k1.waits[w].list, p)|;
            var r1, r2 := PopAll(k1, w, err).rq, PopAll(k2, w, err).rq;
            && f <= |r1[p]| && r2[q] == if q == p then r1[q][..f] + [o] + r1[q][f..] else r1[q]
  {
    var p, list := k1.threads[o].prio, k1.waits[w].list;
    PopAllQueues(k1, w, err, q);
    PopAllQueues(k1, w, err, p);
    PopAllQueues(k2, w, err, q);
    FrontsSame(k1, k2, list, q);
    if q == p { InsertBehind(Fronts(k1, list, p), k1.rq[p], o); }
  }

  lemma InsertBehind(f: seq<Tid>, s: seq<Tid>, o: Tid)
    ensures f + ([o] + s) == (f + s)[..|f|] + [o] + (f + s)[|f|..]
  {
  }

  /** Apart from the run queues and one bit of the bitmap, the two states stay equal. */
  lemma {:induction false} PopAllRest(k1: K, k2: K, w: Wid, p: nat, err: Status)
    requires WaitersOk(k1, w) && k2 == k1.(rq := k2.rq, bits := k1.bits + {p}) && |k2.rq| == NUM_PRIORITIES
    ensures WaitersOk(k2, w)
    ensures var r1, r2 := PopAll(k1, w, err), PopAll(k2, w, err);
            |r2.rq| == |r1.rq| == NUM_PRIORITIES && r2 == r1.(rq := r2.rq, bits := r1.bits + {p})
    decreases |k1.waits[w].list|
  {
    if k1.waits[w].list != [] {
      var t := k1.waits[w].list[0];
      var n1, n2 := InsertHead(PopWaiter(k1, w, 0, err), t), InsertHead(PopWaiter(k2, w, 0, err), t);
      assert n2.bits == n1.bits + {p};
      assert RemoveAt(k1.waits[w].list, 0) == k1.waits[w].list[1..];
      PopAllRest(n1, n2, w, p, err);
    }
  }

  lemma AllWokenAhead(k: K, k1: K, k2: K, cpu: nat, w: Wid, err: Status, o: Tid)
    requires WaitersOk(k, w) && o in k.threads && k.threads[o].prio < NUM_PRIORITIES
    requires k1 == SetThread(k, o, k.threads[o].(state := Ready)) && k2 == InsertHead(k1, o) && WaitersOk(k2, w)
    ensures forall t | t in k.waits[w].list :: t in k1.threads
    ensures var p, k' := k.threads[o].prio, PopAll(k2, w, err); var f := |Fronts(k1, k.waits[w].list, p)|;
            && f < |k'.rq[p]|
            && ((NoneAbove(k', cpu, p) && forall i | 0 <= i < f :: !Eligible(k', k'.rq[p][i], cpu))
                <==> NoneAbove(k, cpu, p) && NoneWoken(k, cpu, k.waits[w].list, p))
  {
    var p, list := k.threads[o].prio, k.waits[w].list;
    WaitersKnown(k, w);
    var k' := AllWokenState(k, k1, k2, w, err, o);
    FrontsSame(k, k1, list, p);
    WokenAhead(k, k', cpu, list, p, o);
  }

  lemma WaitersKnown(k: K, w: Wid)
    requires WaitersOk(k, w)
    ensures forall t | t in k.waits[w].list :: t in k.threads && k.threads[t].prio < NUM_PRIORITIES
  {
    var list := k.waits[w].list;
    forall t | t in list ensures t in k.threads && k.threads[t].prio < NUM_PRIORITIES {
      var i :| 0 <= i < |list| && list[i] == t;
    }
  }

  /** The queues once everybody is woken in front of the idle thread. */
  lemma AllWokenState(k: K, k1: K, k2: K, w: Wid, err: Status, o: Tid) returns (k': K)
    requires WaitersOk(k, w) && o in k.threads && k.threads[o].prio < NUM_PRIORITIES
    requires k1 == SetThread(k, o, k.threads[o].(state := Ready)) && k2 == InsertHead(k1, o) && WaitersOk(k2, w)
    requires forall t | t in k.waits[w].list :: t in k.threads && k.threads[t].prio < NUM_PRIORITIES
    ensures k' == PopAll(k2, w, err) && |k'.rq| == NUM_PRIORITIES && SamePinning(k, k')
    ensures forall q: nat | q < NUM_PRIORITIES ::
              k'.rq[q] == Fronts(k, k.waits[w].list, q) + (if q == k.threads[o].prio then [o] + k.rq[q] else k.rq[q])
  {
    k' := PopAll(k2, w, err);
    PopAllQueues(k2, w, err, 0);
    forall q: nat | q < NUM_PRIORITIES
      ensures k'.rq[q] == Fronts(k, k.waits[w].list, q) + (if q == k.threads[o].prio then [o] + k.rq[q] else k.rq[q])
    {
      WokenQueue(k, k2, w, err, o, q);
    }
  }

  lemma WokenQueue(k: K, k2: K, w: Wid, err: Status, o: Tid, q: nat)
    requires WaitersOk(k, w) && WaitersOk(k2, w) && k2.waits == k.waits && q < NUM_PRIORITIES && o in k.threads
    requires forall t | t in k.waits[w].list :: t in k.threads && t in k2.threads && k2.threads[t].prio == k.threads[t].prio
    requires k.threads[o].prio < NUM_PRIORITIES && k2.rq == k.rq[k.threads[o].prio := [o] + k.rq[k.threads[o].prio]]
    ensures PopAll(k2, w, err).rq[q]
         == Fronts(k, k.waits[w].list, q) + (if q == k.threads[o].prio then [o] + k.rq[q] else k.rq[q])
  {
    PopAllQueues(k2, w, err, q);
    FrontsSame(k, k2, k.waits[w].list, q);
  }

  lemma RunnerNotWaiting(k: K, w: Wid, cpu: nat)
    requires Inv(k) && cpu < |k.current| && w in k.waits
    ensures k.current[cpu] !in k.waits[w].list
  {
    CurrentIs(k, cpu, {});
    assert WaitOk(k, w, {});
  }

  // ------------------------------------------------------------------ inputs

  /** CPU 0 runs its idle thread 0; thread 1 is `one`, on the queues given. */
  ghost function TwoThreads(one: Thread, rq: seq<seq<Tid>>, waits: map<Wid, WaitQueue>): K {
    var idle := Thread(Running, IDLE_PRIORITY, true, 0, 0, None, NoError, 0, true, false);
    K(map[0 := idle, 1 := one], rq, {16}, waits, [0], [0])
  }

  lemma ReadyPeer() returns (k: K)
    ensures Inv(k) && |k.current| == 1 && 0 in k.threads && k.current[0] == 0 && k.threads[0].idle
    ensures 1 in k.rq[16] && Eligible(k, 1, 0)
  {
    var one := Thread(Ready, 16, false, -1, -1, None, NoError, 0, false, false);
    var rq: seq<seq<Tid>> := seq(NUM_PRIORITIES, p => if p == 16 then [1] else []);
    k := TwoThreads(one, rq, map[]);
    assert rq[16][0] == 1 && k.idle[0] == 0;
    forall p: nat | p < NUM_PRIORITIES ensures QueueOk(k, p, {}) { assert rq[p] == if p == 16 then [1] else []; }
    assert InPlace(k, 0) && InPlace(k, 1);
  }

  lemma BlockedPeer() returns (k: K)
    ensures Inv(k) && |k.current| == 1 && 0 in k.threads && k.current[0] == 0 && k.threads[0].idle && k.threads[0].prio == IDLE_PRIORITY
    ensures Object(0) in k.waits && k.waits[Object(0)].list == [1] && Eligible(k, 1, 0) && k.threads[1].prio == 16
  {
    var one := Thread(Blocked, 16, false, -1, -1, Some(Object(0)), NoError, 0, false, false);
    var rq: seq<seq<Tid>> := seq(NUM_PRIORITIES, _ => []);
    k := TwoThreads(one, rq, map[Object(0) := WaitQueue([1], 1)]);
    assert k.waits[Object(0)].list[0] == 1 && k.idle[0] == 0;
    assert InPlace(k, 0) && InPlace(k, 1);
  }

  /** With thread 1 ready at priority 16, an idle thread that asks for priority 1 stays queued. */
  lemma SetPriorityExample()
    ensures exists k: K :: Inv(k) && Basic(k, 0) && !Inv(SetPriority(k, 0, 1))
  {
    var k := ReadyPeer();
    SetPriorityKeepsIff(k, 0, 1);
    var i :| 0 <= i < |k.rq[16]| && k.rq[16][i] == 1;
    assert !NoneAbove(k, 0, 1);
  }

  /** An idle thread that wakes thread 1 and reschedules stays queued. */
  lemma WakeExample()
    ensures exists k: K :: Inv(k) && Basic(k, 0) && WaitersOk(k, Object(0))
              && !Inv(WakeOne(k, 0, Object(0), true, NoError)) && !Inv(WakeAll(k, 0, Object(0), true, NoError))
  {
    var k := BlockedPeer();
    WakeOneKeepsIff(k, 0, Object(0), true, NoError);
    WakeAllKeepsIff(k, 0, Object(0), true, NoError);
    assert 1 in [1] && [1][..1] == [1];
    assert !NoneWoken(k, 0, [1], 0);
  }
}
