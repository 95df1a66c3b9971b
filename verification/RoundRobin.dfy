/** Yielding among equals: the threads of the top band take turns in a fixed order. */
module RoundRobin {
  import opened Wrappers
  import opened SchedSpec
  import opened SchedInv
  import opened SchedEffects

  ghost predicate Peer(k: K, t: Tid, p: nat) {
    t in k.threads && k.threads[t].pinned < 0 && !k.threads[t].idle && k.threads[t].prio == p
  }

  /** The CPU runs a peer of priority `p`, so do all who wait at `p`, and nothing above may run here. */
  ghost predicate TopBand(k: K, cpu: nat, p: nat) {
    && Basic(k, cpu) && p < NUM_PRIORITIES
    && k.threads[k.current[cpu]].currCpu == cpu && Peer(k, k.current[cpu], p)
    && (forall i | 0 <= i < |k.rq[p]| :: Peer(k, k.rq[p][i], p))
    && NoneAbove(k, cpu, p)
  }

  /** The running thread, then its peers in queue order. */
  ghost function Ring(k: K, cpu: nat, p: nat): seq<Tid>
    requires cpu < |k.current| && p < |k.rq|
  {
    [k.current[cpu]] + k.rq[p]
  }

  ghost function Rotate(s: seq<Tid>, i: nat): seq<Tid>
    requires i <= |s|
  {
    s[i..] + s[..i]
  }

  /** The state in which the yielder is queued and the choice is made. */
  ghost function Queued(k: K, cpu: nat): K
    requires Basic(k, cpu)
  {
    var t := k.current[cpu];
    InsertTail(SetThread(k, t, k.threads[t].(state := Ready, quantum := 0)), t)
  }

  lemma QueuedIs(k: K, cpu: nat, p: nat)
    requires TopBand(k, cpu, p)
    ensures var t, k1 := k.current[cpu], Queued(k, cpu);
            && k1.rq == k.rq[p := k.rq[p] + [t]] && k1.current == k.current && k1.idle == k.idle
            && TopBand(k1, cpu, p) && Yield(k, cpu) == Resched(k1, cpu)
  {
    var k1 := Queued(k, cpu);
    assert k1.rq[p] == k.rq[p] + [k.current[cpu]];
    forall i | 0 <= i < |k1.rq[p]| ensures Peer(k1, k1.rq[p][i], p) {
      if i < |k.rq[p]| { assert Peer(k, k.rq[p][i], p); }
    }
    forall q, j | p < q < |k1.rq| && 0 <= j < |k1.rq[q]| ensures !Eligible(k1, k1.rq[q][j], cpu) {
      assert !Eligible(k, k.rq[q][j], cpu);
    }
  }

  /** With a peer queued, the choice is the head of the band's queue. */
  lemma PicksHead(k: K, cpu: nat, p: nat)
    requires TopBand(k, cpu, p) && k.rq[p] != []
    ensures PickFrom(k, cpu, NUM_PRIORITIES) == Some((p, 0))
  {
    assert Peer(k, k.rq[p][0], p) && Eligible(k, k.rq[p][0], cpu);
    PickIsBest(k, cpu, NUM_PRIORITIES);
  }

  /** Rescheduling runs the head of the band's queue and leaves the rest of it waiting. */
  lemma ReschedRunsHead(k: K, cpu: nat, p: nat)
    requires TopBand(k, cpu, p) && k.rq[p] != []
    ensures var k' := Resched(k, cpu);
            && k'.rq == k.rq[p := k.rq[p][1..]] && k'.current == k.current[cpu := k.rq[p][0]] && TopBand(k', cpu, p)
  {
    PicksHead(k, cpu, p);
    assert RemoveAt(k.rq[p], 0) == k.rq[p][1..];
    var k2, h := TakeQueued(k, p, 0, true), k.rq[p][0];
    assert Top(k, cpu) == (h, k2) && Peer(k, h, p);
    DispatchIs(k2, cpu, h);
    var k' := Dispatch(k2, cpu, h);
    forall i | 0 <= i < |k'.rq[p]| ensures Peer(k', k'.rq[p][i], p) { assert Peer(k, k.rq[p][i + 1], p); }
    forall q, j | p < q < |k'.rq| && 0 <= j < |k'.rq[q]| ensures !Eligible(k', k'.rq[q][j], cpu) {
      assert !Eligible(k, k.rq[q][j], cpu);
    }
  }

  /** One yield turns the ring by one place. */
  lemma YieldTurns(k: K, cpu: nat, p: nat)
    requires TopBand(k, cpu, p)
    ensures TopBand(Yield(k, cpu), cpu, p)
    ensures Ring(Yield(k, cpu), cpu, p) == Rotate(Ring(k, cpu, p), 1)
  {
    QueuedIs(k, cpu, p);
    ReschedRunsHead(Queued(k, cpu), cpu, p);
  }

  /** One preemption leaves the ring as it is while the running thread has quantum left, and turns it by
      one place when it has none. */
  lemma PreemptTurns(k: K, cpu: nat, p: nat)
    requires TopBand(k, cpu, p)
    ensures TopBand(Preempt(k, cpu), cpu, p)
    ensures Ring(Preempt(k, cpu), cpu, p)
         == if k.threads[k.current[cpu]].quantum > 0 then Ring(k, cpu, p) else Rotate(Ring(k, cpu, p), 1)
  {
    var s := BandQueue(k, cpu, p);
    PreemptQueues(k, cpu, p);
    BandTakes(k, cpu, p, s, Preempt(k, cpu));
    BandKept(k, cpu, p, s, Preempt(k, cpu));
    BandRing(k, cpu, p);
  }

  /** The queue of the band once the running thread is back on it. */
  ghost function BandQueue(k: K, cpu: nat, p: nat): seq<Tid>
    requires Basic(k, cpu) && p < |k.rq|
  {
    var o := k.current[cpu];
    if k.threads[o].quantum > 0 then [o] + k.rq[p] else k.rq[p] + [o]
  }

  lemma BandRing(k: K, cpu: nat, p: nat)
    requires Basic(k, cpu) && p < |k.rq|
    ensures var s := BandQueue(k, cpu, p);
            && s != [] && (forall i | 0 <= i < |s| :: s[i] == k.current[cpu] || s[i] in k.rq[p])
            && [s[0]] + s[1..] == if k.threads[k.current[cpu]].quantum > 0 then Ring(k, cpu, p) else Rotate(Ring(k, cpu, p), 1)
  {
  }

  lemma PreemptQueues(k: K, cpu: nat, p: nat)
    requires TopBand(k, cpu, p)
    ensures var s, o := BandQueue(k, cpu, p), k.current[cpu];
            && s != [] && (forall i | 0 <= i < |s| :: s[i] == o || s[i] in k.rq[p])
            && Switches(k, k.threads[o := k.threads[o].(state := Ready)], k.rq[p := s], k.waits, cpu, Preempt(k, cpu))
  {
    PreemptIs(k, cpu);
  }

  /** With these peers queued the CPU takes the head of the band. */
  lemma BandTakes(k: K, cpu: nat, p: nat, s: seq<Tid>, k': K)
    requires TopBand(k, cpu, p) && s != [] && Takes(k, k.rq[p := s], cpu, k')
    requires forall i | 0 <= i < |s| :: s[i] == k.current[cpu] || s[i] in k.rq[p]
    ensures k'.current[cpu] == s[0] && k'.rq == k.rq[p := s[1..]]
  {
    assert s[0] in k.rq[p] ==> Peer(k, s[0], p);
    assert First(k, k.rq[p := s], cpu, p, 0);
    TakesFirst(k, k.rq[p := s], cpu, p, 0, k');
    assert RemoveAt(s, 0) == s[1..];
  }

  lemma BandKept(k: K, cpu: nat, p: nat, s: seq<Tid>, k': K)
    requires TopBand(k, cpu, p) && s != [] && forall i | 0 <= i < |s| :: s[i] == k.current[cpu] || s[i] in k.rq[p]
    requires Switches(k, k.threads[k.current[cpu] := k.threads[k.current[cpu]].(state := Ready)], k.rq[p := s], k.waits, cpu, k')
    requires k'.current[cpu] == s[0] && k'.rq == k.rq[p := s[1..]]
    ensures TopBand(k', cpu, p)
  {
    forall t | t == k.current[cpu] || t in k.rq[p] ensures Peer(k', t, p) { assert Peer(k, t, p); }
    forall q, j | p < q < |k'.rq| && 0 <= j < |k'.rq[q]| ensures !Eligible(k', k'.rq[q][j], cpu) {
      assert !Eligible(k, k.rq[q][j], cpu);
    }
    forall i | 0 <= i < |k'.rq[p]| ensures Peer(k', k'.rq[p][i], p) { assert k'.rq[p][i] == s[i + 1]; }
  }

  /** The state after `i` yields. */
  ghost function Yields(k: K, cpu: nat, p: nat, i: nat): (r: K)
    requires TopBand(k, cpu, p)
    ensures TopBand(r, cpu, p)
  {
    if i == 0 then k
    else
      YieldTurns(Yields(k, cpu, p, i - 1), cpu, p);
      Yield(Yields(k, cpu, p, i - 1), cpu)
  }

  lemma {:induction false} YieldsTurn(k: K, cpu: nat, p: nat, i: nat)
    requires TopBand(k, cpu, p) && i <= |Ring(k, cpu, p)|
    ensures Ring(Yields(k, cpu, p, i), cpu, p) == Rotate(Ring(k, cpu, p), i)
  {
    if i > 0 {
      YieldsTurn(k, cpu, p, i - 1);
      YieldTurns(Yields(k, cpu, p, i - 1), cpu, p);
      RotateOn(Ring(k, cpu, p), i - 1);
    }
  }

  lemma RotateOn(s: seq<Tid>, i: nat)
    requires i < |s|
    ensures Rotate(Rotate(s, i), 1) == Rotate(s, i + 1)
  {
  }

  /** The i-th yield runs the i-th thread of the ring; as many yields as there are threads
      run each once and restore the order. */
  lemma YieldRotation(k: K, cpu: nat, p: nat)
    requires Inv(k) && TopBand(k, cpu, p)
    ensures Distinct(Ring(k, cpu, p))
    ensures forall i: nat | i < |Ring(k, cpu, p)| :: Yields(k, cpu, p, i).current[cpu] == Ring(k, cpu, p)[i]
    ensures Ring(Yields(k, cpu, p, |Ring(k, cpu, p)|), cpu, p) == Ring(k, cpu, p)
  {
    RingDistinct(k, cpu, p);
    var r := Ring(k, cpu, p);
    forall i: nat | i < |r| ensures Yields(k, cpu, p, i).current[cpu] == r[i] {
      YieldsTurn(k, cpu, p, i);
      assert Ring(Yields(k, cpu, p, i), cpu, p)[0] == Rotate(r, i)[0];
    }
    YieldsTurn(k, cpu, p, |r|);
  }

  lemma RingDistinct(k: K, cpu: nat, p: nat)
    requires Inv(k) && cpu < |k.current| && p < NUM_PRIORITIES
    ensures Distinct(Ring(k, cpu, p))
  {
    CurrentIs(k, cpu, {});
    assert QueueOk(k, p, {});
  }
}
