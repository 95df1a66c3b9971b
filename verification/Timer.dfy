/** kernel/timer.c: one CPU's queue of timers, kept in deadline order on a 32-bit clock that wraps. */
module Timer {
  import opened Wrappers

  type Id = nat
  type u32 = x: int | 0 <= x < 0x1_0000_0000
  const HALF: int := 0x8000_0000
  const WORD: int := 0x1_0000_0000

  datatype Rec = Rec(at: u32, period: u32)

  /** Timer records, the queue, and the time the one-shot hardware timer is set to go off at. */
  datatype Q = Q(recs: map<Id, Rec>, queue: seq<Id>, armed: Option<u32>)

  // ------------------------------------------------------------- the clock

  function Plus(a: u32, b: u32): u32 { (a + b) % WORD }

  /** (int32_t)(a - b) */
  function Diff(a: u32, b: u32): int {
    var d := (a - b) % WORD;
    if d >= HALF then d - WORD else d
  }

  predicate TimeGt(a: u32, b: u32) { Diff(a, b) > 0 }
  predicate TimeLt(a: u32, b: u32) { Diff(a, b) < 0 }

  /** How far a clock value lies after `base`. */
  function Off(base: u32, a: u32): nat { (a - base) % WORD }

  /** A delay of at - now ends at `at`. */
  lemma DelayTo(now: u32, at: u32)
    ensures Plus(now, (at - now) % WORD) == at
  {
  }

  /** Within half the clock's range after some base, comparing wrapped times is comparing times. */
  lemma Compare(base: u32, a: u32, b: u32)
    requires Off(base, a) < HALF && Off(base, b) < HALF
    ensures Diff(a, b) == Off(base, a) - Off(base, b)
  {
  }

  lemma PlusOff(base: u32, a: u32, d: u32)
    requires Off(base, a) + d < WORD
    ensures Off(base, Plus(a, d)) == Off(base, a) + d
  {
  }

  // ------------------------------------------------------------- the queue

  ghost predicate Known(q: Q) { forall i | 0 <= i < |q.queue| :: q.queue[i] in q.recs }

  ghost function At(q: Q, base: u32, i: nat): nat
    requires i < |q.queue| && Known(q)
  {
    Off(base, q.recs[q.queue[i]].at)
  }

  ghost predicate Sorted(q: Q, base: u32)
    requires Known(q)
  {
    forall i, j | 0 <= i < j < |q.queue| :: At(q, base, i) <= At(q, base, j)
  }

  /** Queued timers are distinct and in deadline order, all within half the clock's range. */
  ghost predicate WF(q: Q, base: u32) {
    && Known(q) && Sorted(q, base)
    && (forall i | 0 <= i < |q.queue| :: At(q, base, i) < HALF)
    && Distinct(q.queue)
  }

  /** Where insert_timer_in_queue puts a timer due at `at`: before the first later one. */
  function Place(q: Q, at: u32, i: nat): (r: nat)
    requires i <= |q.queue| && forall j | 0 <= j < |q.queue| :: q.queue[j] in q.recs
    ensures i <= r <= |q.queue|
    decreases |q.queue| - i
  {
    if i == |q.queue| || TimeGt(q.recs[q.queue[i]].at, at) then i else Place(q, at, i + 1)
  }

  lemma {:induction false} PlaceIs(q: Q, base: u32, at: u32, i: nat)
    requires WF(q, base) && Off(base, at) < HALF && i <= |q.queue|
    ensures var r := Place(q, at, i);
            && (forall j | i <= j < r :: At(q, base, j) <= Off(base, at))
            && (r < |q.queue| ==> At(q, base, r) > Off(base, at))
    decreases |q.queue| - i
  {
    if i < |q.queue| {
      assert At(q, base, i) < HALF;
      Compare(base, q.recs[q.queue[i]].at, at);
      if At(q, base, i) <= Off(base, at) { PlaceIs(q, base, at, i + 1); }
    }
  }

  /** insert_timer_in_queue of a timer with record `r` */
  function Insert(q: Q, id: Id, r: Rec): Q
    requires forall j | 0 <= j < |q.queue| :: q.queue[j] in q.recs
  {
    Q(q.recs[id := r], InsertAt(q.queue, Place(q, r.at, 0), id), q.armed)
  }

  lemma InsertAts(q: Q, base: u32, id: Id, r: Rec, i: nat)
    requires Known(q) && id !in q.queue && i <= |q.queue|
    ensures var p, q' := Place(q, r.at, 0), Insert(q, id, r);
            && |q'.queue| == |q.queue| + 1 && Known(q')
            && q'.queue[i] == (if i < p then q.queue[i] else if i == p then id else q.queue[i - 1])
            && At(q', base, i) == if i < p then At(q, base, i) else if i == p then Off(base, r.at) else At(q, base, i - 1)
  {
    var p, q' := Place(q, r.at, 0), Insert(q, id, r);
    assert forall j | 0 <= j < |q'.queue| :: q'.queue[j] == if j < p then q.queue[j] else if j == p then id else q.queue[j - 1];
  }

  /** Insertion keeps the queue in order, and puts a timer behind those due at the same time. */
  lemma InsertKeeps(q: Q, base: u32, id: Id, r: Rec)
    requires WF(q, base) && id !in q.queue && Off(base, r.at) < HALF
    ensures WF(Insert(q, id, r), base)
    ensures var p := Place(q, r.at, 0);
            && (forall j | 0 <= j < p :: At(q, base, j) <= Off(base, r.at))
            && (forall j | p <= j < |q.queue| :: At(q, base, j) > Off(base, r.at))
  {
    var p, q' := Place(q, r.at, 0), Insert(q, id, r);
    PlaceIs(q, base, r.at, 0);
    InsertAts(q, base, id, r, 0);
    forall j | p <= j < |q.queue| ensures At(q, base, j) > Off(base, r.at) {
      if j > p { assert At(q, base, p) <= At(q, base, j); }
    }
    forall i | 0 <= i < |q'.queue| ensures At(q', base, i) < HALF { InsertAts(q, base, id, r, i); }
    forall i, j | 0 <= i < j < |q'.queue| ensures At(q', base, i) <= At(q', base, j) && q'.queue[i] != q'.queue[j] {
      InsertAts(q, base, id, r, i);
      InsertAts(q, base, id, r, j);
      OrderedPair(q, base, if i <= p then i else i - 1, j - 1);
    }
  }

  lemma OrderedPair(q: Q, base: u32, i: nat, j: nat)
    requires WF(q, base) && i < |q.queue| && j < |q.queue|
    ensures i < j ==> At(q, base, i) <= At(q, base, j) && q.queue[i] != q.queue[j]
  {
  }

  // ------------------------------------------------------------ what is due

  /** The number of timers at the front of the queue, from the i-th on, that are due at `now`. */
  function Due(q: Q, now: u32, i: nat): (r: nat)
    requires i <= |q.queue| && forall j | 0 <= j < |q.queue| :: q.queue[j] in q.recs
    ensures i <= r <= |q.queue|
    decreases |q.queue| - i
  {
    if i == |q.queue| || TimeLt(now, q.recs[q.queue[i]].at) then i else Due(q, now, i + 1)
  }

  ghost function DueIds(q: Q, now: u32): seq<Id>
    requires Known(q)
  {
    q.queue[..Due(q, now, 0)]
  }

  /** The count is determined by what is due. */
  lemma {:induction false} DueIs(q: Q, base: u32, now: u32, i: nat, d: nat)
    requires WF(q, base) && Off(base, now) < HALF && i <= d <= |q.queue|
    requires forall j | i <= j < d :: At(q, base, j) <= Off(base, now)
    requires d < |q.queue| ==> At(q, base, d) > Off(base, now)
    ensures Due(q, now, i) == d
    decreases d - i
  {
    if i < |q.queue| { assert At(q, base, i) < HALF; Compare(base, now, q.recs[q.queue[i]].at); }
    if i < d { DueIs(q, base, now, i + 1, d); }
  }

  /** Due timers are those whose time has come: none before its time, none left out. */
  lemma {:induction false} DueExact(q: Q, base: u32, now: u32, i: nat)
    requires WF(q, base) && Off(base, now) < HALF && i <= |q.queue|
    ensures var d := Due(q, now, i);
            && (forall j | i <= j < d :: At(q, base, j) <= Off(base, now))
            && (forall j | d <= j < |q.queue| :: At(q, base, j) > Off(base, now))
    decreases |q.queue| - i
  {
    if i < |q.queue| {
      assert At(q, base, i) < HALF;
      Compare(base, now, q.recs[q.queue[i]].at);
      if At(q, base, i) <= Off(base, now) {
        DueExact(q, base, now, i + 1);
      } else {
        assert forall j | i < j < |q.queue| :: At(q, base, i) <= At(q, base, j);
      }
    }
  }

  /** Putting in a timer that is not due changes nothing about what is. */
  lemma InsertLater(q: Q, base: u32, now: u32, id: Id, r: Rec)
    requires WF(q, base) && id !in q.queue && Off(base, now) < Off(base, r.at) < HALF
    ensures WF(Insert(q, id, r), base) && DueIds(Insert(q, id, r), now) == DueIds(q, now)
  {
    var d, p, q' := Due(q, now, 0), Place(q, r.at, 0), Insert(q, id, r);
    InsertKeeps(q, base, id, r);
    DueExact(q, base, now, 0);
    assert p < |q.queue| ==> At(q, base, p) > Off(base, now);
    assert d <= p;
    assert q'.queue[..d] == q.queue[..d];
    forall j | 0 <= j < d ensures At(q', base, j) <= Off(base, now) { assert q'.queue[j] == q.queue[j]; assert At(q, base, j) <= Off(base, now); }
    if d < |q'.queue| {
      assert q'.queue[d] == if d < p then q.queue[d] else id;
      if d < p { assert At(q, base, d) > Off(base, now); }
    }
    DueIs(q', base, now, 0, d);
  }

  // ---------------------------------------------------------------- operations

  /** timer_set at time `now` */
  function Set(q: Q, id: Id, now: u32, delay: u32, period: u32): Q
    requires forall j | 0 <= j < |q.queue| :: q.queue[j] in q.recs
  {
    var q' := Insert(q, id, Rec(Plus(now, delay), period));
    if q'.queue[0] == id then q'.(armed := Some(Plus(now, delay))) else q'
  }

  /** timer_cancel at time `now` */
  function Cancel(q: Q, id: Id, now: u32): Q
    requires id in q.recs && forall j | 0 <= j < |q.queue| :: q.queue[j] in q.recs
  {
    var recs := q.recs[id := q.recs[id].(period := 0)];
    var rest := Without(q.queue, id);
    assert forall j | 0 <= j < |rest| :: rest[j] in q.queue;
    Q(recs, rest,
      if rest == [] then None
      else if rest[0] != q.queue[0] then
        Some(if TimeLt(recs[rest[0]].at, now) then now else recs[rest[0]].at)
      else q.armed)
  }

  /** Taking one timer out of the queue. */
  ghost function Drop(q: Q, p: nat): Q
    requires p < |q.queue|
  {
    q.(queue := q.queue[..p] + q.queue[p + 1..])
  }

  ghost function Skip(p: nat, i: nat): nat { if i < p then i else i + 1 }

  lemma DropAts(q: Q, base: u32, p: nat, i: nat)
    requires WF(q, base) && p < |q.queue| && i < |q.queue| - 1
    ensures |Drop(q, p).queue| == |q.queue| - 1 && Known(Drop(q, p))
    ensures Drop(q, p).queue[i] == q.queue[Skip(p, i)] && At(Drop(q, p), base, i) == At(q, base, Skip(p, i))
  {
    var q' := Drop(q, p);
    assert forall j | 0 <= j < |q'.queue| :: q'.queue[j] == q.queue[Skip(p, j)];
  }

  lemma DropWF(q: Q, base: u32, p: nat)
    requires WF(q, base) && p < |q.queue|
    ensures WF(Drop(q, p), base) && q.queue[p] !in Drop(q, p).queue
  {
    var q' := Drop(q, p);
    if |q'.queue| > 0 { DropAts(q, base, p, 0); }
    forall i | 0 <= i < |q'.queue| ensures At(q', base, i) < HALF && q'.queue[i] != q.queue[p] { DropAts(q, base, p, i); }
    forall i, j | 0 <= i < j < |q'.queue| ensures At(q', base, i) <= At(q', base, j) && q'.queue[i] != q'.queue[j] {
      DropAts(q, base, p, i);
      DropAts(q, base, p, j);
      OrderedPair(q, base, Skip(p, i), Skip(p, j));
    }
  }

  lemma DropKeeps(q: Q, base: u32, now: u32, p: nat)
    requires WF(q, base) && Off(base, now) < HALF && p < |q.queue|
    ensures WF(Drop(q, p), base) && q.queue[p] !in Drop(q, p).queue
    ensures var d := Due(q, now, 0);
            DueIds(Drop(q, p), now) == if p < d then q.queue[..p] + q.queue[p + 1..d] else q.queue[..d]
  {
    var d, q' := Due(q, now, 0), Drop(q, p);
    DropWF(q, base, p);
    DueExact(q, base, now, 0);
    var d' := if p < d then d - 1 else d;
    forall i | 0 <= i < d' ensures At(q', base, i) <= Off(base, now) { DropAts(q, base, p, i); }
    if d' < |q'.queue| { DropAts(q, base, p, d'); }
    DueIs(q', base, now, 0, d');
    DropSlice(q.queue, p, d);
  }

  lemma DropSlice(s: seq<Id>, p: nat, d: nat)
    requires p < |s| && d <= |s|
    ensures var r := s[..p] + s[p + 1..];
            if p < d then r[..d - 1] == s[..p] + s[p + 1..d] else r[..d] == s[..d]
  {
  }

  // ---------------------------------------------------------------- callbacks

  /** `a` is `b` with some entries left out. */
  ghost predicate SubSeq(a: seq<Id>, b: seq<Id>) {
    a == [] || (b != [] && ((a[0] == b[0] && SubSeq(a[1..], b[1..])) || SubSeq(a, b[1..])))
  }

  lemma {:induction false} SubSeqSame(a: seq<Id>)
    ensures SubSeq(a, a)
  {
    if a != [] { SubSeqSame(a[1..]); }
  }

  lemma {:induction false} SubSeqTrans(a: seq<Id>, b: seq<Id>, c: seq<Id>)
    requires SubSeq(a, b) && SubSeq(b, c)
    ensures SubSeq(a, c)
    decreases |b| + |c|
  {
    if a != [] {
      if b[0] == c[0] && SubSeq(b[1..], c[1..]) {
        if a[0] == b[0] && SubSeq(a[1..], b[1..]) { SubSeqTrans(a[1..], b[1..], c[1..]); } else { SubSeqTrans(a, b[1..], c[1..]); }
      } else {
        SubSeqTrans(a, b, c[1..]);
      }
    }
  }

  lemma {:induction false} SubSeqPrefix(p: seq<Id>, a: seq<Id>, b: seq<Id>)
    requires SubSeq(a, b)
    ensures SubSeq(p + a, p + b)
  {
    if p == [] {
      assert p + a == a && p + b == b;
    } else {
      SubSeqPrefix(p[1..], a, b);
      assert (p + a)[1..] == p[1..] + a && (p + b)[1..] == p[1..] + b;
    }
  }

  lemma SubSeqDrop(s: seq<Id>, p: nat)
    requires p < |s|
    ensures SubSeq(s[..p] + s[p + 1..], s)
  {
    SubSeqSame(s[p + 1..]);
    assert s[p..][1..] == s[p + 1..];
    assert SubSeq(s[p + 1..], s[p..]);
    SubSeqPrefix(s[..p], s[p + 1..], s[p..]);
    assert s[..p] + s[p..] == s;
  }

  /** The queue is well formed and no period reaches beyond half the clock's range from `now`. */
  ghost predicate Good(q: Q, base: u32, now: u32) {
    && WF(q, base) && Off(base, now) < HALF
    && forall id | id in q.recs :: Off(base, now) + q.recs[id].period < HALF
  }

  /** What a callback may do: cancel timers and set new ones that are not due yet. */
  ghost predicate MayDo(q: Q, q': Q, base: u32, now: u32)
    requires Good(q, base, now)
  {
    Good(q', base, now) && q.recs.Keys <= q'.recs.Keys && SubSeq(DueIds(q', now), DueIds(q, now))
  }

  /** timer_set with a delay of at least 1, at the tick's time or after it, is such a thing ... */
  lemma SetMayDo(q: Q, base: u32, now: u32, id: Id, clock: u32, delay: u32, period: u32)
    requires Good(q, base, now) && id !in q.queue && delay >= 1
    requires Off(base, now) <= Off(base, clock) && Off(base, clock) + delay < HALF && Off(base, now) + period < HALF
    ensures MayDo(q, Set(q, id, clock, delay, period), base, now)
    ensures DueIds(Set(q, id, clock, delay, period), now) == DueIds(q, now)
  {
    PlusOff(base, clock, delay);
    InsertLater(q, base, now, id, Rec(Plus(clock, delay), period));
    Rearmed(Insert(q, id, Rec(Plus(clock, delay), period)), Set(q, id, clock, delay, period), base, now);
    SubSeqSame(DueIds(q, now));
  }

  /** The hardware timer plays no part in what is due. */
  lemma Rearmed(q: Q, q': Q, base: u32, now: u32)
    requires WF(q, base) && Off(base, now) < HALF && q' == q.(armed := q'.armed)
    ensures WF(q', base) && DueIds(q', now) == DueIds(q, now)
  {
    SameDue(q, q', base, now);
  }

  /** Nor do the periods. */
  lemma SameDue(q: Q, q': Q, base: u32, now: u32)
    requires WF(q, base) && Off(base, now) < HALF && q'.queue == q.queue
    requires forall id | id in q.queue :: id in q'.recs && q'.recs[id].at == q.recs[id].at
    ensures WF(q', base) && DueIds(q', now) == DueIds(q, now)
  {
    assert forall i | 0 <= i < |q.queue| :: q.queue[i] in q.queue;
    assert forall i | 0 <= i < |q.queue| :: At(q', base, i) == At(q, base, i);
    DueExact(q, base, now, 0);
    DueIs(q', base, now, 0, Due(q, now, 0));
  }

  lemma PrefixSlices(s: seq<Id>, p: nat, d: nat)
    requires p < d <= |s|
    ensures s[..d][..p] == s[..p] && s[..d][p + 1..] == s[p + 1..d]
  {
  }

  lemma CancelDue(q: Q, base: u32, now: u32, id: Id, clock: u32)
    requires WF(q, base) && Off(base, now) < HALF && id in q.recs
    ensures WF(Cancel(q, id, clock), base) && id !in Cancel(q, id, clock).queue
    ensures SubSeq(DueIds(Cancel(q, id, clock), now), DueIds(q, now))
  {
    var q', q1 := Cancel(q, id, clock), q.(recs := q.recs[id := q.recs[id].(period := 0)]);
    SameDue(q, q1, base, now);
    WithoutIs(q.queue, id);
    if id in q.queue {
      var p: nat :| p < |q.queue| && q.queue[p] == id;
      WithoutOne(q.queue, id, p);
      DropDue(q1, base, now, p);
      Rearmed(Drop(q1, p), q', base, now);
    } else {
      WithoutNone(q.queue, id);
      Rearmed(q1, q', base, now);
      SubSeqSame(DueIds(q, now));
    }
  }

  lemma DropDue(q: Q, base: u32, now: u32, p: nat)
    requires WF(q, base) && Off(base, now) < HALF && p < |q.queue|
    ensures WF(Drop(q, p), base) && SubSeq(DueIds(Drop(q, p), now), DueIds(q, now))
  {
    DropKeeps(q, base, now, p);
    var s := DueIds(q, now);
    if p < |s| {
      SubSeqDrop(s, p);
      PrefixSlices(q.queue, p, |s|);
    } else {
      SubSeqSame(s);
    }
  }

  /** ... and so is timer_cancel. */
  lemma CancelMayDo(q: Q, base: u32, now: u32, id: Id, clock: u32)
    requires Good(q, base, now) && id in q.recs
    ensures MayDo(q, Cancel(q, id, clock), base, now)
  {
    CancelDue(q, base, now, id, clock);
  }

  /** Callbacks one after the other. */
  lemma MayDoBoth(q: Q, q1: Q, q2: Q, base: u32, now: u32)
    requires Good(q, base, now) && MayDo(q, q1, base, now) && MayDo(q1, q2, base, now)
    ensures MayDo(q, q2, base, now)
  {
    SubSeqTrans(DueIds(q2, now), DueIds(q1, now), DueIds(q, now));
  }

  // ------------------------------------------- what stays, and what the hardware is set to

  /** timer_set puts in one timer, due `delay` after now, and leaves the others as they were and in their
      order; if it comes first the hardware timer is set for it. */
  lemma SetIs(q: Q, id: Id, now: u32, delay: u32, period: u32)
    requires Known(q) && id !in q.queue
    ensures var q' := Set(q, id, now, delay, period);
            && q'.recs == q.recs[id := Rec((now + delay) % WORD, period)]
            && (exists i :: 0 <= i <= |q.queue| && q'.queue == q.queue[..i] + [id] + q.queue[i..])
            && q'.queue != [] && q'.armed == if q'.queue[0] == id then Some((now + delay) % WORD) else q.armed
  {
    var i := Place(q, Plus(now, delay), 0);
    assert Set(q, id, now, delay, period).queue == q.queue[..i] + [id] + q.queue[i..];
  }

  /** `b` is `a` without `id`, the others in their order. */
  ghost predicate Left(a: seq<Id>, b: seq<Id>, id: Id) {
    && id !in b && (forall t | t != id :: t in b <==> t in a)
    && if id in a then exists i :: 0 <= i <= |b| && a == b[..i] + [id] + b[i..] else b == a
  }

  /** timer_cancel takes out one timer and leaves the others as they were and in their order. With none left
      the hardware timer is stopped; for a new head it is set to its deadline or, if that has passed, to now;
      otherwise it is left alone. */
  lemma CancelIs(q: Q, id: Id, now: u32)
    requires Known(q) && Distinct(q.queue) && id in q.recs
    ensures var q' := Cancel(q, id, now);
            && Left(q.queue, q'.queue, id) && Known(q') && q'.recs == q.recs[id := Rec(q.recs[id].at, 0)]
    ensures Rearms(q, Cancel(q, id, now), now)
  {
    LeftIs(q.queue, id);
    CancelArms(q, id, now);
  }

  ghost predicate Rearms(q: Q, q': Q, now: u32)
    requires Known(q')
  {
    && (q'.queue == [] ==> q'.armed == None)
    && (q'.queue != [] && q.queue != [] && q'.queue[0] == q.queue[0] ==> q'.armed == q.armed)
    && (q'.queue != [] && (q.queue == [] || q'.queue[0] != q.queue[0]) ==>
          var at := q'.recs[q'.queue[0]].at; q'.armed == Some(if TimeLt(at, now) then now else at))
  }

  lemma CancelArms(q: Q, id: Id, now: u32)
    requires Known(q) && id in q.recs
    ensures Known(Cancel(q, id, now)) && Rearms(q, Cancel(q, id, now), now)
  {
    var rest := Without(q.queue, id);
    forall i | 0 <= i < |rest| ensures rest[i] in q.recs {
      assert rest[i] in q.queue;
      var j :| 0 <= j < |q.queue| && q.queue[j] == rest[i];
    }
  }

  lemma PutBack(a: seq<Id>, i: nat)
    requires i < |a|
    ensures var b := RemoveAt(a, i); a == b[..i] + [a[i]] + b[i..]
  {
  }

  lemma LeftIs(a: seq<Id>, id: Id)
    requires Distinct(a)
    ensures Left(a, Without(a, id), id)
  {
    WithoutIs(a, id);
    if id in a {
      var i :| 0 <= i < |a| && a[i] == id;
      WithoutOne(a, id, i);
      PutBack(a, i);
    } else {
      WithoutNone(a, id);
    }
  }

  /** The hardware timer goes off when the first timer is due, or at once if it is overdue. */
  ghost predicate Served(q: Q, base: u32, clock: u32) {
    q.queue != [] ==>
      && Known(q) && q.armed.Some?
      && At(q, base, 0) <= Off(base, q.armed.value)
      && (Off(base, q.armed.value) <= At(q, base, 0) || Off(base, q.armed.value) <= Off(base, clock))
  }

  /** timer_set and timer_cancel keep it so, at whatever later time they are called. */
  lemma SetServed(q: Q, base: u32, before: u32, id: Id, now: u32, delay: u32, period: u32)
    requires WF(q, base) && Served(q, base, before) && Off(base, before) <= Off(base, now) && id !in q.queue
    requires Off(base, now) + delay < HALF
    ensures Served(Set(q, id, now, delay, period), base, now)
  {
    SetIs(q, id, now, delay, period);
    PlusOff(base, now, delay);
  }

  lemma CancelServed(q: Q, base: u32, before: u32, id: Id, now: u32)
    requires WF(q, base) && Served(q, base, before) && Off(base, before) <= Off(base, now) < HALF && id in q.recs
    ensures Served(Cancel(q, id, now), base, now)
  {
    var q' := Cancel(q, id, now);
    CancelArms(q, id, now);
    if q'.queue != [] { HeadStays(q, base, id, now); }
  }

  /** The head after a cancel was on the queue before, and not before the old head. */
  lemma HeadStays(q: Q, base: u32, id: Id, now: u32)
    requires WF(q, base) && id in q.recs && Off(base, now) < HALF && Cancel(q, id, now).queue != []
    ensures var q' := Cancel(q, id, now);
            && Known(q') && q.queue != [] && (q'.queue[0] == q.queue[0] ==> At(q', base, 0) == At(q, base, 0))
            && (TimeLt(q'.recs[q'.queue[0]].at, now) <==> At(q', base, 0) < Off(base, now))
  {
    CancelArms(q, id, now);
    var h := Cancel(q, id, now).queue[0];
    assert h in q.queue;
    var i :| 0 <= i < |q.queue| && q.queue[i] == h;
    assert At(q, base, i) < HALF;
    Compare(base, q.recs[h].at, now);
  }

  // ------------------------------------------------------------- timer_tick

  /** All callbacks keep to what they may do. */
  ghost predicate Rely(cb: (Q, Id) -> Q, base: u32, now: u32) {
    forall q, id | Good(q, base, now) :: MayDo(q, cb(q, id), base, now)
  }

  /** Callbacks that leave what is due alone. */
  ghost predicate Harmless(cb: (Q, Id) -> Q, base: u32, now: u32) {
    forall q, id | Good(q, base, now) :: Good(cb(q, id), base, now) && DueIds(cb(q, id), now) == DueIds(q, now)
  }

  /** The head of the queue fires: it leaves the queue, its callback runs, and it is queued
      again for a period from now if it was periodic and still is. */
  ghost function FireHead(q: Q, base: u32, now: u32, cb: (Q, Id) -> Q): Q
    requires Good(q, base, now) && Rely(cb, base, now) && q.queue != []
  {
    var id := q.queue[0];
    var q1 := q.(queue := q.queue[1..]);
    assert Good(q1, base, now) by { PopKeeps(q, base, now); }
    var q2 := cb(q1, id);
    if q.recs[id].period > 0 && id !in q2.queue && q2.recs[id].period > 0 then
      Insert(q2, id, Rec(Plus(now, q2.recs[id].period), q2.recs[id].period))
    else q2
  }

  lemma PopKeeps(q: Q, base: u32, now: u32)
    requires Good(q, base, now) && q.queue != []
    ensures var q1 := q.(queue := q.queue[1..]);
            && Good(q1, base, now) && q.queue[0] !in q1.queue
            && (Due(q, now, 0) > 0 ==> DueIds(q, now) == [q.queue[0]] + DueIds(q1, now))
  {
    HeadOff(q.queue, Due(q, now, 0));
    assert Drop(q, 0) == q.(queue := q.queue[1..]);
    DropKeeps(q, base, now, 0);
  }

  lemma HeadOff(s: seq<Id>, d: nat)
    requires s != [] && d <= |s|
    ensures s[..0] + s[1..] == s[1..] && (d > 0 ==> s[..d] == [s[0]] + (s[..0] + s[1..d]))
  {
  }

  /** A firing takes one timer off what is due, and adds none: this bounds the loop. */
  lemma FireKeeps(q: Q, base: u32, now: u32, cb: (Q, Id) -> Q)
    requires Good(q, base, now) && Rely(cb, base, now) && Due(q, now, 0) > 0
    ensures var q' := FireHead(q, base, now, cb);
            && Good(q', base, now) && SubSeq([q.queue[0]] + DueIds(q', now), DueIds(q, now))
            && |DueIds(q', now)| < |DueIds(q, now)|
            && (Harmless(cb, base, now) ==> [q.queue[0]] + DueIds(q', now) == DueIds(q, now))
  {
    var id, q1 := q.queue[0], q.(queue := q.queue[1..]);
    PopKeeps(q, base, now);
    var q2 := cb(q1, id);
    assert MayDo(q1, q2, base, now);
    SubSeqPrefix([id], DueIds(q2, now), DueIds(q1, now));
    SubSeqShort(DueIds(q2, now), DueIds(q1, now));
    if q.recs[id].period > 0 && id !in q2.queue && q2.recs[id].period > 0 {
      PlusOff(base, now, q2.recs[id].period);
      InsertLater(q2, base, now, id, Rec(Plus(now, q2.recs[id].period), q2.recs[id].period));
    }
  }

  lemma {:induction false} SubSeqShort(a: seq<Id>, b: seq<Id>)
    requires SubSeq(a, b)
    ensures |a| <= |b|
    decreases b
  {
    if a != [] {
      if a[0] == b[0] && SubSeq(a[1..], b[1..]) { SubSeqShort(a[1..], b[1..]); } else { SubSeqShort(a, b[1..]); }
    }
  }

  /** `q'` follows from `q` by firing the head `|fired|` times, `fired` saying which. */
  ghost predicate Fires(q: Q, fired: seq<Id>, q': Q, base: u32, now: u32, cb: (Q, Id) -> Q)
    requires Good(q, base, now) && Rely(cb, base, now)
    decreases |fired|
  {
    if fired == [] then q' == q
    else
      && Due(q, now, 0) > 0 && q.queue[0] == fired[0]
      && (FireKeeps(q, base, now, cb); Fires(FireHead(q, base, now, cb), fired[1..], q', base, now, cb))
  }

  lemma {:induction false} FiresOneMore(q: Q, fired: seq<Id>, q': Q, base: u32, now: u32, cb: (Q, Id) -> Q)
    requires Good(q, base, now) && Rely(cb, base, now) && Fires(q, fired, q', base, now, cb)
    requires Good(q', base, now) && Due(q', now, 0) > 0
    ensures Fires(q, fired + [q'.queue[0]], FireHead(q', base, now, cb), base, now, cb)
    decreases |fired|
  {
    var more := fired + [q'.queue[0]];
    if fired == [] {
      assert more[1..] == [];
    } else {
      FireKeeps(q, base, now, cb);
      assert more[1..] == fired[1..] + [q'.queue[0]] && more[0] == fired[0];
      FiresOneMore(FireHead(q, base, now, cb), fired[1..], q', base, now, cb);
    }
  }

  /** Whatever the callbacks do, the timers that fire were all due, each fires once and they fire
      in deadline order; callbacks that cancel nothing due leave every due timer its turn. */
  lemma {:induction false} FiredWereDue(q: Q, fired: seq<Id>, q': Q, base: u32, now: u32, cb: (Q, Id) -> Q)
    requires Good(q, base, now) && Rely(cb, base, now) && Fires(q, fired, q', base, now, cb)
    ensures Good(q', base, now) && SubSeq(fired + DueIds(q', now), DueIds(q, now))
    ensures Harmless(cb, base, now) ==> fired + DueIds(q', now) == DueIds(q, now)
    decreases |fired|
  {
    var rest := DueIds(q, now);
    if fired == [] {
      assert fired + rest == rest;
      SubSeqSame(rest);
    } else {
      var q1 := FireHead(q, base, now, cb);
      FireKeeps(q, base, now, cb);
      FiredWereDue(q1, fired[1..], q', base, now, cb);
      var tail := fired[1..] + DueIds(q', now);
      SplitFirst(fired, DueIds(q', now));
      SubSeqUnder(fired[0], tail, DueIds(q1, now), rest);
    }
  }

  /** The due one-shot timers are off the queue, the due periodic ones are due a period from now, and all
      others are as they were. */
  ghost predicate TickLeaves(q: Q, fired: seq<Id>, q': Q, now: u32) {
    q'.recs.Keys == q.recs.Keys && (forall t | t in q.queue :: t in q.recs) && forall t :: LeavesAt(q, fired, q', now, t)
  }

  ghost predicate LeavesAt(q: Q, fired: seq<Id>, q': Q, now: u32, t: Id) {
    && (t in q'.queue <==> t in q.queue && (t !in fired || (t in q.recs && q.recs[t].period > 0)))
    && (t in q.recs ==>
          && t in q'.recs
          && q'.recs[t] == if t in fired && q.recs[t].period > 0 then Rec((now + q.recs[t].period) % WORD, q.recs[t].period) else q.recs[t])
  }

  /** So a tick leaves it with callbacks that leave the timers alone, and it fires all that are due. */
  lemma {:induction false} QuietTick(q: Q, fired: seq<Id>, q': Q, base: u32, now: u32, cb: (Q, Id) -> Q)
    requires Good(q, base, now) && Rely(cb, base, now) && Fires(q, fired, q', base, now, cb) && Good(q', base, now)
    requires DueIds(q', now) == [] && forall p, id :: cb(p, id) == p
    ensures fired == DueIds(q, now) && TickLeaves(q, fired, q', now)
    decreases |fired|
  {
    assert Harmless(cb, base, now);
    FiredWereDue(q, fired, q', base, now, cb);
    assert fired + [] == fired;
    if fired == [] {
      NothingFired(q, now);
    } else {
      QuietFire(q, base, now, cb);
      FireKeeps(q, base, now, cb);
      QuietTick(FireHead(q, base, now, cb), fired[1..], q', base, now, cb);
      DueDistinct(q, base, now);
      FiredFirst(q, FireHead(q, base, now, cb), q', fired, now);
    }
  }

  lemma NothingFired(q: Q, now: u32)
    requires Known(q)
    ensures TickLeaves(q, [], q, now)
  {
    KnownIds(q);
  }

  lemma KnownIds(q: Q)
    requires Known(q)
    ensures forall t | t in q.queue :: t in q.recs
  {
  }

  lemma DueDistinct(q: Q, base: u32, now: u32)
    requires WF(q, base)
    ensures Distinct(DueIds(q, now))
  {
  }

  lemma QuietFire(q: Q, base: u32, now: u32, cb: (Q, Id) -> Q)
    requires Good(q, base, now) && Rely(cb, base, now) && q.queue != [] && forall p, id :: cb(p, id) == p
    ensures TickLeaves(q, [q.queue[0]], FireHead(q, base, now, cb), now)
  {
    PopKeeps(q, base, now);
    KnownIds(q);
    var h, q1 := q.queue[0], q.(queue := q.queue[1..]);
    assert q.queue == [h] + q1.queue;
    if q.recs[h].period > 0 {
      Requeued(q1.queue, Place(q1, Plus(now, q.recs[h].period), 0), h);
    }
  }

  lemma Requeued(s: seq<Id>, i: nat, h: Id)
    requires i <= |s|
    ensures forall t :: t in InsertAt(s, i, h) <==> t in s || t == h
  {
    assert s == s[..i] + s[i..];
  }

  /** The first firing, then the others. */
  lemma FiredFirst(q: Q, q1: Q, q': Q, fired: seq<Id>, now: u32)
    requires fired != [] && Distinct(fired) && TickLeaves(q, [fired[0]], q1, now) && TickLeaves(q1, fired[1..], q', now)
    ensures TickLeaves(q, fired, q', now)
  {
    forall t ensures LeavesAt(q, fired, q', now, t) { FiredAt(q, q1, q', fired, now, t); }
  }

  lemma FiredAt(q: Q, q1: Q, q': Q, fired: seq<Id>, now: u32, t: Id)
    requires fired != [] && Distinct(fired) && q1.recs.Keys == q.recs.Keys && (t in q.queue ==> t in q.recs)
    requires LeavesAt(q, [fired[0]], q1, now, t) && LeavesAt(q1, fired[1..], q', now, t)
    ensures LeavesAt(q, fired, q', now, t)
  {
    var h := fired[0];
    assert fired == [h] + fired[1..] && h !in fired[1..];
  }

  lemma SplitFirst(a: seq<Id>, b: seq<Id>)
    requires a != []
    ensures a + b == [a[0]] + (a[1..] + b)
  {
  }

  lemma SubSeqUnder(f: Id, a: seq<Id>, b: seq<Id>, c: seq<Id>)
    requires SubSeq(a, b) && SubSeq([f] + b, c)
    ensures SubSeq([f] + a, c)
  {
    SubSeqPrefix([f], a, b);
    SubSeqTrans([f] + a, [f] + b, c);
  }

  class TimerState {
    var recs: map<Id, Rec>
    var queue: seq<Id>
    var armed: Option<u32>

    ghost function View(): Q
      reads this
    {
      Q(recs, queue, armed)
    }

    /** insert_timer_in_queue */
    method InsertTimerInQueue(id: Id)
      requires Known(View()) && id in recs && id !in queue
      modifies this`queue
      ensures View() == Insert(old(View()), id, recs[id])
    {
      var i := 0;
      while i < |queue| && !TimeGt(recs[queue[i]].at, recs[id].at)
        invariant i <= |queue| && Place(View(), recs[id].at, 0) == Place(View(), recs[id].at, i)
      {
        i := i + 1;
      }
      assert recs == recs[id := recs[id]];
      queue := queue[..i] + [id] + queue[i..];
    }

    /** timer_set; a timer already in the queue is a panic */
    method TimerSet(id: Id, now: u32, delay: u32, period: u32)
      requires Known(View()) && id !in queue
      modifies this
      ensures View() == Set(old(View()), id, now, delay, period)
      ensures recs == old(recs)[id := Rec((now + delay) % WORD, period)]
      ensures exists i :: 0 <= i <= |old(queue)| && queue == old(queue)[..i] + [id] + old(queue)[i..]
      ensures queue != [] && armed == if queue[0] == id then Some((now + delay) % WORD) else old(armed)
    {
      ghost var q := View();
      SetIs(q, id, now, delay, period);
      recs := recs[id := Rec(Plus(now, delay), period)];
      SamePlace(q, View(), Plus(now, delay), 0);
      InsertTimerInQueue(id);
      if queue[0] == id { armed := Some(Plus(now, delay)); }
    }

    /** list_delete, if the timer is on the queue */
    method Unlink(id: Id)
      requires Distinct(queue)
      modifies this`queue
      ensures queue == Without(old(queue), id)
    {
      if i :| 0 <= i < |queue| && queue[i] == id {
        WithoutOne(queue, id, i);
        queue := queue[..i] + queue[i + 1..];
      } else {
        WithoutNone(queue, id);
      }
    }

    method TakeOff(id: Id, now: u32)
      requires Known(View()) && Distinct(queue) && id in recs
      modifies this
      ensures View() == Cancel(old(View()), id, now)
    {
      var oldQueue := queue;
      Unlink(id);
      recs := recs[id := recs[id].(period := 0)];
      assert forall j | 0 <= j < |queue| :: queue[j] in oldQueue;
      if queue != [] { DelayTo(now, recs[queue[0]].at); }
      if queue == [] {
        armed := None;
      } else if queue[0] != oldQueue[0] {
        var delay := if TimeLt(recs[queue[0]].at, now) then 0 else (recs[queue[0]].at - now) % WORD;
        armed := Some(Plus(now, delay));
      }
    }

    /** timer_cancel */
    method TimerCancel(id: Id, now: u32)
      requires Known(View()) && Distinct(queue) && id in recs
      modifies this
      ensures View() == Cancel(old(View()), id, now)
      ensures Left(old(queue), queue, id) && recs == old(recs)[id := Rec(old(recs)[id].at, 0)]
      ensures Known(View()) && Rearms(old(View()), View(), now)
    {
      CancelIs(View(), id, now);
      TakeOff(id, now);
    }

    /** timer_tick, run when the one-shot timer has gone off: `cb` is what callbacks do to the queue */
    method TimerTick(now: u32, cb: (Q, Id) -> Q, ghost base: u32) returns (fired: seq<Id>)
      requires Good(View(), base, now) && Rely(cb, base, now)
      modifies this
      ensures Good(View(), base, now) && DueIds(View(), now) == []
      ensures exists q: Q :: Fires(old(View()), fired, q, base, now, cb) && View() == q.(armed := armed)
      ensures SubSeq(fired, old(DueIds(View(), now)))
      ensures Harmless(cb, base, now) ==> fired == old(DueIds(View(), now))
      ensures queue != [] ==> armed == Some(recs[queue[0]].at) && At(View(), base, 0) > Off(base, now)
    {
      fired := FireDue(now, cb, base);
      FiredWereDue(old(View()), fired, View(), base, now, cb);
      assert fired + [] == fired;
      ghost var q := View();
      if queue != [] { Arm(now); }
      Rearmed(q, View(), base, now);
      HeadLater(View(), base, now);
    }

    /** platform_set_oneshot_timer for the head of the queue */
    method Arm(now: u32)
      requires queue != [] && queue[0] in recs
      modifies this`armed
      ensures armed == Some(recs[queue[0]].at)
    {
      DelayTo(now, recs[queue[0]].at);
      armed := Some(Plus(now, (recs[queue[0]].at - now) % WORD));
    }

    /** The loop of timer_tick. */
    method FireDue(now: u32, cb: (Q, Id) -> Q, ghost base: u32) returns (fired: seq<Id>)
      requires Good(View(), base, now) && Rely(cb, base, now)
      modifies this
      ensures Good(View(), base, now) && Due(View(), now, 0) == 0
      ensures Fires(old(View()), fired, View(), base, now, cb)
    {
      fired := [];
      while queue != [] && !TimeLt(now, recs[queue[0]].at)
        invariant Good(View(), base, now) && Fires(old(View()), fired, View(), base, now, cb)
        decreases |DueIds(View(), now)|
      {
        FireKeeps(View(), base, now, cb);
        FiresOneMore(old(View()), fired, View(), base, now, cb);
        fired := fired + [queue[0]];
        FireOne(now, cb, base);
      }
    }

    /** One turn of the loop in timer_tick. */
    method FireOne(now: u32, cb: (Q, Id) -> Q, ghost base: u32)
      requires Good(View(), base, now) && Rely(cb, base, now) && queue != []
      modifies this
      ensures View() == FireHead(old(View()), base, now, cb)
    {
      PopKeeps(View(), base, now);
      var id := queue[0];
      queue := queue[1..];
      var periodic := recs[id].period > 0;
      assert MayDo(View(), cb(View(), id), base, now);
      var after := cb(Q(recs, queue, armed), id);
      recs, queue, armed := after.recs, after.queue, after.armed;
      if periodic && id !in queue && recs[id].period > 0 {
        var r := Rec(Plus(now, recs[id].period), recs[id].period);
        SamePlace(View(), View().(recs := recs[id := r]), r.at, 0);
        recs := recs[id := r];
        InsertTimerInQueue(id);
      }
    }
  }

  lemma HeadLater(q: Q, base: u32, now: u32)
    requires WF(q, base) && Off(base, now) < HALF && DueIds(q, now) == []
    ensures q.queue != [] ==> At(q, base, 0) > Off(base, now)
  {
    DueExact(q, base, now, 0);
  }

  /** A record outside the queue plays no part in where a timer goes. */
  lemma {:induction false} SamePlace(q: Q, q': Q, at: u32, i: nat)
    requires Known(q) && q'.queue == q.queue && i <= |q.queue|
    requires forall id | id in q.queue :: id in q'.recs && q'.recs[id] == q.recs[id]
    ensures Known(q') && Place(q', at, i) == Place(q, at, i)
    decreases |q.queue| - i
  {
    if i < |q.queue| { assert q.queue[i] in q.queue; SamePlace(q, q', at, i + 1); }
    assert forall j | 0 <= j < |q.queue| :: q.queue[j] in q.queue;
  }
}
