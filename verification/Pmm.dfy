/** kernel/vm/pmm.c: arenas of page frames, the free list of each, and the search for an aligned
    run. Addresses are counted in page frames, since arenas start and end on page boundaries. */
module Pmm {
  import opened Wrappers
  import opened Multiples

  /** Page frames of a 64-bit physical address space with 4 KB pages. */
  const FRAMES: nat := 0x10_0000_0000_0000

  /** `nonfree` are the NONFREE flags of page_array, `freeList` holds indices into it. */
  datatype Arena = Arena(base: nat, kmap: bool, priority: nat, nonfree: seq<bool>, freeList: seq<nat>, freeCount: int)

  /** A vm_page_t: the arena it belongs to and its place in page_array. */
  datatype Page = Page(arena: nat, index: nat)

  // ------------------------------------------------------------- the invariant

  /** The free list holds exactly the pages not marked, each once, and is counted. */
  ghost predicate FreeOk(a: Arena) {
    && a.freeCount == |a.freeList| && Distinct(a.freeList)
    && (forall i: nat | i < |a.nonfree| && !a.nonfree[i] :: i in a.freeList)
    && (forall i | i in a.freeList :: i < |a.nonfree| && !a.nonfree[i])
    && 0 < |a.nonfree| && a.base + |a.nonfree| <= FRAMES
  }

  ghost predicate PmmOk(m: seq<Arena>) { forall k | 0 <= k < |m| :: FreeOk(m[k]) }

  predicate Exists(m: seq<Arena>, p: Page) { p.arena < |m| && p.index < |m[p.arena].nonfree| }

  predicate Taken(m: seq<Arena>, p: Page) { Exists(m, p) && m[p.arena].nonfree[p.index] }

  predicate Free(m: seq<Arena>, p: Page) { Exists(m, p) && !m[p.arena].nonfree[p.index] }

  // ------------------------------------------------------------- one page

  /** list_delete, mark NONFREE, free_count-- */
  function TakeIn(a: Arena, i: nat): Arena
    requires i < |a.nonfree|
  {
    a.(nonfree := a.nonfree[i := true], freeList := Without<nat>(a.freeList, i), freeCount := a.freeCount - 1)
  }

  /** Clear NONFREE, list_add_head, free_count++ */
  function GiveIn(a: Arena, i: nat): Arena
    requires i < |a.nonfree|
  {
    a.(nonfree := a.nonfree[i := false], freeList := [i] + a.freeList, freeCount := a.freeCount + 1)
  }

  function Take(m: seq<Arena>, p: Page): seq<Arena>
    requires Exists(m, p)
  {
    m[p.arena := TakeIn(m[p.arena], p.index)]
  }

  function Give(m: seq<Arena>, p: Page): seq<Arena>
    requires Exists(m, p)
  {
    m[p.arena := GiveIn(m[p.arena], p.index)]
  }

  lemma TakeInKeeps(a: Arena, i: nat)
    requires FreeOk(a) && i < |a.nonfree| && !a.nonfree[i]
    ensures FreeOk(TakeIn(a, i))
  {
    WithoutIs(a.freeList, i);
  }

  lemma TakeKeeps(m: seq<Arena>, p: Page)
    requires PmmOk(m) && Free(m, p)
    ensures PmmOk(Take(m, p))
    ensures forall q :: (Taken(Take(m, p), q) <==> Taken(m, q) || q == p) && (Exists(Take(m, p), q) <==> Exists(m, q))
  {
    TakeInKeeps(m[p.arena], p.index);
  }

  lemma GiveInKeeps(a: Arena, i: nat)
    requires FreeOk(a) && i < |a.nonfree| && a.nonfree[i]
    ensures FreeOk(GiveIn(a, i))
  {
    assert i !in a.freeList;
    assert forall y :: y in [i] + a.freeList <==> y == i || y in a.freeList;
  }

  lemma GiveKeeps(m: seq<Arena>, p: Page)
    requires PmmOk(m) && Taken(m, p)
    ensures PmmOk(Give(m, p))
    ensures forall q :: (Taken(Give(m, p), q) <==> Taken(m, q) && q != p) && (Exists(Give(m, p), q) <==> Exists(m, q))
  {
    GiveInKeeps(m[p.arena], p.index);
  }

  // ------------------------------------------------------------- lists of pages

  ghost predicate AllFree(m: seq<Arena>, list: seq<Page>) { forall p | p in list :: Free(m, p) }
  ghost predicate AllTaken(m: seq<Arena>, list: seq<Page>) { forall p | p in list :: Taken(m, p) }

  ghost predicate Present(m: seq<Arena>, list: seq<Page>) { forall p | p in list :: Exists(m, p) }

  ghost function TakeAll(m: seq<Arena>, list: seq<Page>): (r: seq<Arena>)
    requires Present(m, list)
    ensures |r| == |m| && forall p :: Exists(r, p) <==> Exists(m, p)
    decreases |list|
  {
    if list == [] then m else
      var m1 := Take(m, list[0]);
      TakeExists(m, list[0]);
      TakeAll(m1, list[1..])
  }

  ghost function GiveAll(m: seq<Arena>, list: seq<Page>): (r: seq<Arena>)
    requires Present(m, list)
    ensures |r| == |m| && forall p :: Exists(r, p) <==> Exists(m, p)
    decreases |list|
  {
    if list == [] then m else
      var m1 := Give(m, list[0]);
      GiveExists(m, list[0]);
      GiveAll(m1, list[1..])
  }

  /** The pages of a list that belong to an arena. */
  ghost function Known(m: seq<Arena>, list: seq<Page>): seq<Page> {
    if list == [] then [] else (if Exists(m, list[0]) then [list[0]] else []) + Known(m, list[1..])
  }

  lemma {:induction false} KnownIs(m: seq<Arena>, list: seq<Page>)
    requires Distinct(list)
    ensures Distinct(Known(m, list)) && forall p :: p in Known(m, list) <==> p in list && Exists(m, p)
  {
    if list != [] {
      var t := list[1..];
      assert Distinct(t) && list[0] !in t && forall p :: p in list <==> p == list[0] || p in t;
      KnownIs(m, t);
    }
  }

  lemma KnownStep(m: seq<Arena>, list: seq<Page>)
    requires list != []
    ensures if Exists(m, list[0]) then Known(m, list) != [] && Known(m, list)[0] == list[0] && Known(m, list)[1..] == Known(m, list[1..])
            else Known(m, list) == Known(m, list[1..])
  {
  }

  lemma {:induction false} KnownAll(m: seq<Arena>, list: seq<Page>)
    requires Present(m, list)
    ensures Known(m, list) == list
  {
    if list != [] {
      assert list[0] in list && forall p | p in list[1..] :: p in list;
      KnownAll(m, list[1..]);
    }
  }

  lemma TakeExists(m: seq<Arena>, p: Page)
    requires Exists(m, p)
    ensures forall q :: Exists(Take(m, p), q) <==> Exists(m, q)
  {
  }

  lemma GiveExists(m: seq<Arena>, p: Page)
    requires Exists(m, p)
    ensures forall q :: Exists(Give(m, p), q) <==> Exists(m, q)
  {
  }

  /** Allocating a list of distinct free pages marks those and no others. */
  lemma {:induction false} TakeAllKeeps(m: seq<Arena>, list: seq<Page>)
    requires PmmOk(m) && Distinct(list) && AllFree(m, list)
    ensures PmmOk(TakeAll(m, list))
    ensures forall q :: Taken(TakeAll(m, list), q) <==> Taken(m, q) || q in list
    decreases |list|
  {
    if list != [] {
      TakeKeeps(m, list[0]);
      var t := list[1..];
      assert list[0] !in t && Distinct(t);
      forall p | p in t ensures Free(Take(m, list[0]), p) { assert p in list && !Taken(Take(m, list[0]), p); }
      TakeAllKeeps(Take(m, list[0]), t);
    }
  }

  /** Neither moves an arena or changes its size. */
  ghost predicate SameArenas(m: seq<Arena>, m': seq<Arena>) {
    |m'| == |m| && forall k | 0 <= k < |m| ::
      m'[k].base == m[k].base && m'[k].kmap == m[k].kmap && m'[k].priority == m[k].priority && |m'[k].nonfree| == |m[k].nonfree|
  }

  lemma {:induction false} TakeAllStays(m: seq<Arena>, list: seq<Page>)
    requires Present(m, list)
    ensures SameArenas(m, TakeAll(m, list))
    decreases |list|
  {
    if list != [] {
      TakeExists(m, list[0]);
      TakeAllStays(Take(m, list[0]), list[1..]);
    }
  }

  /** The pages of the list that lie in arena `k`, the last of the list first. */
  ghost function LastFirst(list: seq<Page>, k: nat): seq<nat> {
    if list == [] then [] else LastFirst(list[1..], k) + if list[0].arena == k then [list[0].index] else []
  }

  /** Each page given back is at the head of its arena's free list, in front of those given back before. */
  lemma {:induction false} GiveAllInFront(m: seq<Arena>, list: seq<Page>, k: nat)
    requires Present(m, list) && k < |m|
    ensures SameArenas(m, GiveAll(m, list)) && GiveAll(m, list)[k].freeList == LastFirst(list, k) + m[k].freeList
    decreases |list|
  {
    if list != [] {
      GiveExists(m, list[0]);
      GiveAllInFront(Give(m, list[0]), list[1..], k);
    }
  }

  /** Freeing a list of distinct allocated pages clears those and no others. */
  lemma {:induction false} GiveAllKeeps(m: seq<Arena>, list: seq<Page>)
    requires PmmOk(m) && Distinct(list) && AllTaken(m, list)
    ensures PmmOk(GiveAll(m, list))
    ensures forall q :: Taken(GiveAll(m, list), q) <==> Taken(m, q) && q !in list
    decreases |list|
  {
    if list != [] {
      GiveKeeps(m, list[0]);
      var t := list[1..];
      assert list[0] !in t && Distinct(t);
      GiveAllKeeps(Give(m, list[0]), t);
    }
  }

  // ------------------------------------------------- pmm_alloc_contiguous: the search

  /** A free run of `count` pages from the s-th page of the arena, aligned to `align` frames. */
  ghost predicate Run(a: Arena, s: nat, count: nat, align: nat)
    requires align > 0
  {
    && Multiple(a.base + s, align) && s + count <= |a.nonfree|
    && forall i | s <= i < s + count :: !a.nonfree[i]
  }

  /** No aligned run starts before the rounded base. */
  lemma NoRunBefore(a: Arena, count: nat, align: nat, off: nat)
    requires align > 0 && a.base + off == RoundUp(a.base, align)
    ensures forall t: nat | t < off :: !Run(a, t, count, align)
  {
    RoundUpIs(a.base, align);
  }

  /** `start` is a number of whole alignments after the first start. */
  ghost predicate OnGrid(off: nat, start: nat, align: nat)
    requires align > 0
  {
    off <= start && Multiple(start - off, align)
  }

  /** The page at `start + i` is taken, so no run starts at or before it, nor between it and the
      next aligned start. */
  lemma SkipMissesNone(a: Arena, count: nat, align: nat, off: nat, start: nat, i: nat)
    requires align > 0 && Multiple(a.base + off, align) && OnGrid(off, start, align)
    requires i < count && start + i < |a.nonfree| && a.nonfree[start + i]
    ensures var next := RoundUp(start - off + i + 1, align) + off;
            && next > start + i && OnGrid(off, next, align)
            && forall t: nat | start <= t < next :: !Run(a, t, count, align)
  {
    RoundUpIs(start - off + i + 1, align);
    var next := RoundUp(start - off + i + 1, align) + off;
    forall t: nat | start <= t < next ensures !Run(a, t, count, align) {
      if Multiple(a.base + t, align) && t + count <= |a.nonfree| {
        MultipleSub(a.base + t, a.base + off, align);
        assert (a.base + t) - (a.base + off) == t - off;
        assert t <= start + i < t + count;
      }
    }
  }

  /** C's conversion to a 32-bit unsigned int, in which the search counts pages. */
  function U32(x: int): nat { x % TWO32 }
  const TWO32: nat := 0x1_0000_0000

  /** The start that follows a taken page `y`. */
  function NextStart(off: nat, y: nat, align: nat): nat
    requires align > 0
  {
    U32(RoundUp(U32(y + 1 - off), align) + off)
  }

  /** One turn of the search loop: a run was found, the loop ends without one, a page beyond the
      arena is read, or the search goes on at another start. */
  datatype Turn = Hit | Miss | Beyond | Go(next: nat)

  /** The number of free pages from `start` on, as the inner loop counts them up to `count`. */
  function Scan(a: Arena, start: nat, count: nat, i: nat): (r: nat)
    requires i <= count
    ensures i <= r <= count
    decreases count - i
  {
    if i == count || start + i >= |a.nonfree| || a.nonfree[start + i] then i else Scan(a, start, count, i + 1)
  }

  lemma {:induction false} ScanIs(a: Arena, start: nat, count: nat, i: nat)
    requires i <= count
    ensures var r := Scan(a, start, count, i);
            && (forall j | start + i <= j < start + r :: j < |a.nonfree| && !a.nonfree[j])
            && (r < count && start + r < |a.nonfree| ==> a.nonfree[start + r])
            && (r > i ==> start + r <= |a.nonfree|)
    decreases count - i
  {
    if i < count && start + i < |a.nonfree| && !a.nonfree[start + i] { ScanIs(a, start, count, i + 1); }
  }

  function TurnAt(a: Arena, count: nat, align: nat, off: nat, start: nat): Turn
    requires align > 0
  {
    if !(start < |a.nonfree| && U32(start + count) <= |a.nonfree|) then Miss
    else
      var i := Scan(a, start, count, 0);
      if i == count then Hit
      else if start + i >= |a.nonfree| then Beyond
      else Go(NextStart(off, start + i, align))
  }

  /** Where the search is after `n` turns, if it is still going. */
  ghost function StartAfter(a: Arena, count: nat, align: nat, off: nat, n: nat): Option<nat>
    requires align > 0
  {
    if n == 0 then Some(off)
    else
      match StartAfter(a, count, align, off, n - 1)
      case None => None
      case Some(s) =>
        match TurnAt(a, count, align, off, s)
        case Go(next) => Some(next)
        case _ => None
  }

  ghost predicate NoneUnder(a: Arena, count: nat, align: nat, start: nat)
    requires align > 0
  {
    forall t: nat | t < start :: !Run(a, t, count, align)
  }

  ghost predicate NoRunIn(a: Arena, count: nat, align: nat)
    requires align > 0
  {
    forall t: nat :: !Run(a, t, count, align)
  }

  /** After `n` turns the search ends with the right answer. */
  ghost predicate RightAfter(a: Arena, count: nat, align: nat, off: nat, n: nat)
    requires align > 0
  {
    match StartAfter(a, count, align, off, n)
    case None => false
    case Some(s) =>
      match TurnAt(a, count, align, off, s)
      case Hit => Run(a, s, count, align) && NoneUnder(a, count, align, s)
      case Miss => NoRunIn(a, count, align)
      case _ => false
  }

  /** The search stays in the arena, ends, and is right. */
  ghost predicate Right(a: Arena, count: nat, align: nat, off: nat)
    requires align > 0
  {
    exists n: nat :: RightAfter(a, count, align, off, n)
  }

  /** What the search is called with: an arena whose first aligned page is `off`, a 32-bit count, and
      a power of two, below 2^32 or not. */
  ghost predicate Posed(a: Arena, count: nat, align: nat, off: nat) {
    && 0 < align && (Multiple(TWO32, align) || Multiple(align, TWO32)) && 0 < count < TWO32
    && off < |a.nonfree| && off < align && Multiple(a.base + off, align) && NoneUnder(a, count, align, off)
  }

  /** The aligned page that follows page `y`. */
  ghost function NextAligned(off: nat, y: nat, align: nat): nat
    requires align > 0 && off <= y
  {
    RoundUp(y - off + 1, align) + off
  }

  /** A start, as 32 bits can hold it, beyond the arena or with no room behind it that 32 bits can tell. */
  ghost predicate Ends(a: Arena, count: nat, start: nat) {
    start < TWO32 && (start >= |a.nonfree| || |a.nonfree| < start + count < TWO32)
  }

  /** A taken page after which the search ends. */
  ghost predicate Stops(a: Arena, count: nat, align: nat, off: nat, y: nat)
    requires align > 0
  {
    off <= y < |a.nonfree| && a.nonfree[y] && Ends(a, count, NextAligned(off, y, align))
  }

  ghost predicate NearRun(a: Arena, count: nat, align: nat, t: nat)
    requires align > 0
  {
    t < TWO32 && Run(a, t, count, align)
  }

  /** There is a run in the first 2^32 pages, or the search ends where it starts, or a page is taken
      after which it ends. */
  ghost predicate SearchOk(a: Arena, count: nat, align: nat, off: nat)
    requires align > 0
  {
    Ahead(a, count, align, off, off)
  }

  /** The same from a later start on. */
  ghost predicate Ahead(a: Arena, count: nat, align: nat, off: nat, start: nat)
    requires align > 0
  {
    || (exists t: nat :: t >= start && NearRun(a, count, align, t))
    || Ends(a, count, start)
    || (exists y: nat :: y >= start && Stops(a, count, align, off, y))
  }

  lemma SmallU32(x: int)
    requires 0 <= x < TWO32
    ensures U32(x) == x
  {
  }

  lemma U32Less(x: nat)
    ensures U32(x) <= x
  {
  }

  /** The search ends at a start exactly when the loop condition fails there. */
  lemma EndsIff(a: Arena, count: nat, start: nat)
    requires 0 < count < TWO32 && start < TWO32
    ensures !(start < |a.nonfree| && U32(start + count) <= |a.nonfree|) <==> Ends(a, count, start)
  {
    if start + count >= TWO32 {
      assert U32(start + count) == start + count - TWO32;
    } else {
      SmallU32(start + count);
    }
  }

  /** Elsewhere the turn depends on the first taken page. */
  lemma TurnIs(a: Arena, count: nat, align: nat, off: nat, start: nat)
    requires align > 0 && start < |a.nonfree| && U32(start + count) <= |a.nonfree|
    ensures var i := Scan(a, start, count, 0);
            TurnAt(a, count, align, off, start)
            == if i == count then Hit else if start + i >= |a.nonfree| then Beyond else Go(NextStart(off, start + i, align))
  {
  }

  // ------------------------------------------------------------- the next start

  /** It is the next aligned page while 32 bits can hold that. */
  lemma NextIs(off: nat, y: nat, align: nat)
    requires 0 < align && off <= y && NextAligned(off, y, align) < TWO32
    ensures NextStart(off, y, align) == NextAligned(off, y, align)
  {
    RoundUpIs(y - off + 1, align);
    SmallU32(y + 1 - off);
    SmallU32(NextAligned(off, y, align));
  }

  lemma NextOrdered(off: nat, y: nat, z: nat, align: nat)
    requires 0 < align && off <= y <= z
    ensures NextAligned(off, y, align) <= NextAligned(off, z, align)
    ensures NextAligned(off, y, align) <= z || NextAligned(off, y, align) == NextAligned(off, z, align)
  {
    RoundUpIs(y - off + 1, align);
    RoundUpIs(z - off + 1, align);
  }

  /** With an alignment of 2^32 pages or more it is the first start again. */
  lemma NextRestarts(off: nat, y: nat, align: nat)
    requires 0 < align && Multiple(align, TWO32) && off < TWO32
    ensures NextStart(off, y, align) == off
  {
    var x := U32(y + 1 - off);
    RoundUpIs(x, align);
    MultipleTrans(RoundUp(x, align), align, TWO32);
    WrapMultiple(RoundUp(x, align), off);
  }

  lemma {:induction false} WrapMultiple(m: nat, off: nat)
    requires Multiple(m, TWO32) && off < TWO32
    ensures U32(m + off) == off
  {
    if m >= TWO32 { WrapMultiple(m - TWO32, off); }
  }

  /** So it is for any power of two, whenever the next aligned page lies at 2^32 or beyond. */
  lemma NextCutBack(off: nat, y: nat, align: nat)
    requires 0 < align && (Multiple(TWO32, align) || Multiple(align, TWO32)) && off < align && off <= y < TWO32 - 1
    requires NextAligned(off, y, align) >= TWO32
    ensures NextStart(off, y, align) == off
  {
    if Multiple(align, TWO32) {
      NextRestarts(off, y, align);
    } else {
      SmallU32(y + 1 - off);
      RoundUpIs(y - off + 1, align);
      assert TWO32 >= y - off + 1;
      if RoundUp(y - off + 1, align) < TWO32 { MultiplesApart(TWO32, RoundUp(y - off + 1, align), align); }
      assert U32(TWO32 + off) == off;
    }
  }

  /** Whatever is cut off, it is an aligned page. */
  lemma NextOnGrid(off: nat, y: nat, align: nat)
    requires 0 < align && (Multiple(TWO32, align) || Multiple(align, TWO32)) && off < align && off < TWO32
    ensures OnGrid(off, NextStart(off, y, align), align)
  {
    if Multiple(align, TWO32) {
      NextRestarts(off, y, align);
    } else {
      var x := U32(y + 1 - off);
      var m := RoundUp(x, align);
      RoundUpIs(x, align);
      assert m <= TWO32;
      if m < TWO32 {
        MultiplesApart(TWO32, m, align);
        SmallU32(m + off);
      } else {
        assert U32(TWO32 + off) == off;
      }
    }
  }

  // ------------------------------------------------------- a search that will be right

  /** Where it can be. */
  ghost predicate Going(a: Arena, count: nat, align: nat, off: nat, start: nat)
    requires align > 0
  {
    start < TWO32 && OnGrid(off, start, align) && NoneUnder(a, count, align, start) && Ahead(a, count, align, off, start)
  }

  /** A run too long for the arena is in no place of it. */
  lemma TooLong(a: Arena, count: nat, align: nat, start: nat)
    requires align > 0 && NoneUnder(a, count, align, start) && start + count > |a.nonfree|
    ensures NoRunIn(a, count, align)
  {
  }

  /** A turn of such a search ends it with the right answer or moves it on. */
  lemma TurnSteps(a: Arena, count: nat, align: nat, off: nat, start: nat)
    requires Posed(a, count, align, off) && Going(a, count, align, off, start)
    ensures match TurnAt(a, count, align, off, start)
            case Hit => start + count <= |a.nonfree| && Run(a, start, count, align)
            case Miss => NoRunIn(a, count, align)
            case Beyond => false
            case Go(next) => next > start && start < |a.nonfree| && Going(a, count, align, off, next)
  {
    EndsIff(a, count, start);
    if Ends(a, count, start) {
      TooLong(a, count, align, start);
    } else {
      TurnIs(a, count, align, off, start);
      if Scan(a, start, count, 0) == count { HitIsRun(a, count, align, off, start); }
      OnwardsFrom(a, count, align, off, start);
    }
  }

  /** Passing a taken page: no run starts up to the next start. */
  lemma Skips(a: Arena, count: nat, align: nat, off: nat, start: nat, i: nat)
    requires Posed(a, count, align, off) && OnGrid(off, start, align) && NoneUnder(a, count, align, start)
    requires i < count && start + i < |a.nonfree| && a.nonfree[start + i]
    ensures var next := NextAligned(off, start + i, align);
            next > start + i && OnGrid(off, next, align) && NoneUnder(a, count, align, next)
  {
    SkipMissesNone(a, count, align, off, start, i);
  }

  lemma HitIsRun(a: Arena, count: nat, align: nat, off: nat, start: nat)
    requires 0 < align && 0 < count && OnGrid(off, start, align) && Multiple(a.base + off, align)
    requires Scan(a, start, count, 0) == count
    ensures start + count <= |a.nonfree| && Run(a, start, count, align)
  {
    ScanIs(a, start, count, 0);
    StartAligned(a.base, off, start, align);
  }

  lemma OnwardsFrom(a: Arena, count: nat, align: nat, off: nat, start: nat)
    requires Posed(a, count, align, off) && Going(a, count, align, off, start) && !Ends(a, count, start)
    ensures var i := Scan(a, start, count, 0);
            i < count ==>
              && start + i < |a.nonfree| && NextStart(off, start + i, align) > start
              && Going(a, count, align, off, NextStart(off, start + i, align))
  {
    if exists t: nat :: t >= start && NearRun(a, count, align, t) {
      var t: nat :| t >= start && NearRun(a, count, align, t);
      TowardsRun(a, count, align, off, start, t);
    } else {
      var y: nat :| y >= start && Stops(a, count, align, off, y);
      TowardsStop(a, count, align, off, start, y);
    }
  }

  /** With a run ahead the search gets no further than to it. */
  lemma TowardsRun(a: Arena, count: nat, align: nat, off: nat, start: nat, t: nat)
    requires Posed(a, count, align, off) && Going(a, count, align, off, start) && start <= t && NearRun(a, count, align, t)
    ensures var i := Scan(a, start, count, 0);
            i < count ==>
              && start + i < |a.nonfree| && NextStart(off, start + i, align) > start
              && Going(a, count, align, off, NextStart(off, start + i, align))
  {
    var i := Scan(a, start, count, 0);
    ScanIs(a, start, count, 0);
    if i < count {
      assert start + i < t + count;
      Skips(a, count, align, off, start, i);
      assert NextAligned(off, start + i, align) <= t;
      NextIs(off, start + i, align);
    }
  }

  /** Nor past a page that stops it. */
  lemma TowardsStop(a: Arena, count: nat, align: nat, off: nat, start: nat, y: nat)
    requires Posed(a, count, align, off) && Going(a, count, align, off, start) && start <= y && Stops(a, count, align, off, y)
    ensures var i := Scan(a, start, count, 0);
            i < count ==>
              && start + i < |a.nonfree| && NextStart(off, start + i, align) > start
              && Going(a, count, align, off, NextStart(off, start + i, align))
  {
    var i := Scan(a, start, count, 0);
    ScanIs(a, start, count, 0);
    if i < count {
      assert start + i <= y;
      Skips(a, count, align, off, start, i);
      NextOrdered(off, start + i, y, align);
      NextIs(off, start + i, align);
    }
  }

  lemma StartAligned(base: nat, off: nat, start: nat, align: nat)
    requires align > 0 && OnGrid(off, start, align) && Multiple(base + off, align)
    ensures Multiple(base + start, align)
  {
    MultipleAdd(start - off, base + off, align);
    assert start - off + (base + off) == base + start;
  }

  lemma GoingAtFirst(a: Arena, count: nat, align: nat, off: nat)
    requires Posed(a, count, align, off) && SearchOk(a, count, align, off)
    ensures off < TWO32 && Going(a, count, align, off, off)
  {
    if y: nat :| y >= off && Stops(a, count, align, off, y) { RoundUpIs(y - off + 1, align); }
  }

  lemma {:induction false} GoesRight(a: Arena, count: nat, align: nat, off: nat, start: nat, n: nat)
    requires Posed(a, count, align, off) && Going(a, count, align, off, start)
    requires StartAfter(a, count, align, off, n) == Some(start)
    ensures Right(a, count, align, off)
    decreases |a.nonfree| - start
  {
    TurnSteps(a, count, align, off, start);
    match TurnAt(a, count, align, off, start)
    case Hit => assert RightAfter(a, count, align, off, n);
    case Miss => assert RightAfter(a, count, align, off, n);
    case Go(next) => GoesRight(a, count, align, off, next, n + 1);
  }

  // --------------------------------------------------------------- one that will not

  ghost predicate Astray(a: Arena, count: nat, align: nat, off: nat, start: nat)
    requires align > 0
  {
    start < TWO32 && OnGrid(off, start, align) && !Ends(a, count, start)
  }

  /** At every turn it has either just left the arena or yet to end. */
  lemma {:induction false} GoesWrong(a: Arena, count: nat, align: nat, off: nat, n: nat)
    requires Posed(a, count, align, off) && off < TWO32 && !SearchOk(a, count, align, off)
    ensures match StartAfter(a, count, align, off, n)
            case None => true
            case Some(s) =>
              && Astray(a, count, align, off, s)
              && (TurnAt(a, count, align, off, s).Beyond? || TurnAt(a, count, align, off, s).Go?)
  {
    if n > 0 { GoesWrong(a, count, align, off, n - 1); }
    match StartAfter(a, count, align, off, n)
    case None =>
    case Some(s) =>
      if n > 0 {
        WrongTurn(a, count, align, off, StartAfter(a, count, align, off, n - 1).value);
      }
      WrongTurn(a, count, align, off, s);
  }

  lemma WrongTurn(a: Arena, count: nat, align: nat, off: nat, s: nat)
    requires Posed(a, count, align, off) && !SearchOk(a, count, align, off) && Astray(a, count, align, off, s)
    ensures match TurnAt(a, count, align, off, s)
            case Beyond => true
            case Go(next) => Astray(a, count, align, off, next)
            case _ => false
  {
    EndsIff(a, count, s);
    assert !NearRun(a, count, align, s);
    var y := WrongScan(a, count, align, off, s);
    if y < |a.nonfree| {
      assert !Stops(a, count, align, off, y);
      WrongNext(a, count, align, off, y);
    }
  }

  /** It does not find a run: it meets a taken page, or the end of the arena. */
  lemma WrongScan(a: Arena, count: nat, align: nat, off: nat, s: nat) returns (y: nat)
    requires 0 < align && 0 < count && OnGrid(off, s, align) && Multiple(a.base + off, align)
    requires s < |a.nonfree| && U32(s + count) <= |a.nonfree| && !Run(a, s, count, align)
    ensures y >= s && (y < |a.nonfree| ==> a.nonfree[y])
    ensures TurnAt(a, count, align, off, s) == if y < |a.nonfree| then Go(NextStart(off, y, align)) else Beyond
  {
    var i := Scan(a, s, count, 0);
    TurnIs(a, count, align, off, s);
    ScanIs(a, s, count, 0);
    if i == count { HitIsRun(a, count, align, off, s); }
    y := s + i;
  }

  lemma WrongNext(a: Arena, count: nat, align: nat, off: nat, y: nat)
    requires Posed(a, count, align, off) && off < TWO32 && !Ends(a, count, off)
    requires off <= y < |a.nonfree| && !Ends(a, count, NextAligned(off, y, align))
    ensures Astray(a, count, align, off, NextStart(off, y, align))
  {
    NextOnGrid(off, y, align);
    if NextAligned(off, y, align) < TWO32 {
      NextIs(off, y, align);
    } else if |a.nonfree| < TWO32 {
      NextCutBack(off, y, align);
    }
  }

  /** If even the first aligned page lies beyond the first 2^32, the search starts at a page before it
      and stays there. */
  lemma {:induction false} FarGoesWrong(a: Arena, count: nat, align: nat, off: nat, n: nat)
    requires Posed(a, count, align, off) && off >= TWO32
    ensures var s := U32(off);
            && s < off && TurnAt(a, count, align, s, s) != Miss
            && (StartAfter(a, count, align, s, n) == None || StartAfter(a, count, align, s, n) == Some(s))
  {
    FarTurn(a, count, align, off);
    if n > 0 { FarGoesWrong(a, count, align, off, n - 1); }
  }

  lemma FarTurn(a: Arena, count: nat, align: nat, off: nat)
    requires Posed(a, count, align, off) && off >= TWO32
    ensures var s := U32(off);
            s < off && TurnAt(a, count, align, s, s) != Miss && (TurnAt(a, count, align, s, s).Go? ==> TurnAt(a, count, align, s, s) == Go(s))
  {
    var s := U32(off);
    TurnIs(a, count, align, s, s);
    assert Multiple(TWO32, align) ==> TWO32 >= align;
    NextRestarts(s, s + Scan(a, s, count, 0), align);
  }

  // ---------------------------------------------------------------------- the iff

  /** In an arena of any size the search is right exactly under this condition. */
  lemma SearchRightIff(a: Arena, count: nat, align: nat, off: nat)
    requires Posed(a, count, align, off)
    ensures Right(a, count, align, U32(off)) <==> SearchOk(a, count, align, off)
  {
    if SearchOk(a, count, align, off) {
      GoingAtFirst(a, count, align, off);
      SmallU32(off);
      GoesRight(a, count, align, off, off, 0);
    } else if Right(a, count, align, U32(off)) {
      var n: nat :| RightAfter(a, count, align, U32(off), n);
      if off < TWO32 {
        SmallU32(off);
        GoesWrong(a, count, align, off, n);
      } else {
        FarGoesWrong(a, count, align, off, n);
      }
    }
  }

  /** A taken page in the first run sends a search for too large an alignment back to that run. */
  lemma RestartTurn(a: Arena, count: nat, align: nat, off: nat, y: nat)
    requires 0 < align && Multiple(align, TWO32) && off < TWO32 && off + count <= |a.nonfree|
    requires off <= y < off + count && a.nonfree[y]
    ensures TurnAt(a, count, align, off, off) == Go(off)
  {
    var z := GoesPast(a, count, align, off, y);
    NextRestarts(off, z, align);
  }

  lemma GoesPast(a: Arena, count: nat, align: nat, off: nat, y: nat) returns (z: nat)
    requires 0 < align && off + count <= |a.nonfree| && off <= y < off + count && a.nonfree[y]
    ensures TurnAt(a, count, align, off, off) == Go(NextStart(off, z, align))
  {
    U32Less(off + count);
    TurnIs(a, count, align, off, off);
    ScanIs(a, off, count, 0);
    z := off + Scan(a, off, count, 0);
  }

  /** Such a search never ends. */
  lemma {:induction false} NeverEnds(a: Arena, count: nat, align: nat, off: nat, y: nat, n: nat)
    requires 0 < align && Multiple(align, TWO32) && off < TWO32 && off + count <= |a.nonfree|
    requires off <= y < off + count && a.nonfree[y]
    ensures StartAfter(a, count, align, off, n) == Some(off)
  {
    if n > 0 {
      NeverEnds(a, count, align, off, y, n - 1);
      RestartTurn(a, count, align, off, y);
    }
  }

  /** With a wrapped count and no taken page, the first turn already reads beyond the arena. */
  lemma ReadsBeyond(a: Arena, count: nat, align: nat, off: nat)
    requires Posed(a, count, align, off) && off < TWO32 <= off + count && |a.nonfree| < off + count
    requires forall i | off <= i < |a.nonfree| :: !a.nonfree[i]
    ensures TurnAt(a, count, align, off, off) == Beyond
  {
    ScanIs(a, off, count, 0);
    assert U32(off + count) == off + count - TWO32;
  }

  /** In an arena of fewer than 2^31 pages, whatever the page flags, the search is right exactly when
      `off + count` does not wrap, and the alignment is below 2^32 pages or the run too long for the
      arena anyway. */
  lemma AlwaysRightIff(a: Arena, count: nat, align: nat, off: nat)
    requires 0 < align && (Multiple(TWO32, align) || Multiple(align, TWO32)) && 0 < count < TWO32
    requires off < |a.nonfree| < 0x8000_0000 && a.base + off == RoundUp(a.base, align)
    ensures (forall flags: seq<bool> | |flags| == |a.nonfree| :: Right(a.(nonfree := flags), count, align, off))
       <==> off + count < TWO32 && (off + count > |a.nonfree| || align < TWO32)
  {
    forall flags: seq<bool> | |flags| == |a.nonfree|
      ensures Right(a.(nonfree := flags), count, align, off) <==> SearchOk(a.(nonfree := flags), count, align, off)
    {
      FlagsRightIff(a.(nonfree := flags), count, align, off);
    }
    if off + count < TWO32 && (off + count > |a.nonfree| || align < TWO32) {
      forall flags: seq<bool> | |flags| == |a.nonfree| ensures SearchOk(a.(nonfree := flags), count, align, off) {
        FlagsRightIff(a.(nonfree := flags), count, align, off);
        SmallArenaOk(a.(nonfree := flags), count, align, off);
      }
    } else {
      var flags := seq(|a.nonfree|, _ => off + count < TWO32);
      assert |flags| == |a.nonfree|;
      FlagsRightIff(a.(nonfree := flags), count, align, off);
      SameFlagsWrong(a.(nonfree := flags), count, align, off);
    }
  }

  lemma FlagsRightIff(a: Arena, count: nat, align: nat, off: nat)
    requires 0 < align && (Multiple(TWO32, align) || Multiple(align, TWO32)) && 0 < count < TWO32
    requires off < |a.nonfree| < TWO32 && a.base + off == RoundUp(a.base, align)
    ensures Posed(a, count, align, off) && (Right(a, count, align, off) <==> SearchOk(a, count, align, off))
  {
    RoundUpIs(a.base, align);
    NoRunBefore(a, count, align, off);
    SearchRightIff(a, count, align, off);
    SmallU32(off);
  }

  /** Nothing goes wrong: if there is no run, the last place for one has a taken page that stops the search. */
  lemma SmallArenaOk(a: Arena, count: nat, align: nat, off: nat)
    requires Posed(a, count, align, off) && |a.nonfree| < 0x8000_0000
    requires off + count < TWO32 && (off + count > |a.nonfree| || align < TWO32)
    ensures SearchOk(a, count, align, off)
  {
    if off + count <= |a.nonfree| && NoRunIn(a, count, align) {
      var room := |a.nonfree| - count - off;
      RoundDownIs(room, align);
      var t := off + RoundDown(room, align);
      StartAligned(a.base, off, t, align);
      assert !Run(a, t, count, align);
      var y: nat :| t <= y < t + count && a.nonfree[y];
      RoundUpIs(y - off + 1, align);
      MultiplesApart(RoundUp(y - off + 1, align), RoundDown(room, align), align);
      HalfOf32(align);
      assert y >= off && Stops(a, count, align, off, y);
    } else if off + count <= |a.nonfree| {
      var t: nat :| Run(a, t, count, align);
      assert t >= off && NearRun(a, count, align, t);
    }
  }

  lemma HalfOf32(align: nat)
    requires 0 < align < TWO32 && (Multiple(TWO32, align) || Multiple(align, TWO32))
    ensures align <= 0x8000_0000
  {
    assert Multiple(TWO32, align) ==> Multiple(TWO32 - align, align);
  }

  /** A wrapped count with all pages free, or too large an alignment with all pages taken. */
  lemma SameFlagsWrong(a: Arena, count: nat, align: nat, off: nat)
    requires Posed(a, count, align, off) && |a.nonfree| < 0x8000_0000
    requires off + count >= TWO32 || (off + count <= |a.nonfree| && align >= TWO32)
    requires forall i | 0 <= i < |a.nonfree| :: a.nonfree[i] <==> off + count < TWO32
    ensures !SearchOk(a, count, align, off)
  {
    forall t: nat | t >= off ensures !NearRun(a, count, align, t) {
      assert t < |a.nonfree| && off + count < TWO32 ==> a.nonfree[t];
    }
    forall y: nat | y >= off ensures !Stops(a, count, align, off, y) { RoundUpIs(y - off + 1, align); }
  }

  /** The inner loop; it stays in the arena because the run does or a page ahead is taken. */
  method ScanRun(a: Arena, start: nat, count: nat) returns (i: nat)
    requires start + count <= |a.nonfree| || exists y: nat :: start <= y < |a.nonfree| && a.nonfree[y]
    ensures i == Scan(a, start, count, 0)
  {
    i := 0;
    while i < count && !a.nonfree[start + i]
      invariant i <= count && Scan(a, start, count, 0) == Scan(a, start, count, i)
      invariant forall j | start <= j < start + i :: j < |a.nonfree| && !a.nonfree[j]
      invariant i < count ==> start + i < |a.nonfree|
    {
      i := i + 1;
    }
  }

  /** Going from one aligned start to the next, from the first, `off`, on. */
  method SearchFrom(a: Arena, count: nat, align: nat, off: nat) returns (r: Option<nat>)
    requires Posed(a, count, align, off) && SearchOk(a, count, align, off)
    ensures r.Some? ==> Run(a, r.value, count, align) && NoneUnder(a, count, align, r.value)
    ensures r.None? ==> NoRunIn(a, count, align)
  {
    GoingAtFirst(a, count, align, off);
    SmallU32(off);
    var alignedOffset := U32(off);
    var pages, start := |a.nonfree|, alignedOffset;
    while start < pages && U32(start + count) <= pages
      invariant Going(a, count, align, off, start)
      decreases pages - start
    {
      TurnSteps(a, count, align, off, start);
      StaysInside(a, count, align, off, start);
      var i := ScanRun(a, start, count);
      if i == count { return Some(start); }
      start := U32(RoundUp(U32(start + i + 1 - alignedOffset), align) + alignedOffset);
    }
    TurnSteps(a, count, align, off, start);
    return None;
  }

  lemma StaysInside(a: Arena, count: nat, align: nat, off: nat, start: nat)
    requires Posed(a, count, align, off) && Going(a, count, align, off, start) && start < |a.nonfree|
    requires !TurnAt(a, count, align, off, start).Beyond? && U32(start + count) <= |a.nonfree|
    ensures start + count <= |a.nonfree| || exists y: nat :: start <= y < |a.nonfree| && a.nonfree[y]
  {
    var i := Scan(a, start, count, 0);
    ScanIs(a, start, count, 0);
    if i < count { assert a.nonfree[start + i]; }
  }

  /** The arena holds no aligned page, or the search in it is right. */
  ghost predicate FindOk(a: Arena, count: nat, align: nat)
    requires align > 0
  {
    var r := RoundUp(a.base, align) % FRAMES;
    || r < a.base || r > a.base + |a.nonfree| - 1
    || SearchOk(a, count, align, r - a.base)
  }

  /** The search in one arena: the lowest aligned free run, or none because there is none. */
  method FindRun(a: Arena, count: nat, align: nat) returns (r: Option<nat>)
    requires 0 < align && (Multiple(TWO32, align) || Multiple(align, TWO32)) && 0 < count < TWO32
    requires Multiple(FRAMES, align) && a.base + |a.nonfree| <= FRAMES && FindOk(a, count, align)
    ensures r.Some? ==> Run(a, r.value, count, align) && NoneUnder(a, count, align, r.value)
    ensures r.None? ==> NoRunIn(a, count, align)
  {
    var rounded := RoundUp(a.base, align) % FRAMES;
    if rounded < a.base || rounded > a.base + |a.nonfree| - 1 {
      OutsideArena(a, count, align);
      return None;
    }
    InsideArena(a, align);
    NoRunBefore(a, count, align, rounded - a.base);
    r := SearchFrom(a, count, align, rounded - a.base);
  }

  lemma InsideArena(a: Arena, align: nat)
    requires align > 0 && Multiple(FRAMES, align) && a.base + |a.nonfree| <= FRAMES
    requires var r := RoundUp(a.base, align) % FRAMES; a.base <= r < a.base + |a.nonfree|
    ensures RoundUp(a.base, align) % FRAMES == RoundUp(a.base, align)
    ensures Multiple(RoundUp(a.base, align) - a.base + a.base, align) && RoundUp(a.base, align) - a.base < align
  {
    RoundUpIs(a.base, align);
    assert RoundUp(a.base, align) <= FRAMES;
  }

  lemma OutsideArena(a: Arena, count: nat, align: nat)
    requires align > 0 && count > 0 && Multiple(FRAMES, align) && a.base + |a.nonfree| <= FRAMES
    requires var r := RoundUp(a.base, align) % FRAMES; r < a.base || r > a.base + |a.nonfree| - 1
    ensures forall t: nat :: !Run(a, t, count, align)
  {
    RoundUpIs(a.base, align);
    forall t: nat ensures !Run(a, t, count, align) {
    }
  }

  // ------------------------------------------------------------- the allocator

  lemma {:induction false} TakeAllSnoc(m: seq<Arena>, list: seq<Page>, p: Page)
    requires Present(m, list) && Exists(m, p)
    ensures Present(m, list + [p]) && TakeAll(m, list + [p]) == Take(TakeAll(m, list), p)
    decreases |list|
  {
    if list != [] {
      assert (list + [p])[1..] == list[1..] + [p];
      TakeExists(m, list[0]);
      TakeAllSnoc(Take(m, list[0]), list[1..], p);
    }
  }

  /** The first `n` free pages of the first arena. */
  ghost function FirstPages(m: seq<Arena>, n: nat): seq<Page>
    requires n == 0 || (|m| > 0 && n <= |m[0].freeList|)
  {
    seq(n, i requires 0 <= i < n => Page(0, m[0].freeList[i]))
  }

  lemma FirstPagesOk(m: seq<Arena>, n: nat)
    requires PmmOk(m) && (n == 0 || (|m| > 0 && n <= |m[0].freeList|))
    ensures Distinct(FirstPages(m, n)) && AllFree(m, FirstPages(m, n)) && Present(m, FirstPages(m, n))
  {
    forall p | p in FirstPages(m, n) ensures Free(m, p) {
      var i :| 0 <= i < n && p == Page(0, m[0].freeList[i]);
      assert m[0].freeList[i] in m[0].freeList;
    }
  }

  /** Taking them leaves the rest of that arena's free list in its order. */
  lemma {:induction false} FirstPagesLeave(m: seq<Arena>, n: nat)
    requires PmmOk(m) && |m| > 0 && n <= |m[0].freeList|
    ensures Present(m, FirstPages(m, n)) && SameArenas(m, TakeAll(m, FirstPages(m, n)))
    ensures TakeAll(m, FirstPages(m, n))[0].freeList == m[0].freeList[n..]
  {
    FirstPagesOk(m, n);
    TakeAllStays(m, FirstPages(m, n));
    if n > 0 {
      FirstPagesLeave(m, n - 1);
      var p := Page(0, m[0].freeList[n - 1]);
      assert FirstPages(m, n) == FirstPages(m, n - 1) + [p] && p in FirstPages(m, n);
      TakeAllSnoc(m, FirstPages(m, n - 1), p);
      assert m[0].freeList[n - 1..][0] == p.index && m[0].freeList[n - 1..][1..] == m[0].freeList[n..];
    } else {
      assert FirstPages(m, 0) == [];
    }
  }

  /** The pages of a run. */
  ghost function RunPages(k: nat, s: nat, n: nat): seq<Page> { seq(n, i requires 0 <= i < n => Page(k, s + i)) }

  lemma RunPagesOk(m: seq<Arena>, k: nat, s: nat, n: nat)
    requires k < |m| && s + n <= |m[k].nonfree| && forall i | s <= i < s + n :: !m[k].nonfree[i]
    ensures Distinct(RunPages(k, s, n)) && AllFree(m, RunPages(k, s, n)) && Present(m, RunPages(k, s, n))
  {
  }

  /** The alignment in page frames: at least one, whatever is asked for. */
  function Frames(alignLog2: nat): (r: nat)
    ensures r > 0
  {
    if alignLog2 < 12 then 1 else Pow2(alignLog2 - 12)
  }

  lemma FramesDivide(alignLog2: nat)
    requires alignLog2 < 64
    ensures Multiple(FRAMES, Frames(alignLog2)) && (Multiple(TWO32, Frames(alignLog2)) || Multiple(Frames(alignLog2), TWO32))
  {
    FramesIs();
    var k := if alignLog2 < 12 then 0 else alignLog2 - 12;
    Pow2Multiple(k, 52);
    Pow2Side(k);
  }

  /** A power of two divides 2^32 or is a multiple of it. */
  lemma Pow2Side(k: nat)
    ensures Multiple(TWO32, Pow2(k)) || Multiple(Pow2(k), TWO32)
  {
    Pow2Of32();
    if k <= 32 { Pow2Multiple(k, 32); } else { Pow2Multiple(32, k); }
  }

  lemma Pow2Of32()
    ensures Pow2(32) == TWO32
  {
    assert Pow2(8) == 0x100 && Pow2(16) == 0x1_0000 && Pow2(24) == 0x100_0000;
  }

  lemma FramesIs()
    ensures Pow2(52) == FRAMES
  {
    assert Pow2(8) == 0x100 && Pow2(16) == 0x1_0000 && Pow2(24) == 0x100_0000 && Pow2(32) == 0x1_0000_0000;
    assert Pow2(40) == 0x100_0000_0000 && Pow2(48) == 0x1_0000_0000_0000;
  }

  /** No KMAP arena among the first `n` has an aligned free run. */
  ghost predicate NoRun(m: seq<Arena>, n: nat, count: nat, align: nat)
    requires n <= |m| && align > 0
  {
    forall k | 0 <= k < n && m[k].kmap && count > 0 :: NoRunIn(m[k], count, align)
  }

  /** The search is right in every KMAP arena it comes to. */
  ghost predicate Searchable(m: seq<Arena>, count: nat, align: nat)
    requires align > 0
  {
    forall k | 0 <= k < |m| && m[k].kmap && NoRun(m, k, count, align) && count > 0 :: FindOk(m[k], count, align)
  }

  /** The lowest aligned free run of the first KMAP arena that has one. */
  ghost predicate Chosen(m: seq<Arena>, k: nat, s: nat, count: nat, align: nat)
    requires align > 0
  {
    && k < |m| && m[k].kmap && Run(m[k], s, count, align)
    && NoneUnder(m[k], count, align, s) && NoRun(m, k, count, align)
  }

  ghost predicate ByPriority(m: seq<Arena>) {
    forall i, j | 0 <= i < j < |m| :: m[i].priority <= m[j].priority
  }

  /** An arena with all its pages free, in order. */
  function Fresh(base: nat, pages: nat, kmap: bool, priority: nat): Arena {
    Arena(base, kmap, priority, seq(pages, _ => false), seq(pages, j => j), pages)
  }

  lemma FreshOk(base: nat, pages: nat, kmap: bool, priority: nat)
    requires 0 < pages && base + pages <= FRAMES
    ensures FreeOk(Fresh(base, pages, kmap, priority))
  {
    var a := Fresh(base, pages, kmap, priority);
    forall i: nat | i < pages ensures i in a.freeList { assert a.freeList[i] == i; }
  }

  class PhysMem {
    var arenas: seq<Arena>

    ghost predicate Valid()
      reads this
    {
      PmmOk(arenas)
    }

    /** The head of an arena's free list leaves it and is marked. */
    method TakeHead(k: nat) returns (p: Page)
      requires k < |arenas| && arenas[k].freeList != [] && arenas[k].freeList[0] < |arenas[k].nonfree|
      modifies this
      ensures p == Page(k, old(arenas[k].freeList[0])) && arenas == Take(old(arenas), p)
      ensures arenas[k].freeList == old(arenas[k].freeList)[1..]
    {
      var a := arenas[k];
      p := Page(k, a.freeList[0]);
      arenas := arenas[k := a.(freeList := a.freeList[1..], freeCount := a.freeCount - 1, nonfree := a.nonfree[p.index := true])];
    }

    /** pmm_alloc_pages: it takes from the first arena only, and gives what that has. */
    method AllocPages(count: nat) returns (list: seq<Page>)
      requires Valid()
      modifies this
      ensures Valid() && Distinct(list) && AllFree(old(arenas), list) && Present(old(arenas), list)
      ensures arenas == TakeAll(old(arenas), list)
      ensures |list| == if |old(arenas)| == 0 then 0 else Min(count, |old(arenas[0].freeList)|)
      ensures list == FirstPages(old(arenas), |list|)
    {
      list := [];
      ghost var m := arenas;
      assert FirstPages(m, 0) == [];
      var k := 0;
      while k < |arenas|
        invariant Progress(m, list) && arenas == TakeAll(m, list) && |list| <= count
        invariant k <= |arenas| && |m| > 0 ==> arenas[0].freeList == m[0].freeList[|list|..]
        invariant k > 0 ==> |list| == count
      {
        while |list| < count
          invariant Progress(m, list) && arenas == TakeAll(m, list) && |list| <= count && |arenas| > 0
          invariant arenas[0].freeList == m[0].freeList[|list|..]
          invariant k > 0 ==> |list| == count
        {
          if arenas[k].freeList == [] {
            FirstPagesOk(m, |list|);
            TakeAllKeeps(m, list);
            return;
          }
          HeadIsFree(m, list);
          assert Exists(m, Page(0, m[0].freeList[|list|])) && Exists(arenas, Page(0, m[0].freeList[|list|]));
          var p := TakeHead(k);
          TakeAllSnoc(m, list, p);
          assert FirstPages(m, |list| + 1) == FirstPages(m, |list|) + [p];
          FirstPagesOk(m, |list| + 1);
          list := list + [p];
        }
        k := k + 1;
      }
      FirstPagesOk(m, |list|);
      TakeAllKeeps(m, list);
    }

    /** Pages `s` to `s + n` of an arena leave its free list and are marked. */
    method TakeRun(k: nat, s: nat, n: nat) returns (list: seq<Page>)
      requires Valid() && k < |arenas| && s + n <= |arenas[k].nonfree| && forall i | s <= i < s + n :: !arenas[k].nonfree[i]
      modifies this
      ensures list == RunPages(k, s, n) && Present(old(arenas), list) && arenas == TakeAll(old(arenas), list) && Valid()
    {
      ghost var m := arenas;
      list := [];
      for i := 0 to n
        invariant list == RunPages(k, s, i) && Present(m, list) && arenas == TakeAll(m, list)
      {
        var p := Page(k, s + i);
        assert Exists(m, p) && Exists(arenas, p);
        TakeAllSnoc(m, list, p);
        var a := arenas[k];
        arenas := arenas[k := a.(freeList := Without<nat>(a.freeList, s + i), freeCount := a.freeCount - 1, nonfree := a.nonfree[s + i := true])];
        list := list + [p];
      }
      RunPagesOk(m, k, s, n);
      TakeAllKeeps(m, list);
    }

    /** pmm_alloc_contiguous, giving the frame of the run it found */
    method AllocContiguous(count: nat, alignLog2: nat) returns (list: seq<Page>, pa: Option<nat>)
      requires Valid() && alignLog2 < 64 && count < TWO32 && Searchable(arenas, count, Frames(alignLog2))
      modifies this
      ensures Valid()
      ensures pa.None? ==> list == [] && arenas == old(arenas) && NoRun(arenas, |arenas|, count, Frames(alignLog2))
      ensures pa.Some? ==>
                && |list| == count > 0 && var k, s := list[0].arena, list[0].index;
                && list == RunPages(k, s, count) && Chosen(old(arenas), k, s, count, Frames(alignLog2))
                && pa.value == old(arenas)[k].base + s && Present(old(arenas), list) && arenas == TakeAll(old(arenas), list)
    {
      list, pa := [], None;
      if count == 0 { return; }
      var align := Frames(alignLog2);
      FramesDivide(alignLog2);
      var k := 0;
      while k < |arenas|
        invariant k <= |arenas| && arenas == old(arenas) && NoRun(arenas, k, count, align)
      {
        if arenas[k].kmap {
          var r := FindRun(arenas[k], count, align);
          if r.Some? {
            var a := arenas[k];
            list := TakeRun(k, r.value, count);
            assert list[0] == Page(k, r.value);
            return list, Some(a.base + r.value);
          }
        }
        k := k + 1;
      }
    }

    /** pmm_free: pages of no arena are dropped */
    method FreePages(list: seq<Page>) returns (count: nat)
      requires Valid() && Distinct(list) && forall p | p in list && Exists(arenas, p) :: Taken(arenas, p)
      modifies this
      ensures Valid() && Present(old(arenas), Known(old(arenas), list))
      ensures arenas == GiveAll(old(arenas), Known(old(arenas), list)) && count == |Known(old(arenas), list)|
    {
      KnownIs(arenas, list);
      GiveAllKeeps(arenas, Known(arenas, list));
      count := 0;
      var rest := list;
      ghost var m := arenas;
      while rest != []
        invariant (forall q :: Exists(arenas, q) <==> Exists(m, q)) && Present(m, Known(m, list)) && Present(arenas, Known(m, rest))
        invariant GiveAll(arenas, Known(m, rest)) == GiveAll(m, Known(m, list))
        invariant count + |Known(m, rest)| == |Known(m, list)|
      {
        var p := rest[0];
        KnownStep(m, rest);
        assert Exists(arenas, p) <==> Exists(m, p);
        if p.arena < |arenas| && p.index < |arenas[p.arena].nonfree| {
          GiveExists(arenas, p);
          PutBack(p);
          count := count + 1;
        }
        rest := rest[1..];
      }
    }

    /** One page goes back to the head of its arena's free list. */
    method PutBack(p: Page)
      requires Exists(arenas, p)
      modifies this
      ensures arenas == Give(old(arenas), p)
    {
      var a := arenas[p.arena];
      arenas := arenas[p.arena := a.(nonfree := a.nonfree[p.index := false], freeList := [p.index] + a.freeList, freeCount := a.freeCount + 1)];
    }

    /** pmm_add_arena, before any page is allocated: behind the arenas of the same priority */
    method AddArena(base: nat, pages: nat, kmap: bool, priority: nat)
      requires Valid() && ByPriority(arenas) && 0 < pages && base + pages <= FRAMES
      modifies this
      ensures Valid() && ByPriority(arenas)
      ensures exists k | 0 <= k <= |old(arenas)| ::
                && arenas == old(arenas)[..k] + [Fresh(base, pages, kmap, priority)] + old(arenas)[k..]
                && (forall j | 0 <= j < k :: old(arenas)[j].priority <= priority)
                && (forall j | k <= j < |old(arenas)| :: old(arenas)[j].priority > priority)
    {
      var k := 0;
      while k < |arenas| && arenas[k].priority <= priority
        invariant k <= |arenas| && forall j | 0 <= j < k :: arenas[j].priority <= priority
      {
        k := k + 1;
      }
      var a := Arena(base, kmap, priority, seq(pages, _ => false), [], 0);
      for i := 0 to pages
        invariant a == Arena(base, kmap, priority, seq(pages, _ => false), seq(i, j => j), i)
      {
        a := a.(freeList := a.freeList + [i], freeCount := a.freeCount + 1);
      }
      FreshOk(base, pages, kmap, priority);
      arenas := arenas[..k] + [a] + arenas[k..];
    }
  }

  /** `list` is what has been taken so far. */
  ghost predicate Progress(m: seq<Arena>, list: seq<Page>) {
    && (list == [] || (|m| > 0 && |list| <= |m[0].freeList|))
    && list == FirstPages(m, |list|) && Present(m, list)
  }

  lemma HeadIsFree(m: seq<Arena>, list: seq<Page>)
    requires PmmOk(m) && |m| > 0 && |list| < |m[0].freeList|
    ensures m[0].freeList[|list|] < |m[0].nonfree|
  {
    assert m[0].freeList[|list|] in m[0].freeList;
  }
}
