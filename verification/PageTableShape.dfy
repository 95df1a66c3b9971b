/** Which tables and entries arch/arm64/mmu.c leaves behind: no table without an entry, and the largest
    blocks that fit. */
module PageTableShape {
  import opened Wrappers
  import opened Multiples
  import opened PageTableSpec

  /** Every table below has an entry. */
  ghost predicate Tidy(k: Tree) {
    k.Table? ==> !AllEmpty(k.kids) && forall i | 0 <= i < |k.kids| :: Tidy(k.kids[i])
  }

  ghost predicate TidyAll(kids: seq<Tree>) { forall i | 0 <= i < |kids| :: Tidy(kids[i]) }

  // -------------------------------------------------------------------- unmap

  /** No table that [lo, hi) meets is without an entry. */
  ghost predicate NoneLeftKid(k: Tree, l: nat, lo: nat, hi: nat)
    requires WF(k, l)
    decreases l, 0
  {
    lo < hi && k.Table? ==> !AllEmpty(k.kids) && NoneLeft(k.kids, l - 1, lo, hi)
  }

  ghost predicate NoneLeft(kids: seq<Tree>, l: nat, lo: nat, hi: nat)
    requires WFs(kids, l)
    decreases l, 1
  {
    forall i | 0 <= i < |kids| ::
      NoneLeftKid(kids[i], l, Lo(lo, Times(i, Block(l))), Hi(hi, Times(i, Block(l)), Block(l)))
  }

  lemma {:induction false} ClearKidLeavesNone(k: Tree, l: nat, lo: nat, hi: nat)
    requires WF(k, l)
    ensures WF(ClearKid(k, l, lo, hi), l) && NoneLeftKid(ClearKid(k, l, lo, hi), l, lo, hi)
    decreases l, 0
  {
    ClearKidWF(k, l, lo, hi);
    if lo < hi && k.Table? { ClearLeavesNone(k.kids, l - 1, lo, hi); }
  }

  /** Whatever tables there were, unmapping leaves none without an entry where it has been. */
  lemma {:induction false} ClearLeavesNone(kids: seq<Tree>, l: nat, lo: nat, hi: nat)
    requires WFs(kids, l)
    ensures WFs(Clear(kids, l, lo, hi), l) && NoneLeft(Clear(kids, l, lo, hi), l, lo, hi)
    decreases l, 1
  {
    ClearWF(kids, l, lo, hi);
    forall i | 0 <= i < |kids|
      ensures NoneLeftKid(Clear(kids, l, lo, hi)[i], l, Lo(lo, Times(i, Block(l))), Hi(hi, Times(i, Block(l)), Block(l)))
    {
      ClearKidLeavesNone(kids[i], l, Lo(lo, Times(i, Block(l))), Hi(hi, Times(i, Block(l)), Block(l)));
    }
  }

  lemma {:induction false} ClearKidTidy(k: Tree, l: nat, lo: nat, hi: nat)
    requires WF(k, l) && Tidy(k)
    ensures Tidy(ClearKid(k, l, lo, hi))
    decreases l, 0
  {
    if lo < hi && k.Table? { ClearTidy(k.kids, l - 1, lo, hi); }
  }

  /** Unmapping leaves no table without an entry if there was none. */
  lemma {:induction false} ClearTidy(kids: seq<Tree>, l: nat, lo: nat, hi: nat)
    requires WFs(kids, l) && TidyAll(kids)
    ensures TidyAll(Clear(kids, l, lo, hi))
    decreases l, 1
  {
    forall i | 0 <= i < |kids| ensures Tidy(Clear(kids, l, lo, hi)[i]) {
      ClearKidTidy(kids[i], l, Lo(lo, Times(i, Block(l))), Hi(hi, Times(i, Block(l)), Block(l)));
    }
  }

  /** In a tidy tree every entry that is not empty translates an address. */
  lemma {:induction false} TidyTranslates(k: Tree, l: nat) returns (a: nat)
    requires WF(k, l) && Tidy(k) && !k.Empty?
    ensures a < Block(l) && Translate(k, l, a).Some?
    decreases l
  {
    if k.Map? { return 0; }
    var i :| 0 <= i < |k.kids| && !k.kids[i].Empty?;
    var r := TidyTranslates(k.kids[i], l - 1);
    DivUnique(i, Block(l - 1), r, |k.kids|);
    a := Times(i, Block(l - 1)) + r;
  }

  // ---------------------------------------------------------------------- map

  lemma {:induction false} FillKidTidy(k: Tree, l: nat, lo: nat, hi: nat, pa: nat, attrs: nat)
    requires WF(k, l) && Tidy(k) && hi <= Block(l)
    ensures Tidy(FillKid(k, l, lo, hi, pa, attrs))
    decreases l, 0
  {
    if lo < hi && l > 0 && NeedTable(l, lo, hi, pa) {
      BlockStep(l - 1);
      FillTidy(KidsOf(k), l - 1, lo, hi, pa, attrs);
      var kids := KidsOf(k);
      DivBound(lo, Block(l - 1), |kids|);
      var i := Index(lo, Block(l - 1));
      assert Fill(kids, l - 1, lo, hi, pa, attrs)[i]
          == FillKid(kids[i], l - 1, Lo(lo, Times(i, Block(l - 1))), Hi(hi, Times(i, Block(l - 1)), Block(l - 1)),
                     pa + Lo(Times(i, Block(l - 1)), lo), attrs);
    }
  }

  /** Mapping leaves no table without an entry either. */
  lemma {:induction false} FillTidy(kids: seq<Tree>, l: nat, lo: nat, hi: nat, pa: nat, attrs: nat)
    requires WFs(kids, l) && TidyAll(kids)
    ensures TidyAll(Fill(kids, l, lo, hi, pa, attrs))
    decreases l, 1
  {
    forall i | 0 <= i < |kids| ensures Tidy(Fill(kids, l, lo, hi, pa, attrs)[i]) {
      FillKidTidy(kids[i], l, Lo(lo, Times(i, Block(l))), Hi(hi, Times(i, Block(l)), Block(l)),
                  pa + Lo(Times(i, Block(l)), lo), attrs);
    }
  }

  lemma {:induction false} KidComesBack(k: Tree, l: nat, lo: nat, hi: nat, pa: nat, attrs: nat)
    requires WF(k, l) && Tidy(k) && hi <= Block(l) && FillOkKid(k, l, lo, hi, pa)
    ensures WF(FillKid(k, l, lo, hi, pa, attrs), l)
    ensures ClearKid(FillKid(k, l, lo, hi, pa, attrs), l, lo, hi) == k
    decreases l, 0
  {
    FillKidWF(k, l, lo, hi, pa, attrs);
    if lo < hi && NeedTable(l, lo, hi, pa) {
      ComesBack(KidsOf(k), l - 1, lo, hi, pa, attrs);
      if hi - lo == Block(l) { FullClearEmpty(Fill(KidsOf(k), l - 1, lo, hi, pa, attrs), l - 1, hi); }
      assert k.Empty? ==> AllEmpty(KidsOf(k));
    }
  }

  /** Over tables that all have an entry, unmapping what was just mapped brings back the very same
      tables, so none is kept from the pool. */
  lemma {:induction false} ComesBack(kids: seq<Tree>, l: nat, lo: nat, hi: nat, pa: nat, attrs: nat)
    requires WFs(kids, l) && TidyAll(kids) && FillOk(kids, l, lo, hi, pa)
    ensures WFs(Fill(kids, l, lo, hi, pa, attrs), l)
    ensures Clear(Fill(kids, l, lo, hi, pa, attrs), l, lo, hi) == kids
    decreases l, 1
  {
    FillWF(kids, l, lo, hi, pa, attrs);
    var filled := Fill(kids, l, lo, hi, pa, attrs);
    forall i | 0 <= i < |kids| ensures Clear(filled, l, lo, hi)[i] == kids[i] {
      assert FillOkAt(kids, l, lo, hi, pa, i);
      KidComesBack(kids[i], l, Lo(lo, Times(i, Block(l))), Hi(hi, Times(i, Block(l)), Block(l)),
                   pa + Lo(Times(i, Block(l)), lo), attrs);
    }
  }

  // ----------------------------------------------------- when a map can succeed

  ghost predicate FreeKid(k: Tree, l: nat, lo: nat, hi: nat)
    requires WF(k, l)
  {
    forall a: nat | a < Block(l) && InRange(lo, hi, a) :: Translate(k, l, a).None?
  }

  /** No address of the range is translated. */
  ghost predicate FreeRange(kids: seq<Tree>, l: nat, lo: nat, hi: nat)
    requires WFs(kids, l)
  {
    forall a: nat | a < Times(|kids|, Block(l)) && InRange(lo, hi, a) :: Lookup(kids, l, a).None?
  }

  lemma {:induction false} FillOkKidIff(k: Tree, l: nat, lo: nat, hi: nat, pa: nat)
    requires WF(k, l) && Tidy(k) && hi <= Block(l) && (lo < hi ==> Aligned(lo) && Aligned(hi) && Aligned(pa))
    ensures FillOkKid(k, l, lo, hi, pa) <==> FreeKid(k, l, lo, hi)
    decreases l, 0
  {
    if lo >= hi {
    } else if NeedTable(l, lo, hi, pa) {
      MultipleSub(hi, lo, Page());
      NeedTableLevel(l, lo, hi - lo, pa);
      if k.Map? {
        assert Translate(k, l, lo).Some?;
      } else {
        BelowIsFree(k, l, lo, hi);
        FillOkIff(KidsOf(k), l - 1, lo, hi, pa);
      }
    } else if !k.Empty? {
      var a := TidyTranslates(k, l);
      assert InRange(lo, hi, a);
    }
  }

  lemma BelowIsFree(k: Tree, l: nat, lo: nat, hi: nat)
    requires WF(k, l) && l > 0 && !k.Map? && hi <= Block(l)
    ensures WFs(KidsOf(k), l - 1) && TidyAll(Blank())
    ensures FreeKid(k, l, lo, hi) <==> FreeRange(KidsOf(k), l - 1, lo, hi)
  {
    BlockStep(l - 1);
    if k.Empty? {
      var blank := Blank();
      var n := Times(|blank|, Block(l - 1));
      var m := l - 1;
      forall a: nat | a < n ensures Lookup(blank, m, a).None? { AllEmptyLookup(blank, m, a); }
    }
  }

  lemma ClipAligned(lo: nat, hi: nat, l: nat, i: nat, pa: nat)
    requires Aligned(lo) && Aligned(hi) && Aligned(pa)
    ensures var (lo', hi') := (Lo(lo, Times(i, Block(l))), Hi(hi, Times(i, Block(l)), Block(l)));
            Aligned(lo') && Aligned(hi') && Aligned(pa + Lo(Times(i, Block(l)), lo))
  {
    var base := Times(i, Block(l));
    BlockAligned(i, l);
    BlockAligned(1, l);
    TimesStep(0, Block(l));
    if lo > base { MultipleSub(lo, base, Page()); } else { MultipleSub(base, lo, Page()); }
    if hi > base { MultipleSub(hi, base, Page()); }
    MultipleAdd(pa, Lo(base, lo), Page());
  }

  /** Over tables that all have an entry, nothing is in the way of a map exactly when no address of
      the range is translated. */
  lemma {:induction false} FillOkIff(kids: seq<Tree>, l: nat, lo: nat, hi: nat, pa: nat)
    requires WFs(kids, l) && TidyAll(kids) && Aligned(lo) && Aligned(hi) && Aligned(pa)
    ensures FillOk(kids, l, lo, hi, pa) <==> FreeRange(kids, l, lo, hi)
    decreases l, 1
  {
    var b := Block(l);
    forall i: nat | i < |kids|
      ensures FillOkAt(kids, l, lo, hi, pa, i) <==> FreeKid(kids[i], l, Lo(lo, Times(i, b)), Hi(hi, Times(i, b), b))
    {
      ClipAligned(lo, hi, l, i, pa);
      FillOkKidIff(kids[i], l, Lo(lo, Times(i, b)), Hi(hi, Times(i, b), b), pa + Lo(Times(i, b), lo));
    }
    FreeByEntry(kids, l, lo, hi);
  }

  lemma FreeEntry(kids: seq<Tree>, l: nat, lo: nat, hi: nat, i: nat)
    requires WFs(kids, l) && FreeRange(kids, l, lo, hi) && i < |kids|
    ensures FreeKid(kids[i], l, Lo(lo, Times(i, Block(l))), Hi(hi, Times(i, Block(l)), Block(l)))
  {
    var b := Block(l);
    forall r: nat | r < b && InRange(Lo(lo, Times(i, b)), Hi(hi, Times(i, b), b), r) ensures Translate(kids[i], l, r).None? {
      DivUnique(i, b, r, |kids|);
      assert Lookup(kids, l, Times(i, b) + r) == Translate(kids[i], l, r);
    }
  }

  lemma FreeByEntry(kids: seq<Tree>, l: nat, lo: nat, hi: nat)
    requires WFs(kids, l)
    ensures FreeRange(kids, l, lo, hi) <==>
            forall i: nat | i < |kids| :: FreeKid(kids[i], l, Lo(lo, Times(i, Block(l))), Hi(hi, Times(i, Block(l)), Block(l)))
  {
    var b := Block(l);
    if FreeRange(kids, l, lo, hi) {
      forall i: nat | i < |kids| ensures FreeKid(kids[i], l, Lo(lo, Times(i, b)), Hi(hi, Times(i, b), b)) {
        FreeEntry(kids, l, lo, hi, i);
      }
    }
    if forall i: nat | i < |kids| :: FreeKid(kids[i], l, Lo(lo, Times(i, b)), Hi(hi, Times(i, b), b)) {
      forall a: nat | a < Times(|kids|, b) && InRange(lo, hi, a) ensures Lookup(kids, l, a).None? {
        DivBound(a, b, |kids|);
        var i := Index(a, b);
        assert FreeKid(kids[i], l, Lo(lo, Times(i, b)), Hi(hi, Times(i, b), b));
      }
    }
  }

  // ------------------------------------------------------------- largest blocks

  /** Where the block of level `m` around `a` begins. */
  ghost function Start(a: nat, m: nat): nat { Times(Index(a, Block(m)), Block(m)) }

  /** The block of level `m` around `a` lies in the range, suits the physical address, and is not too large. */
  ghost predicate BlockFits(m: nat, lo: nat, hi: nat, pa: nat, a: nat) {
    && lo <= Start(a, m) && Start(a, m) + Block(m) <= hi
    && Multiple(pa + (Start(a, m) - lo), Block(m)) && IndexShift(m) <= BLOCK_MAX_SHIFT
  }

  /** The level of the entry that translates an address. */
  ghost function LeafLevelKid(k: Tree, l: nat, a: nat): Option<nat>
    requires WF(k, l) && a < Block(l)
    decreases l, 0
  {
    match k
    case Empty => None
    case Map(_, _) => Some(l)
    case Table(kids) => LeafLevel(kids, l - 1, a)
  }

  ghost function LeafLevel(kids: seq<Tree>, l: nat, a: nat): Option<nat>
    requires WFs(kids, l) && a < Times(|kids|, Block(l))
    decreases l, 1
  {
    DivBound(a, Block(l), |kids|);
    LeafLevelKid(kids[Index(a, Block(l))], l, a - Times(Index(a, Block(l)), Block(l)))
  }

  /** `m` is the level of the largest block that fits, among levels up to `l`. */
  ghost predicate Largest(m: nat, l: nat, lo: nat, hi: nat, pa: nat, a: nat) {
    m <= l && BlockFits(m, lo, hi, pa, a) && forall n: nat | m < n <= l :: !BlockFits(n, lo, hi, pa, a)
  }

  lemma {:induction false} BlockMultiple(l: nat, m: nat)
    requires m <= l
    ensures Multiple(Block(l), Block(m))
  {
    if m < l {
      BlockMultiple(l - 1, m);
      BlockStep(l - 1);
      MultipleMul(Entries(), Block(l - 1));
      MultipleTrans(Block(l), Block(l - 1), Block(m));
    }
  }

  /** Smaller blocks lie the same way in every entry. */
  lemma StartInEntry(i: nat, l: nat, m: nat, r: nat)
    requires m <= l && r < Block(l)
    ensures Start(Times(i, Block(l)) + r, m) == Times(i, Block(l)) + Start(r, m)
    ensures Start(r, m) + Block(m) <= Block(l)
  {
    var b, base := Block(m), Times(i, Block(l));
    MultipleMul(i, Block(l));
    BlockMultiple(l, m);
    MultipleTrans(base, Block(l), b);
    var q := MultipleQuotient(base, b);
    var n := MultipleQuotient(Block(l), b);
    var j := Index(r, b);
    SumOfTimes(q, j, b);
    IndexUnique(base + r, b, q + j);
    DivBound(r, b, n);
    MulMono(j, n, b);
  }

  lemma SumOfTimes(i: nat, j: nat, b: nat)
    ensures Times(i + j, b) == Times(i, b) + Times(j, b)
  {
    TimesIsProduct(i + j, b);
    TimesIsProduct(i, b);
    TimesIsProduct(j, b);
    assert (i + j) * b == i * b + j * b;
  }

  /** Seen from an entry, the same blocks fit. */
  lemma FitsInEntry(i: nat, l: nat, m: nat, lo: nat, hi: nat, pa: nat, r: nat)
    requires m <= l && r < Block(l)
    ensures var base := Times(i, Block(l));
            BlockFits(m, Lo(lo, base), Hi(hi, base, Block(l)), pa + Lo(base, lo), r) <==> BlockFits(m, lo, hi, pa, base + r)
  {
    StartInEntry(i, l, m, r);
    var base, s := Times(i, Block(l)), Start(r, m);
    assert lo <= base + s ==> pa + Lo(base, lo) + (s - Lo(lo, base)) == pa + (base + s - lo);
  }

  lemma {:induction false} FillKidLargest(k: Tree, l: nat, lo: nat, hi: nat, pa: nat, attrs: nat, a: nat)
    requires WF(k, l) && hi <= Block(l) && FillOkKid(k, l, lo, hi, pa) && a < Block(l) && InRange(lo, hi, a)
    ensures WF(FillKid(k, l, lo, hi, pa, attrs), l)
    ensures var m := LeafLevelKid(FillKid(k, l, lo, hi, pa, attrs), l, a); m.Some? && Largest(m.value, l, lo, hi, pa, a)
    decreases l, 0
  {
    FillKidWF(k, l, lo, hi, pa, attrs);
    WholeEntryFits(l, lo, hi, pa, a);
    if NeedTable(l, lo, hi, pa) {
      BlockStep(l - 1);
      FillLargest(KidsOf(k), l - 1, lo, hi, pa, attrs, a);
    }
  }

  lemma WholeEntryFits(l: nat, lo: nat, hi: nat, pa: nat, a: nat)
    requires a < Block(l) && hi <= Block(l)
    ensures BlockFits(l, lo, hi, pa, a) <==> !NeedTable(l, lo, hi, pa)
  {
    TimesStep(0, Block(l));
    IndexUnique(a, Block(l), 0);
  }

  /** Every address of the range is mapped by the largest block around it that fits. */
  lemma {:induction false} FillLargest(kids: seq<Tree>, l: nat, lo: nat, hi: nat, pa: nat, attrs: nat, a: nat)
    requires WFs(kids, l) && FillOk(kids, l, lo, hi, pa) && a < Times(|kids|, Block(l)) && InRange(lo, hi, a)
    ensures WFs(Fill(kids, l, lo, hi, pa, attrs), l)
    ensures var m := LeafLevel(Fill(kids, l, lo, hi, pa, attrs), l, a); m.Some? && Largest(m.value, l, lo, hi, pa, a)
    decreases l, 1
  {
    FillWF(kids, l, lo, hi, pa, attrs);
    var b := Block(l);
    DivBound(a, b, |kids|);
    var i := Index(a, b);
    var base := Times(i, b);
    assert FillOkAt(kids, l, lo, hi, pa, i);
    FillKidLargest(kids[i], l, Lo(lo, base), Hi(hi, base, b), pa + Lo(base, lo), attrs, a - base);
    var m := LeafLevelKid(Fill(kids, l, lo, hi, pa, attrs)[i], l, a - base).value;
    LargestInEntry(i, l, m, lo, hi, pa, a - base);
    assert base + (a - base) == a;
  }

  lemma LargestInEntry(i: nat, l: nat, m: nat, lo: nat, hi: nat, pa: nat, r: nat)
    requires r < Block(l)
    ensures var base := Times(i, Block(l));
            Largest(m, l, Lo(lo, base), Hi(hi, base, Block(l)), pa + Lo(base, lo), r) <==> Largest(m, l, lo, hi, pa, base + r)
  {
    var base := Times(i, Block(l));
    var lo', hi', pa', a := Lo(lo, base), Hi(hi, base, Block(l)), pa + Lo(base, lo), base + r;
    forall n: nat | n <= l ensures BlockFits(n, lo', hi', pa', r) <==> BlockFits(n, lo, hi, pa, a) {
      FitsInEntry(i, l, n, lo, hi, pa, r);
    }
  }

  // ------------------------------------------------------- after a failed map

  /** `w` is `v`, or `v` with new tables, without an entry between them, below one entry. */
  ghost predicate Leftover(v: seq<Tree>, w: seq<Tree>, l: nat)
    decreases l, 1
  {
    |w| == |v| && (w == v || exists i :: 0 <= i < |v| && w == v[i := w[i]] && LeftoverKid(v[i], w[i], l))
  }

  ghost predicate LeftoverKid(k: Tree, k': Tree, l: nat)
    decreases l, 0
  {
    k' == k || (l > 0 && !k.Map? && k'.Table? && Leftover(KidsOf(k), k'.kids, l - 1))
  }

  lemma {:induction false} LeftoverKidCount(k: Tree, k': Tree, l: nat)
    requires LeftoverKid(k, k', l)
    ensures Count(k) <= Count(k') <= Count(k) + l
    decreases l, 0
  {
    if k' != k {
      LeftoverCount(KidsOf(k), k'.kids, l - 1);
      if k.Empty? { CountAllEmpty(Blank(), |Blank()|); }
    }
  }

  /** So there is at most one new table for each level. */
  lemma {:induction false} LeftoverCount(v: seq<Tree>, w: seq<Tree>, l: nat)
    requires Leftover(v, w, l)
    ensures CountTo(v, |v|) <= CountTo(w, |w|) <= CountTo(v, |v|) + l
    decreases l, 1
  {
    if w != v {
      var i :| 0 <= i < |v| && w == v[i := w[i]] && LeftoverKid(v[i], w[i], l);
      LeftoverKidCount(v[i], w[i], l);
      CountUpdate(v, i, w[i], |v|);
    }
  }
}
