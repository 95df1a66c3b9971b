/** Pure model of the VMSAv8-64 translation tables walked by arch/arm64/mmu.c.

    A table entry spans `Block(level)` bytes, `level` counting up from the last
    level of the walk (pages) to the top.  All addresses below are relative to
    the entry or the table under discussion, as `vaddr_rel` is in the source.
 */
module PageTableSpec {
  import opened Wrappers
  import opened Multiples

  /** PAGE_SIZE_SHIFT: 4K, 16K or 64K pages. */
  type PageShift = s: nat | s == 12 || s == 14 || s == 16 witness 12
  const PAGE_SHIFT: PageShift
  const BLOCK_MAX_SHIFT: nat := 30

  function Page(): (r: nat)
    ensures r > 1
  {
    Pow2(PAGE_SHIFT)
  }

  /** Number of 8-byte descriptors in a page-sized table. */
  function Entries(): (r: nat)
    ensures r > 1
  {
    Pow2(PAGE_SHIFT - 3)
  }

  function IndexShift(level: nat): nat {
    PAGE_SHIFT + level * (PAGE_SHIFT - 3)
  }

  /** `i * b`, sealed to keep the solver away from products: the start of entry `i` in a table of `b`-byte entries. */
  ghost function Times(i: nat, b: nat): nat {
    assert SealTimes(i * b, i, b);
    var r: nat :| SealTimes(r, i, b);
    r
  }

  ghost predicate SealTimes(r: nat, i: nat, b: nat) {
    forall u {:trigger Open(u)} :: Open(u) ==> r == i * b
  }

  lemma TimesIsProduct(i: nat, b: nat)
    ensures Times(i, b) == i * b
  {
    assert Open(0);
  }

  lemma TimesStep(i: nat, b: nat)
    ensures Times(0, b) == 0
    ensures Times(i + 1, b) == Times(i, b) + b
  {
    assert Open(0);
    assert (i + 1) * b == i * b + b;
  }

  lemma MulMono(i: nat, j: nat, b: nat)
    requires i <= j
    ensures Times(i, b) <= Times(j, b)
    ensures i < j ==> Times(i, b) + b <= Times(j, b)
  {
    assert Open(0);
    assert (j - i) * b >= 0;
    if i < j { assert (j - i - 1) * b >= 0; }
  }

  /** `1UL << index_shift`: the bytes spanned by one entry of a table at `level`. */
  function BlockSize(level: nat): (r: nat)
    ensures r > 0
  {
    Pow2(IndexShift(level))
  }

  ghost function Block(level: nat): (r: nat)
    ensures r > 0
  {
    assert SealBlock(BlockSize(level), level);
    var r: nat :| r > 0 && SealBlock(r, level);
    r
  }

  ghost predicate SealBlock(r: nat, level: nat) {
    forall u {:trigger Open(u)} :: Open(u) ==> r == BlockSize(level)
  }

  lemma BlockIs(level: nat)
    ensures Block(level) == BlockSize(level)
  {
    assert Open(0);
  }

  /** A table of `Entries()` entries spans one entry of the level above. */
  lemma BlockStep(level: nat)
    ensures Block(0) == Page()
    ensures Block(level + 1) == Times(Entries(), Block(level))
  {
    BlockIs(0);
    BlockIs(level);
    BlockIs(level + 1);
    assert IndexShift(level + 1) == (PAGE_SHIFT - 3) + IndexShift(level);
    Pow2Adds(PAGE_SHIFT - 3, IndexShift(level));
    TimesIsProduct(Entries(), Block(level));
  }

  datatype Tree =
    | Empty
    | Map(pa: nat, attrs: nat)
    | Table(kids: seq<Tree>)

  /** An entry of a table at level `l`: tables have exactly `Entries()` entries,
      hence span the entry, and never hang below the last level. */
  ghost predicate WF(k: Tree, l: nat)
    decreases k
  {
    k.Table? ==>
      && l > 0 && |k.kids| == Entries() && Block(l) == Times(|k.kids|, Block(l - 1))
      && forall i | 0 <= i < |k.kids| :: WF(k.kids[i], l - 1)
  }

  ghost predicate WFs(kids: seq<Tree>, l: nat) {
    forall i | 0 <= i < |kids| :: WF(kids[i], l)
  }

  ghost function Translate(k: Tree, l: nat, a: nat): Option<(nat, nat)>
    requires WF(k, l) && a < Block(l)
    decreases l, 0
  {
    match k
    case Empty => None
    case Map(pa, attrs) => Some((pa + a, attrs))
    case Table(kids) => Lookup(kids, l - 1, a)
  }

  /** The flat meaning of a table: virtual to (physical, attributes). */
  ghost function Lookup(kids: seq<Tree>, l: nat, a: nat): Option<(nat, nat)>
    requires WFs(kids, l) && a < Times(|kids|, Block(l))
    decreases l, 1
  {
    DivBound(a, Block(l), |kids|);
    Translate(kids[Index(a, Block(l))], l, a - Times(Index(a, Block(l)), Block(l)))
  }

  /** Which entry an address falls into; `vaddr_rel >> index_shift` in the source. */
  ghost function Index(a: nat, b: nat): (i: nat)
    requires b > 0
    ensures Times(i, b) <= a < Times(i, b) + b
  {
    TimesIsProduct(a / b, b);
    var i: nat :| Times(i, b) <= a < Times(i, b) + b;
    i
  }

  lemma IndexUnique(a: nat, b: nat, i: nat)
    requires b > 0 && Times(i, b) <= a < Times(i, b) + b
    ensures Index(a, b) == i
  {
    var j := Index(a, b);
    if j < i { MulMono(j, i, b); } else if i < j { MulMono(i, j, b); }
  }

  lemma DivBound(a: nat, b: nat, n: nat)
    requires b > 0 && a < Times(n, b)
    ensures Index(a, b) < n
  {
    if Index(a, b) >= n { MulMono(n, Index(a, b), b); }
  }

  /** The part of [lo, hi) that falls into the entry starting at `base`. */
  function Lo(lo: nat, base: nat): nat { if lo > base then lo - base else 0 }
  function Hi(hi: nat, base: nat, b: nat): nat {
    if hi <= base then 0 else if hi - base > b then b else hi - base
  }

  predicate AllEmpty(kids: seq<Tree>) {
    forall i | 0 <= i < |kids| :: kids[i].Empty?
  }

  // ------------------------------------------------------------- alignment

  lemma {:induction false} MultipleQuotient(x: nat, b: nat) returns (q: nat)
    requires b > 0 && Multiple(x, b)
    ensures x == Times(q, b)
  {
    if x < b {
      q := 0;
      TimesStep(0, b);
    } else {
      q := MultipleQuotient(x - b, b);
      TimesStep(q, b);
      q := q + 1;
    }
  }

  lemma {:induction false} MultipleMul(q: nat, b: nat)
    requires b > 0
    ensures Multiple(Times(q, b), b)
  {
    TimesStep(q, b);
    if q > 0 {
      MultipleMul(q - 1, b);
      TimesStep(q - 1, b);
    }
  }

  predicate Aligned(x: nat) { Multiple(x, Page()) }

  lemma {:induction false} BlockAligned(index: nat, level: nat)
    ensures Aligned(Times(index, Block(level)))
    decreases level, index
  {
    TimesStep(index, Block(level));
    if index > 0 {
      BlockAligned(index - 1, level);
      TimesStep(index - 1, Block(level));
      if level == 0 { BlockStep(0); } else { BlockStep(level - 1); BlockAligned(Entries(), level - 1); }
      MultipleAdd(Times(index - 1, Block(level)), Block(level), Page());
    }
  }

  lemma AlignedSplit(level: nat, index: nat, rem: nat, rel: nat, chunk: nat, size: nat, pa: nat)
    requires Times(index, Block(level)) + rem == rel && Aligned(rel) && Aligned(size) && Aligned(pa)
    requires chunk <= size && (chunk == size || rem + chunk == Block(level))
    ensures Aligned(rem) && Aligned(chunk)
    ensures Aligned(rel + chunk) && Aligned(size - chunk) && Aligned(pa + chunk)
  {
    BlockAligned(index, level);
    BlockAligned(1, level);
    TimesStep(0, Block(level));
    MultipleSub(rel, Times(index, Block(level)), Page());
    if chunk != size { MultipleSub(Block(level), rem, Page()); }
    MultipleAdd(rel, chunk, Page());
    MultipleSub(size, chunk, Page());
    MultipleAdd(pa, chunk, Page());
  }

  /** Aligned requests never need a table below the last level. */
  lemma NeedTableLevel(level: nat, rem: nat, chunk: nat, pa: nat)
    requires Aligned(rem) && Aligned(chunk) && Aligned(pa) && 0 < chunk && rem + chunk <= Block(level)
    requires NeedTable(level, rem, rem + chunk, pa)
    ensures level > 0
  {
    BlockStep(0);
  }

  // ------------------------------------------------------------------ unmap

  ghost function ClearKid(k: Tree, l: nat, lo: nat, hi: nat): Tree
    requires WF(k, l)
    decreases l, 0
  {
    if lo >= hi then k
    else if !k.Table? then Empty
    else
      var kids := Clear(k.kids, l - 1, lo, hi);
      if hi - lo == Block(l) || AllEmpty(kids) then Empty else Table(kids)
  }

  ghost function Clear(kids: seq<Tree>, l: nat, lo: nat, hi: nat): (r: seq<Tree>)
    requires WFs(kids, l)
    ensures |r| == |kids|
    decreases l, 1
  {
    seq(|kids|, i requires 0 <= i < |kids| =>
      ClearKid(kids[i], l, Lo(lo, Times(i, Block(l))), Hi(hi, Times(i, Block(l)), Block(l))))
  }

  lemma {:induction false} ClearKidWF(k: Tree, l: nat, lo: nat, hi: nat)
    requires WF(k, l)
    ensures WF(ClearKid(k, l, lo, hi), l)
    decreases l, 0
  {
    if lo < hi && k.Table? { ClearWF(k.kids, l - 1, lo, hi); }
  }

  lemma {:induction false} ClearWF(kids: seq<Tree>, l: nat, lo: nat, hi: nat)
    requires WFs(kids, l)
    ensures WFs(Clear(kids, l, lo, hi), l)
    decreases l, 1
  {
    forall i | 0 <= i < |kids| ensures WF(Clear(kids, l, lo, hi)[i], l) {
      ClearKidWF(kids[i], l, Lo(lo, Times(i, Block(l))), Hi(hi, Times(i, Block(l)), Block(l)));
    }
  }

  /** Does the leaf entry that translates `a` meet [lo, hi)? */
  ghost predicate LeafMeets(k: Tree, l: nat, a: nat, lo: nat, hi: nat)
    requires WF(k, l) && a < Block(l)
    decreases l, 0
  {
    match k
    case Empty => false
    case Map(_, _) => lo < hi && lo < Block(l)
    case Table(kids) => LeafMeetsAt(kids, l - 1, a, lo, hi)
  }

  ghost predicate LeafMeetsAt(kids: seq<Tree>, l: nat, a: nat, lo: nat, hi: nat)
    requires WFs(kids, l) && a < Times(|kids|, Block(l))
    decreases l, 1
  {
    DivBound(a, Block(l), |kids|);
    var i := Index(a, Block(l));
    LeafMeets(kids[i], l, a - Times(i, Block(l)), Lo(lo, Times(i, Block(l))), Hi(hi, Times(i, Block(l)), Block(l)))
  }

  /** Unmapping in full generality: an address loses its translation exactly when
      the leaf entry that translates it meets the range. */
  lemma {:induction false} ClearKidTranslate(k: Tree, l: nat, lo: nat, hi: nat, a: nat)
    requires WF(k, l) && a < Block(l) && hi <= Block(l)
    ensures WF(ClearKid(k, l, lo, hi), l)
    ensures Translate(ClearKid(k, l, lo, hi), l, a)
            == if LeafMeets(k, l, a, lo, hi) then None else Translate(k, l, a)
    decreases l, 0
  {
    ClearKidWF(k, l, lo, hi);
    if lo >= hi {
      if k.Table? { NoMeet(k.kids, l - 1, a, lo, hi); }
    } else if k.Table? {
      ClearTranslate(k.kids, l - 1, lo, hi, a);
      if hi - lo == Block(l) { FullClearEmpty(k.kids, l - 1, hi); }
      AllEmptyLookup(Clear(k.kids, l - 1, lo, hi), l - 1, a);
    }
  }

  lemma AllEmptyLookup(kids: seq<Tree>, l: nat, a: nat)
    requires a < Times(|kids|, Block(l))
    ensures AllEmpty(kids) ==> WFs(kids, l) && Lookup(kids, l, a).None?
  {
    DivBound(a, Block(l), |kids|);
  }

  lemma {:induction false} NoMeet(kids: seq<Tree>, l: nat, a: nat, lo: nat, hi: nat)
    requires WFs(kids, l) && a < Times(|kids|, Block(l)) && lo >= hi
    ensures !LeafMeetsAt(kids, l, a, lo, hi)
    decreases l
  {
    DivBound(a, Block(l), |kids|);
    var i := Index(a, Block(l));
    if kids[i].Table? {
      NoMeet(kids[i].kids, l - 1, a - Times(i, Block(l)), Lo(lo, Times(i, Block(l))), Hi(hi, Times(i, Block(l)), Block(l)));
    }
  }

  lemma {:induction false} ClearTranslate(kids: seq<Tree>, l: nat, lo: nat, hi: nat, a: nat)
    requires WFs(kids, l) && a < Times(|kids|, Block(l))
    ensures WFs(Clear(kids, l, lo, hi), l)
    ensures Lookup(Clear(kids, l, lo, hi), l, a)
            == if LeafMeetsAt(kids, l, a, lo, hi) then None else Lookup(kids, l, a)
    decreases l, 1
  {
    ClearWF(kids, l, lo, hi);
    var b := Block(l);
    DivBound(a, b, |kids|);
    var i := Index(a, b);
    assert Clear(kids, l, lo, hi)[i] == ClearKid(kids[i], l, Lo(lo, Times(i, b)), Hi(hi, Times(i, b), b));
    ClearKidTranslate(kids[i], l, Lo(lo, Times(i, b)), Hi(hi, Times(i, b), b), a - Times(i, b));
  }

  /** Clearing a whole table empties every entry, whatever the boundaries below:
      the shortcut on `chunk_size == block_size` frees only clear tables. */
  lemma {:induction false} FullClearEmpty(kids: seq<Tree>, l: nat, hi: nat)
    requires WFs(kids, l) && hi >= Times(|kids|, Block(l))
    ensures AllEmpty(Clear(kids, l, 0, hi))
    decreases l
  {
    forall i | 0 <= i < |kids| ensures Clear(kids, l, 0, hi)[i].Empty? {
      MulMono(i, |kids|, Block(l));
    }
  }

  /** No leaf entry straddles a boundary of the range. */
  ghost predicate NoSplitKid(k: Tree, l: nat, lo: nat, hi: nat)
    requires WF(k, l)
    decreases l, 0
  {
    match k
    case Empty => true
    case Map(_, _) => lo < hi ==> lo == 0 && hi == Block(l)
    case Table(kids) => NoSplit(kids, l - 1, lo, hi)
  }

  ghost predicate NoSplit(kids: seq<Tree>, l: nat, lo: nat, hi: nat)
    requires WFs(kids, l)
    decreases l, 1
  {
    forall i | 0 <= i < |kids| ::
      NoSplitKid(kids[i], l, Lo(lo, Times(i, Block(l))), Hi(hi, Times(i, Block(l)), Block(l)))
  }

  ghost predicate InRange(lo: nat, hi: nat, a: nat) { lo <= a < hi }

  lemma ClipIn(lo: nat, hi: nat, base: nat, b: nat, r: nat)
    requires r < b
    ensures InRange(lo, hi, base + r) <==> InRange(Lo(lo, base), Hi(hi, base, b), r)
  {
  }

  lemma {:induction false} NoSplitMeets(k: Tree, l: nat, lo: nat, hi: nat, a: nat)
    requires WF(k, l) && a < Block(l) && hi <= Block(l) && NoSplitKid(k, l, lo, hi)
    ensures LeafMeets(k, l, a, lo, hi) <==> InRange(lo, hi, a) && Translate(k, l, a).Some?
    decreases l, 0
  {
    if k.Table? { NoSplitMeetsAt(k.kids, l - 1, lo, hi, a); }
  }

  lemma {:induction false} NoSplitMeetsAt(kids: seq<Tree>, l: nat, lo: nat, hi: nat, a: nat)
    requires WFs(kids, l) && a < Times(|kids|, Block(l)) && NoSplit(kids, l, lo, hi)
    ensures LeafMeetsAt(kids, l, a, lo, hi) <==> InRange(lo, hi, a) && Lookup(kids, l, a).Some?
    decreases l, 1
  {
    var b := Block(l);
    DivBound(a, b, |kids|);
    var i := Index(a, b);
    var base := Times(i, b);
    var lo', hi' := Lo(lo, base), Hi(hi, base, b);
    assert NoSplitKid(kids[i], l, lo', hi') && hi' <= b;
    NoSplitMeets(kids[i], l, lo', hi', a - base);
    ClipIn(lo, hi, base, b, a - base);
  }

  lemma DivUnique(i: nat, b: nat, r: nat, n: nat)
    requires r < b && i < n
    ensures Times(i, b) + r < Times(n, b) && Index(Times(i, b) + r, b) == i
  {
    MulMono(i, n, b);
    IndexUnique(Times(i, b) + r, b, i);
  }

  lemma {:induction false} SplitWitness(kids: seq<Tree>, l: nat, lo: nat, hi: nat) returns (a: nat)
    requires WFs(kids, l) && !NoSplit(kids, l, lo, hi)
    ensures a < Times(|kids|, Block(l)) && !InRange(lo, hi, a)
    ensures Lookup(kids, l, a).Some? && LeafMeetsAt(kids, l, a, lo, hi)
    decreases l
  {
    var b := Block(l);
    var i :| 0 <= i < |kids| && !NoSplitKid(kids[i], l, Lo(lo, Times(i, b)), Hi(hi, Times(i, b), b));
    var lo', hi' := Lo(lo, Times(i, b)), Hi(hi, Times(i, b), b);
    var r: nat;
    if kids[i].Table? {
      r := SplitWitness(kids[i].kids, l - 1, lo', hi');
    } else {
      r := if lo' > 0 then 0 else b - 1;
    }
    DivUnique(i, b, r, |kids|);
    a := Times(i, b) + r;
  }

  /** Unmapping is exact precisely when the range splits no block. */
  lemma {:induction false} UnmapExactIffNoSplit(kids: seq<Tree>, l: nat, lo: nat, hi: nat)
    requires WFs(kids, l)
    ensures WFs(Clear(kids, l, lo, hi), l)
    ensures NoSplit(kids, l, lo, hi) <==>
            forall a: nat | a < Times(|kids|, Block(l)) ::
              Lookup(Clear(kids, l, lo, hi), l, a)
              == if InRange(lo, hi, a) then None else Lookup(kids, l, a)
  {
    ClearWF(kids, l, lo, hi);
    if NoSplit(kids, l, lo, hi) {
      forall a: nat | a < Times(|kids|, Block(l))
        ensures Lookup(Clear(kids, l, lo, hi), l, a)
                == if InRange(lo, hi, a) then None else Lookup(kids, l, a)
      {
        ClearTranslate(kids, l, lo, hi, a);
        NoSplitMeetsAt(kids, l, lo, hi, a);
      }
    } else {
      var a := SplitWitness(kids, l, lo, hi);
      ClearTranslate(kids, l, lo, hi, a);
    }
  }

  /** One block is mapped, and unmapping its first page takes the second away too. */
  lemma SplitExample()
    ensures exists kids: seq<Tree> ::
              && WFs(kids, 1) && Page() < Times(|kids|, Block(1)) && WFs(Clear(kids, 1, 0, Page()), 1)
              && Lookup(kids, 1, Page()).Some? && Lookup(Clear(kids, 1, 0, Page()), 1, Page()).None?
  {
    var kids := [Map(0, 0)];
    BlockStep(0);
    TimesStep(0, Block(0));
    MulMono(2, Entries(), Block(0));
    TimesStep(1, Block(0));
    TimesStep(0, Block(1));
    assert Page() < Block(1);
    IndexUnique(Page(), Block(1), 0);
    ClearWF(kids, 1, 0, Page());
    ClearTranslate(kids, 1, 0, Page(), Page());
  }

  // ----------------------------------------------------------- table counts

  /** Tables allocated at and below an entry. */
  function Count(k: Tree): nat {
    if k.Table? then 1 + CountTo(k.kids, |k.kids|) else 0
  }

  function CountTo(kids: seq<Tree>, n: nat): nat
    requires n <= |kids|
  {
    if n == 0 then 0 else CountTo(kids, n - 1) + Count(kids[n - 1])
  }

  lemma {:induction false} CountFrame(kids: seq<Tree>, kids': seq<Tree>, n: nat)
    requires n <= |kids| && n <= |kids'| && kids[..n] == kids'[..n]
    ensures CountTo(kids, n) == CountTo(kids', n)
  {
    if n > 0 {
      assert kids[n - 1] == kids[..n][n - 1] == kids'[n - 1];
      assert kids[..n - 1] == kids[..n][..n - 1] == kids'[..n - 1];
      CountFrame(kids, kids', n - 1);
    }
  }

  lemma {:induction false} CountUpdate(kids: seq<Tree>, i: nat, k: Tree, n: nat)
    requires i < |kids| && n <= |kids|
    ensures CountTo(kids[i := k], n) == CountTo(kids, n) + if i < n then Count(k) - Count(kids[i]) else 0
  {
    if n > 0 { CountUpdate(kids, i, k, n - 1); }
  }

  lemma {:induction false} CountAllEmpty(kids: seq<Tree>, n: nat)
    requires n <= |kids| && forall i | 0 <= i < n :: Count(kids[i]) == 0
    ensures CountTo(kids, n) == 0
  {
    if n > 0 { CountAllEmpty(kids, n - 1); }
  }

  lemma {:induction false} CountPointwise(kids: seq<Tree>, kids': seq<Tree>, n: nat)
    requires n <= |kids| && n <= |kids'| && forall i | 0 <= i < n :: Count(kids[i]) <= Count(kids'[i])
    ensures CountTo(kids, n) <= CountTo(kids', n)
  {
    if n > 0 { CountPointwise(kids, kids', n - 1); }
  }

  /** Unmapping the whole space leaves no table below the top. */
  lemma UnmapAllFreesEverything(kids: seq<Tree>, l: nat)
    requires WFs(kids, l)
    ensures AllEmpty(Clear(kids, l, 0, Times(|kids|, Block(l))))
    ensures CountTo(Clear(kids, l, 0, Times(|kids|, Block(l))), |kids|) == 0
  {
    FullClearEmpty(kids, l, Times(|kids|, Block(l)));
    CountAllEmpty(Clear(kids, l, 0, Times(|kids|, Block(l))), |kids|);
  }

  // -------------------------------------------------------------------- map

  function Blank(): (r: seq<Tree>)
    ensures |r| == Entries() && AllEmpty(r)
  {
    seq(Entries(), _ => Empty)
  }

  /** The entries reached through an entry, a fresh table if it is invalid. */
  function KidsOf(k: Tree): seq<Tree> {
    if k.Table? then k.kids else Blank()
  }

  /** The source descends instead of writing a block here. */
  ghost predicate NeedTable(l: nat, lo: nat, hi: nat, pa: nat) {
    lo != 0 || hi != Block(l) || !Multiple(pa, Block(l)) || IndexShift(l) > BLOCK_MAX_SHIFT
  }

  ghost predicate FillOkKid(k: Tree, l: nat, lo: nat, hi: nat, pa: nat)
    requires WF(k, l)
    decreases l, 0, 0
  {
    lo < hi ==>
      if NeedTable(l, lo, hi, pa)
      then l > 0 && !k.Map? && FillOk(KidsOf(k), l - 1, lo, hi, pa)
      else k.Empty?
  }

  /** Every entry the walk would write is invalid and no block is in the way. */
  ghost predicate FillOk(kids: seq<Tree>, l: nat, lo: nat, hi: nat, pa: nat)
    requires WFs(kids, l)
    decreases l, 1
  {
    forall i: nat | i < |kids| :: FillOkAt(kids, l, lo, hi, pa, i)
  }

  ghost predicate FillOkAt(kids: seq<Tree>, l: nat, lo: nat, hi: nat, pa: nat, i: nat)
    requires WFs(kids, l) && i < |kids|
    decreases l, 0, 1
  {
    FillOkKid(kids[i], l, Lo(lo, Times(i, Block(l))), Hi(hi, Times(i, Block(l)), Block(l)),
              pa + Lo(Times(i, Block(l)), lo))
  }

  ghost function FillKid(k: Tree, l: nat, lo: nat, hi: nat, pa: nat, attrs: nat): Tree
    requires WF(k, l)
    decreases l, 0
  {
    if lo >= hi then k
    else if l > 0 && NeedTable(l, lo, hi, pa)
    then Table(Fill(KidsOf(k), l - 1, lo, hi, pa, attrs))
    else Map(pa, attrs)
  }

  ghost function Fill(kids: seq<Tree>, l: nat, lo: nat, hi: nat, pa: nat, attrs: nat): (r: seq<Tree>)
    requires WFs(kids, l)
    ensures |r| == |kids|
    decreases l, 1
  {
    seq(|kids|, i requires 0 <= i < |kids| =>
      FillKid(kids[i], l, Lo(lo, Times(i, Block(l))), Hi(hi, Times(i, Block(l)), Block(l)),
              pa + Lo(Times(i, Block(l)), lo), attrs))
  }

  lemma {:induction false} FillKidWF(k: Tree, l: nat, lo: nat, hi: nat, pa: nat, attrs: nat)
    requires WF(k, l)
    ensures WF(FillKid(k, l, lo, hi, pa, attrs), l)
    decreases l, 0
  {
    if lo < hi && l > 0 && NeedTable(l, lo, hi, pa) {
      BlockStep(l - 1);
      FillWF(KidsOf(k), l - 1, lo, hi, pa, attrs);
    }
  }

  lemma {:induction false} FillWF(kids: seq<Tree>, l: nat, lo: nat, hi: nat, pa: nat, attrs: nat)
    requires WFs(kids, l)
    ensures WFs(Fill(kids, l, lo, hi, pa, attrs), l)
    decreases l, 1
  {
    forall i | 0 <= i < |kids| ensures WF(Fill(kids, l, lo, hi, pa, attrs)[i], l) {
      FillKidWF(kids[i], l, Lo(lo, Times(i, Block(l))), Hi(hi, Times(i, Block(l)), Block(l)), pa + Lo(Times(i, Block(l)), lo), attrs);
    }
  }

  /** What a successful map means at one entry. */
  lemma {:induction false} FillKidTranslate(k: Tree, l: nat, lo: nat, hi: nat, pa: nat, attrs: nat, a: nat)
    requires WF(k, l) && a < Block(l) && hi <= Block(l) && FillOkKid(k, l, lo, hi, pa)
    ensures WF(FillKid(k, l, lo, hi, pa, attrs), l)
    ensures InRange(lo, hi, a) ==> Translate(k, l, a).None?
    ensures Translate(FillKid(k, l, lo, hi, pa, attrs), l, a)
            == if InRange(lo, hi, a) then Some((pa + (a - lo), attrs)) else Translate(k, l, a)
    decreases l, 0
  {
    FillKidWF(k, l, lo, hi, pa, attrs);
    if lo < hi && NeedTable(l, lo, hi, pa) {
      FillTranslate(KidsOf(k), l - 1, lo, hi, pa, attrs, a);
      AllEmptyLookup(Blank(), l - 1, a);
    }
  }

  /** A successful map changes the translation exactly on the requested range,
      which was untranslated before. */
  lemma {:induction false} FillTranslate(kids: seq<Tree>, l: nat, lo: nat, hi: nat, pa: nat, attrs: nat, a: nat)
    requires WFs(kids, l) && a < Times(|kids|, Block(l)) && FillOk(kids, l, lo, hi, pa)
    ensures WFs(Fill(kids, l, lo, hi, pa, attrs), l)
    ensures InRange(lo, hi, a) ==> Lookup(kids, l, a).None?
    ensures Lookup(Fill(kids, l, lo, hi, pa, attrs), l, a)
            == if InRange(lo, hi, a) then Some((pa + (a - lo), attrs)) else Lookup(kids, l, a)
    decreases l, 1
  {
    FillWF(kids, l, lo, hi, pa, attrs);
    var b := Block(l);
    DivBound(a, b, |kids|);
    var i := Index(a, b);
    assert FillOkAt(kids, l, lo, hi, pa, i);
    FillKidTranslate(kids[i], l, Lo(lo, Times(i, b)), Hi(hi, Times(i, b), b), pa + Lo(Times(i, b), lo), attrs, a - Times(i, b));
  }

  /** A range that has just been mapped splits no block. */
  lemma {:induction false} FillKidNoSplit(k: Tree, l: nat, lo: nat, hi: nat, pa: nat, attrs: nat)
    requires WF(k, l) && hi <= Block(l) && FillOkKid(k, l, lo, hi, pa)
    ensures WF(FillKid(k, l, lo, hi, pa, attrs), l)
    ensures NoSplitKid(FillKid(k, l, lo, hi, pa, attrs), l, lo, hi)
    decreases l, 0
  {
    FillKidWF(k, l, lo, hi, pa, attrs);
    if lo >= hi {
      NoSplitNone(k, l, lo, hi);
    } else if NeedTable(l, lo, hi, pa) {
      FillNoSplit(KidsOf(k), l - 1, lo, hi, pa, attrs);
    }
  }

  lemma {:induction false} NoSplitNone(k: Tree, l: nat, lo: nat, hi: nat)
    requires WF(k, l) && lo >= hi
    ensures NoSplitKid(k, l, lo, hi)
    decreases l
  {
    if k.Table? {
      forall i | 0 <= i < |k.kids|
        ensures NoSplitKid(k.kids[i], l - 1, Lo(lo, Times(i, Block(l - 1))), Hi(hi, Times(i, Block(l - 1)), Block(l - 1)))
      {
        NoSplitNone(k.kids[i], l - 1, Lo(lo, Times(i, Block(l - 1))), Hi(hi, Times(i, Block(l - 1)), Block(l - 1)));
      }
    }
  }

  lemma {:induction false} FillNoSplit(kids: seq<Tree>, l: nat, lo: nat, hi: nat, pa: nat, attrs: nat)
    requires WFs(kids, l) && FillOk(kids, l, lo, hi, pa)
    ensures WFs(Fill(kids, l, lo, hi, pa, attrs), l)
    ensures NoSplit(Fill(kids, l, lo, hi, pa, attrs), l, lo, hi)
    decreases l, 1
  {
    FillWF(kids, l, lo, hi, pa, attrs);
    var b := Block(l);
    var kids' := Fill(kids, l, lo, hi, pa, attrs);
    forall i | 0 <= i < |kids| ensures NoSplitKid(kids'[i], l, Lo(lo, Times(i, b)), Hi(hi, Times(i, b), b)) {
      assert FillOkAt(kids, l, lo, hi, pa, i);
    FillKidNoSplit(kids[i], l, Lo(lo, Times(i, b)), Hi(hi, Times(i, b), b), pa + Lo(Times(i, b), lo), attrs);
    }
  }

  /** Two tables with the same flat meaning. */
  ghost predicate SameMeaning(kids: seq<Tree>, kids': seq<Tree>, l: nat) {
    && |kids| == |kids'| && WFs(kids, l) && WFs(kids', l)
    && forall a: nat | a < Times(|kids|, Block(l)) :: Lookup(kids, l, a) == Lookup(kids', l, a)
  }

  /** Rollback: unmapping what was just mapped restores every translation. */
  lemma {:induction false} ClearUndoesFill(kids: seq<Tree>, l: nat, lo: nat, hi: nat, pa: nat, attrs: nat)
    requires WFs(kids, l) && FillOk(kids, l, lo, hi, pa)
    ensures WFs(Fill(kids, l, lo, hi, pa, attrs), l)
    ensures SameMeaning(kids, Clear(Fill(kids, l, lo, hi, pa, attrs), l, lo, hi), l)
  {
    var kids' := Fill(kids, l, lo, hi, pa, attrs);
    FillNoSplit(kids, l, lo, hi, pa, attrs);
    ClearWF(kids', l, lo, hi);
    forall a: nat | a < Times(|kids|, Block(l))
      ensures Lookup(kids, l, a) == Lookup(Clear(kids', l, lo, hi), l, a)
    {
      FillTranslate(kids, l, lo, hi, pa, attrs, a);
      ClearTranslate(kids', l, lo, hi, a);
      NoSplitMeetsAt(kids', l, lo, hi, a);
    }
  }

  // ------------------------------------------- walking a range entry by entry

  /** One turn of the map and unmap loops: `idx` is the entry under `rel`, and
      the turn extends the processed range from [lo, rel) to [lo, rel + chunk). */
  ghost predicate Turn(lo: nat, rel: nat, chunk: nat, b: nat, idx: nat) {
    && Times(idx, b) <= rel && 0 < chunk && rel + chunk <= Times(idx, b) + b
    && lo <= rel && (rel == lo || rel == Times(idx, b))
  }

  lemma ClipOther(lo: nat, rel: nat, chunk: nat, b: nat, idx: nat, i: nat)
    requires Turn(lo, rel, chunk, b, idx) && i != idx
    ensures var (lo', hi, hi') := (Lo(lo, Times(i, b)), Hi(rel, Times(i, b), b), Hi(rel + chunk, Times(i, b), b));
            hi == hi' || (lo' >= hi && lo' >= hi')
  {
    if i < idx { MulMono(i, idx, b); } else { MulMono(idx, i, b); }
  }

  lemma ClipHere(lo: nat, rel: nat, chunk: nat, b: nat, idx: nat)
    requires Turn(lo, rel, chunk, b, idx)
    ensures Lo(lo, Times(idx, b)) >= Hi(rel, Times(idx, b), b)
    ensures Lo(lo, Times(idx, b)) == rel - Times(idx, b)
    ensures Hi(rel + chunk, Times(idx, b), b) == rel - Times(idx, b) + chunk
    ensures Lo(Times(idx, b), lo) == rel - lo
  {
  }

  lemma ClearNothing(kids: seq<Tree>, l: nat, lo: nat)
    requires WFs(kids, l)
    ensures Clear(kids, l, lo, lo) == kids
  {
  }

  lemma ClearTurn(kids: seq<Tree>, l: nat, lo: nat, rel: nat, chunk: nat, idx: nat)
    requires WFs(kids, l) && idx < |kids| && Turn(lo, rel, chunk, Block(l), idx)
    ensures Clear(kids, l, lo, rel)[idx] == kids[idx]
    ensures var rem := rel - Times(idx, Block(l));
            Clear(kids, l, lo, rel + chunk)
            == Clear(kids, l, lo, rel)[idx := ClearKid(kids[idx], l, rem, rem + chunk)]
  {
    var b := Block(l);
    ClipHere(lo, rel, chunk, b, idx);
    var rem := rel - Times(idx, b);
    var before := Clear(kids, l, lo, rel);
    var after := Clear(kids, l, lo, rel + chunk);
    forall i | 0 <= i < |kids|
      ensures after[i] == before[idx := ClearKid(kids[idx], l, rem, rem + chunk)][i]
    {
      if i != idx { ClipOther(lo, rel, chunk, b, idx, i); }
    }
  }

  lemma FillNothing(kids: seq<Tree>, l: nat, lo: nat, pa: nat, attrs: nat)
    requires WFs(kids, l)
    ensures Fill(kids, l, lo, lo, pa, attrs) == kids && FillOk(kids, l, lo, lo, pa)
  {
  }

  lemma FillTurn(kids: seq<Tree>, l: nat, lo: nat, rel: nat, chunk: nat, idx: nat, pa: nat, attrs: nat)
    requires WFs(kids, l) && idx < |kids| && Turn(lo, rel, chunk, Block(l), idx)
    ensures Fill(kids, l, lo, rel, pa, attrs)[idx] == kids[idx]
    ensures var rem := rel - Times(idx, Block(l));
            Fill(kids, l, lo, rel + chunk, pa, attrs)
            == Fill(kids, l, lo, rel, pa, attrs)
               [idx := FillKid(kids[idx], l, rem, rem + chunk, pa + (rel - lo), attrs)]
  {
    var b := Block(l);
    ClipHere(lo, rel, chunk, b, idx);
    var rem := rel - Times(idx, b);
    var before := Fill(kids, l, lo, rel, pa, attrs);
    var after := Fill(kids, l, lo, rel + chunk, pa, attrs);
    forall i | 0 <= i < |kids|
      ensures after[i] == before[idx := FillKid(kids[idx], l, rem, rem + chunk, pa + (rel - lo), attrs)][i]
    {
      if i != idx { ClipOther(lo, rel, chunk, b, idx, i); }
    }
  }

  lemma FillOkTurn(kids: seq<Tree>, l: nat, lo: nat, rel: nat, chunk: nat, idx: nat, pa: nat)
    requires WFs(kids, l) && idx < |kids| && Turn(lo, rel, chunk, Block(l), idx)
    ensures var rem := rel - Times(idx, Block(l));
            FillOk(kids, l, lo, rel + chunk, pa)
            <==> FillOk(kids, l, lo, rel, pa) && FillOkKid(kids[idx], l, rem, rem + chunk, pa + (rel - lo))
  {
    var rem, end := rel - Times(idx, Block(l)), rel + chunk;
    ClipHere(lo, rel, chunk, Block(l), idx);
    assert FillOkAt(kids, l, lo, rel, pa, idx);
    assert FillOkAt(kids, l, lo, end, pa, idx) == FillOkKid(kids[idx], l, rem, rem + chunk, pa + (rel - lo));
    if FillOk(kids, l, lo, end, pa) {
      forall i: nat | i < |kids| ensures FillOkAt(kids, l, lo, rel, pa, i) {
        assert FillOkAt(kids, l, lo, end, pa, i);
        if i != idx { ClipOther(lo, rel, chunk, Block(l), idx, i); }
      }
    }
    if FillOk(kids, l, lo, rel, pa) && FillOkAt(kids, l, lo, end, pa, idx) {
      forall i: nat | i < |kids| ensures FillOkAt(kids, l, lo, end, pa, i) {
        assert FillOkAt(kids, l, lo, rel, pa, i);
        if i != idx { ClipOther(lo, rel, chunk, Block(l), idx, i); }
      }
    }
  }

  /** `mid` is where the walk over [lo, hi) may stand between two entries. */
  ghost predicate Between(lo: nat, mid: nat, hi: nat, b: nat)
    requires b > 0
  {
    lo <= mid <= hi && (mid == lo || mid == hi || Multiple(mid, b))
  }

  lemma ClipPrefix(lo: nat, mid: nat, hi: nat, b: nat, i: nat)
    requires b > 0 && Between(lo, mid, hi, b)
    ensures var (lo', m, h) := (Lo(lo, Times(i, b)), Hi(mid, Times(i, b), b), Hi(hi, Times(i, b), b));
            m == h || lo' >= m
  {
    if mid != hi && mid != lo {
      var j := MultipleQuotient(mid, b);
      if i < j { MulMono(i, j, b); } else { MulMono(j, i, b); }
    }
  }

  lemma FillOkPrefix(kids: seq<Tree>, l: nat, lo: nat, mid: nat, hi: nat, pa: nat)
    requires WFs(kids, l) && Between(lo, mid, hi, Block(l)) && FillOk(kids, l, lo, hi, pa)
    ensures FillOk(kids, l, lo, mid, pa)
  {
    forall i: nat | i < |kids| ensures FillOkAt(kids, l, lo, mid, pa, i) {
      assert FillOkAt(kids, l, lo, hi, pa, i);
      ClipPrefix(lo, mid, hi, Block(l), i);
    }
  }

  // ------------------------------------------------ tables needed by a mapping

  lemma {:induction false} FillKidGrows(k: Tree, l: nat, lo: nat, hi: nat, pa: nat, attrs: nat)
    requires WF(k, l) && FillOkKid(k, l, lo, hi, pa)
    ensures Count(k) <= Count(FillKid(k, l, lo, hi, pa, attrs))
    decreases l, 0
  {
    if lo < hi && NeedTable(l, lo, hi, pa) {
      FillGrows(KidsOf(k), l - 1, lo, hi, pa, attrs);
    }
  }

  lemma {:induction false} FillGrows(kids: seq<Tree>, l: nat, lo: nat, hi: nat, pa: nat, attrs: nat)
    requires WFs(kids, l) && FillOk(kids, l, lo, hi, pa)
    ensures CountTo(kids, |kids|) <= CountTo(Fill(kids, l, lo, hi, pa, attrs), |kids|)
    decreases l, 1
  {
    var b, kids' := Block(l), Fill(kids, l, lo, hi, pa, attrs);
    forall i | 0 <= i < |kids| ensures Count(kids[i]) <= Count(kids'[i]) {
      assert FillOkAt(kids, l, lo, hi, pa, i);
    FillKidGrows(kids[i], l, Lo(lo, Times(i, b)), Hi(hi, Times(i, b), b), pa + Lo(Times(i, b), lo), attrs);
    }
    CountPointwise(kids, kids', |kids|);
  }

  lemma FillPrefixAt(kids: seq<Tree>, l: nat, lo: nat, mid: nat, hi: nat, pa: nat, attrs: nat, i: nat)
    requires WFs(kids, l) && Between(lo, mid, hi, Block(l)) && i < |kids|
    ensures Fill(kids, l, lo, mid, pa, attrs)[i] in {kids[i], Fill(kids, l, lo, hi, pa, attrs)[i]}
  {
    ClipPrefix(lo, mid, hi, Block(l), i);
  }

  lemma FillPrefixGrows(kids: seq<Tree>, l: nat, lo: nat, mid: nat, hi: nat, pa: nat, attrs: nat)
    requires WFs(kids, l) && FillOk(kids, l, lo, hi, pa) && Between(lo, mid, hi, Block(l))
    ensures CountTo(Fill(kids, l, lo, mid, pa, attrs), |kids|) <= CountTo(Fill(kids, l, lo, hi, pa, attrs), |kids|)
  {
    var b := Block(l);
    var part, full := Fill(kids, l, lo, mid, pa, attrs), Fill(kids, l, lo, hi, pa, attrs);
    forall i | 0 <= i < |kids| ensures Count(part[i]) <= Count(full[i]) {
      FillPrefixAt(kids, l, lo, mid, hi, pa, attrs, i);
      assert FillOkAt(kids, l, lo, hi, pa, i);
    FillKidGrows(kids[i], l, Lo(lo, Times(i, b)), Hi(hi, Times(i, b), b), pa + Lo(Times(i, b), lo), attrs);
    }
    CountPointwise(part, full, |kids|);
  }

  // ------------------------------------------------------------ rollback

  ghost predicate SameKid(k: Tree, k': Tree, l: nat) {
    && WF(k, l) && WF(k', l)
    && forall a: nat | a < Block(l) :: Translate(k, l, a) == Translate(k', l, a)
  }

  lemma MeaningUpdate(kids: seq<Tree>, l: nat, i: nat, k: Tree)
    requires WFs(kids, l) && i < |kids| && SameKid(kids[i], k, l)
    ensures SameMeaning(kids, kids[i := k], l)
  {
    var kids' := kids[i := k];
    forall a: nat | a < Times(|kids|, Block(l)) ensures Lookup(kids, l, a) == Lookup(kids', l, a) {
      DivBound(a, Block(l), |kids|);
      assert Lookup(kids, l, a) == Translate(kids[Index(a, Block(l))], l, a - Times(Index(a, Block(l)), Block(l)));
    }
  }

  lemma SameKidTables(kids: seq<Tree>, kids': seq<Tree>, l: nat)
    requires l > 0 && |kids| == Entries() && SameMeaning(kids, kids', l - 1)
    ensures SameKid(Table(kids), Table(kids'), l)
    ensures AllEmpty(kids) ==> SameKid(Empty, Table(kids'), l)
  {
    BlockStep(l - 1);
    forall a: nat | a < Block(l)
      ensures Translate(Table(kids), l, a) == Translate(Table(kids'), l, a)
      ensures AllEmpty(kids) ==> Translate(Table(kids'), l, a).None?
    {
      AllEmptyLookup(kids, l - 1, a);
    }
  }

  lemma ClearFrame(kids: seq<Tree>, l: nat, lo: nat, hi: nat, idx: nat, k: Tree)
    requires WFs(kids, l) && idx < |kids| && WF(k, l)
    requires Lo(lo, Times(idx, Block(l))) >= Hi(hi, Times(idx, Block(l)), Block(l))
    ensures Clear(kids, l, lo, hi)[idx] == kids[idx]
    ensures Clear(kids[idx := k], l, lo, hi) == Clear(kids, l, lo, hi)[idx := k]
  {
    var cleared, mapped := Clear(kids, l, lo, hi), kids[idx := k];
    forall i | 0 <= i < |kids| ensures Clear(mapped, l, lo, hi)[i] == cleared[idx := k][i] {
      if i != idx { assert mapped[i] == kids[i]; }
    }
  }

  /** The error path: entry `idx` was left with its old meaning, [lo, rel) had
      been mapped and is unmapped again. */
  lemma RollbackMeaning(kids: seq<Tree>, l: nat, lo: nat, rel: nat, chunk: nat, idx: nat,
                        pa: nat, attrs: nat, mapped: seq<Tree>)
    requires WFs(kids, l) && idx < |kids| && Turn(lo, rel, chunk, Block(l), idx)
    requires |mapped| == |kids| && FillOk(kids, l, lo, rel, pa) && SameKid(kids[idx], mapped[idx], l)
    requires mapped == Fill(kids, l, lo, rel, pa, attrs)[idx := mapped[idx]]
    ensures WFs(mapped, l) && SameMeaning(kids, Clear(mapped, l, lo, rel), l)
  {
    var b := Block(l);
    FillWF(kids, l, lo, rel, pa, attrs);
    var filled := Fill(kids, l, lo, rel, pa, attrs);
    var k := mapped[idx];
    FillTurn(kids, l, lo, rel, chunk, idx, pa, attrs);
    ClipHere(lo, rel, chunk, b, idx);
    ClearUndoesFill(kids, l, lo, rel, pa, attrs);
    var cleared := Clear(filled, l, lo, rel);
    ClearFrame(filled, l, lo, rel, idx, k);
    MeaningUpdate(cleared, l, idx, k);
  }

  /** Descending through an entry, in terms of the table below it. */
  lemma FillBelow(k: Tree, l: nat, lo: nat, hi: nat, pa: nat, attrs: nat)
    requires WF(k, l) && l > 0 && lo < hi && !k.Map? && NeedTable(l, lo, hi, pa)
    ensures |KidsOf(k)| == Entries() && WFs(KidsOf(k), l - 1)
    ensures FillOkKid(k, l, lo, hi, pa) <==> FillOk(KidsOf(k), l - 1, lo, hi, pa)
    ensures FillKid(k, l, lo, hi, pa, attrs) == Table(Fill(KidsOf(k), l - 1, lo, hi, pa, attrs))
    ensures Count(FillKid(k, l, lo, hi, pa, attrs))
            == 1 + CountTo(Fill(KidsOf(k), l - 1, lo, hi, pa, attrs), Entries())
    ensures Count(k) == CountTo(KidsOf(k), Entries()) + if k.Empty? then 0 else 1
    ensures k.Empty? ==> AllEmpty(KidsOf(k))
  {
    if k.Empty? { CountAllEmpty(Blank(), Entries()); }
  }
}
