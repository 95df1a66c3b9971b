/** kernel/vm/vmm.c, the calculations: regions in an address space, 64-bit wrap-around, and the
    gaps between regions. */
module VmmSpec {
  import opened Wrappers
  import opened Multiples
  import opened Pmm

  /** 2^64: addresses and sizes wrap here. */
  const WORD: nat := 0x1_0000_0000_0000_0000
  const PAGE_SIZE: nat := 4096
  /** (vaddr_t)-1 */
  const NO_SPOT: nat := WORD - 1

  datatype Region = Region(base: nat, size: nat, pages: seq<Page>)
  datatype Space = Space(base: nat, size: nat)

  function End(r: Region): nat { r.base + r.size }

  /** An address space may reach the very end of the address range. */
  predicate SpaceOk(s: Space) { 0 < s.size < WORD && s.base + s.size <= WORD }

  /** Sorted and disjoint, inside the address space. */
  ghost predicate RegionsOk(s: Space, rs: seq<Region>) {
    && (forall i | 0 <= i < |rs| :: 0 < rs[i].size && s.base <= rs[i].base && End(rs[i]) <= s.base + s.size)
    && (forall i, j | 0 <= i < j < |rs| :: End(rs[i]) <= rs[j].base)
  }

  ghost predicate Apart(r: Region, a: nat, size: nat) { End(r) <= a || a + size <= r.base }

  /** [a, a + size) lies in the space and meets no region. */
  ghost predicate Fits(s: Space, rs: seq<Region>, a: nat, size: nat) {
    s.base <= a && a + size <= s.base + s.size && forall i | 0 <= i < |rs| :: Apart(rs[i], a, size)
  }

  // ------------------------------------------------------------- wrap-around

  /** x modulo 2^64 */
  function Wrap(x: int): nat {
    if 0 <= x < WORD then x else if WORD <= x < 2 * WORD then x - WORD else x % WORD
  }

  /** is_inside_aspace */
  predicate IsInside(s: Space, v: nat) { v >= s.base && v <= Wrap(s.base + s.size - 1) }

  /** is_region_inside_aspace */
  predicate IsRegionInside(s: Space, v: nat, size: nat) {
    IsInside(s, v) && (size == 0 || (Wrap(v + size - 1) >= v && Wrap(v + size - 1) <= Wrap(s.base + s.size - 1)))
  }

  /** The wrapped comparisons mean what they should. */
  lemma RegionInsideIff(s: Space, v: nat, size: nat)
    requires SpaceOk(s) && v < WORD && 0 < size < WORD
    ensures IsRegionInside(s, v, size) <==> s.base <= v && v + size <= s.base + s.size
  {
  }

  /** ALIGN in 64 bits */
  function AlignUp(x: nat, align: nat): nat
    requires align > 0
  {
    RoundDown(Wrap(x + align - 1), align)
  }

  /** Aligning either gives the least aligned address not below, or wraps below because there is none. */
  lemma AlignUpIs(x: nat, align: nat)
    requires 0 < align < WORD && x < WORD && Multiple(WORD, align)
    ensures AlignUp(x, align) >= x ==> AlignUp(x, align) == RoundUp(x, align)
    ensures AlignUp(x, align) < x <==> RoundUp(x, align) >= WORD
  {
    RoundUpIs(x, align);
    if x + align - 1 >= WORD {
      assert Wrap(x + align - 1) < align && AlignUp(x, align) == 0;
      if RoundUp(x, align) < WORD { MultiplesApart(WORD, RoundUp(x, align), align); }
    }
  }

  // ------------------------------------------------------------- gaps

  /** The i-th gap lies before the i-th region. */
  function GapStart(s: Space, rs: seq<Region>, i: nat): nat
    requires i <= |rs|
  {
    if i == 0 then s.base else End(rs[i - 1])
  }

  function GapEnd(s: Space, rs: seq<Region>, i: nat): nat
    requires i <= |rs|
  {
    if i < |rs| then rs[i].base else s.base + s.size
  }

  /** What fits in a gap fits in the space. */
  lemma GapFits(s: Space, rs: seq<Region>, i: nat, a: nat, size: nat)
    requires RegionsOk(s, rs) && i <= |rs| && GapStart(s, rs, i) <= a && a + size <= GapEnd(s, rs, i)
    ensures Fits(s, rs, a, size)
  {
    forall j | 0 <= j < |rs| ensures Apart(rs[j], a, size) {
      if j < i - 1 { assert End(rs[j]) <= rs[i - 1].base; }
      if i < j { assert End(rs[i]) <= rs[j].base; }
    }
    if 0 < i < |rs| { assert End(rs[i - 1]) <= rs[i].base; }
  }

  /** No aligned address that fits lies before the i-th gap. */
  ghost predicate NoneBefore(s: Space, rs: seq<Region>, i: nat, size: nat, align: nat)
    requires i <= |rs| && align > 0
  {
    forall a: nat | Multiple(a, align) && Fits(s, rs, a, size) :: GapStart(s, rs, i) <= a
  }

  /** A gap too small for its first aligned address holds none that fits. */
  lemma GapTooSmall(s: Space, rs: seq<Region>, i: nat, size: nat, align: nat)
    requires RegionsOk(s, rs) && i <= |rs| && align > 0 && size > 0 && NoneBefore(s, rs, i, size, align)
    requires RoundUp(GapStart(s, rs, i), align) + size > GapEnd(s, rs, i)
    ensures if i < |rs| then NoneBefore(s, rs, i + 1, size, align)
            else forall a: nat | Multiple(a, align) :: !Fits(s, rs, a, size)
  {
    RoundUpIs(GapStart(s, rs, i), align);
    forall a: nat | Multiple(a, align) && Fits(s, rs, a, size) ensures i < |rs| && End(rs[i]) <= a {
      assert RoundUp(GapStart(s, rs, i), align) <= a;
      assert a + size > GapEnd(s, rs, i);
      if i < |rs| { assert Apart(rs[i], a, size); }
    }
  }

  /** With no aligned address left below 2^64 nothing fits from here on. */
  lemma NoAlignedLeft(s: Space, rs: seq<Region>, i: nat, size: nat, align: nat)
    requires SpaceOk(s) && i <= |rs| && align > 0 && size > 0 && NoneBefore(s, rs, i, size, align)
    requires RoundUp(GapStart(s, rs, i), align) >= WORD
    ensures forall a: nat | Multiple(a, align) :: !Fits(s, rs, a, size)
  {
    RoundUpIs(GapStart(s, rs, i), align);
  }

  ghost predicate Least(s: Space, rs: seq<Region>, a: nat, size: nat, align: nat)
    requires align > 0
  {
    && Multiple(a, align) && Fits(s, rs, a, size)
    && forall b: nat | Multiple(b, align) && Fits(s, rs, b, size) :: a <= b
  }

  lemma FirstInGap(s: Space, rs: seq<Region>, i: nat, size: nat, align: nat)
    requires RegionsOk(s, rs) && i <= |rs| && align > 0 && NoneBefore(s, rs, i, size, align)
    requires RoundUp(GapStart(s, rs, i), align) + size <= GapEnd(s, rs, i)
    ensures Least(s, rs, RoundUp(GapStart(s, rs, i), align), size, align)
  {
    RoundUpIs(GapStart(s, rs, i), align);
    GapFits(s, rs, i, RoundUp(GapStart(s, rs, i), align), size);
  }

  // ------------------------------------------------------------- the list

  lemma InsertKeeps(s: Space, rs: seq<Region>, i: nat, r: Region)
    requires RegionsOk(s, rs) && i <= |rs| && r.size > 0
    requires GapStart(s, rs, i) <= r.base && End(r) <= GapEnd(s, rs, i)
    ensures RegionsOk(s, InsertAt(rs, i, r))
  {
    var n := InsertAt(rs, i, r);
    GapFits(s, rs, i, r.base, r.size);
    forall j | 0 <= j < |n| ensures 0 < n[j].size && s.base <= n[j].base && End(n[j]) <= s.base + s.size {
      assert n[j] == if j < i then rs[j] else if j == i then r else rs[j - 1];
    }
    forall j, k | 0 <= j < k < |n| ensures End(n[j]) <= n[k].base { InsertPair(s, rs, i, r, j, k); }
  }

  lemma InsertPair(s: Space, rs: seq<Region>, i: nat, r: Region, j: nat, k: nat)
    requires RegionsOk(s, rs) && i <= |rs| && j < k <= |rs|
    requires GapStart(s, rs, i) <= r.base && End(r) <= GapEnd(s, rs, i)
    ensures End(InsertAt(rs, i, r)[j]) <= InsertAt(rs, i, r)[k].base
  {
    var n := InsertAt(rs, i, r);
    assert n[j] == if j < i then rs[j] else if j == i then r else rs[j - 1];
    assert n[k] == if k < i then rs[k] else if k == i then r else rs[k - 1];
    if k == i {
      EndsBefore(s, rs, j, i - 1);
    } else if j == i {
      EndsBefore(s, rs, i, k - 1);
    }
  }

  lemma EndsBefore(s: Space, rs: seq<Region>, j: nat, k: nat)
    requires RegionsOk(s, rs) && j <= k < |rs|
    ensures End(rs[j]) <= End(rs[k]) && rs[j].base <= rs[k].base
  {
  }

  // ------------------------------------------------------------- ownership

  /** How often each page is on the page list of a region. */
  ghost function Owned(rs: seq<Region>): multiset<Page> {
    if rs == [] then multiset{} else multiset(rs[0].pages) + Owned(rs[1..])
  }

  lemma {:induction false} OwnedInsert(rs: seq<Region>, i: nat, r: Region)
    requires i <= |rs|
    ensures Owned(InsertAt(rs, i, r)) == Owned(rs) + multiset(r.pages)
  {
    var n := InsertAt(rs, i, r);
    if i == 0 {
      assert n[1..] == rs;
    } else {
      assert n[0] == rs[0] && n[1..] == InsertAt(rs[1..], i - 1, r);
      OwnedInsert(rs[1..], i - 1, r);
    }
  }

  lemma {:induction false} OwnedUpdate(rs: seq<Region>, i: nat, p: Page)
    requires i < |rs|
    ensures Owned(rs[i := rs[i].(pages := rs[i].pages + [p])]) == Owned(rs) + multiset{p}
  {
    var n := rs[i := rs[i].(pages := rs[i].pages + [p])];
    if i == 0 {
      assert n[1..] == rs[1..];
    } else {
      assert n[0] == rs[0] && n[1..] == rs[1..][i - 1 := rs[1..][i - 1].(pages := rs[1..][i - 1].pages + [p])];
      OwnedUpdate(rs[1..], i - 1, p);
    }
  }

  lemma {:induction false} OwnedRemove(rs: seq<Region>, i: nat)
    requires i < |rs|
    ensures Owned(rs) == Owned(rs[..i] + rs[i + 1..]) + multiset(rs[i].pages)
  {
    var rest, t := rs[..i] + rs[i + 1..], rs[1..];
    if i == 0 {
      assert rest == t;
    } else {
      assert rest[0] == rs[0] && rest[1..] == t[..i - 1] + t[i..];
      OwnedRemove(t, i - 1);
    }
  }

  /** The pages handed out are exactly those marked, each handed out once. */
  ghost predicate Account(m: seq<Arena>, held: multiset<Page>) {
    forall p :: held[p] == if Taken(m, p) then 1 else 0
  }

  lemma {:induction false} CountOf(list: seq<Page>, p: Page)
    requires Distinct(list)
    ensures multiset(list)[p] == if p in list then 1 else 0
  {
    if list != [] {
      var t := list[1..];
      assert Distinct(t) && list == [list[0]] + t && list[0] !in t;
      CountOf(t, p);
    }
  }

  lemma {:induction false} OnceIsDistinct(list: seq<Page>)
    requires forall p :: multiset(list)[p] <= 1
    ensures Distinct(list)
  {
    if list != [] {
      var t := list[1..];
      assert list == [list[0]] + t;
      assert forall p :: multiset(t)[p] <= multiset(list)[p];
      OnceIsDistinct(t);
      assert multiset(list)[list[0]] == multiset(t)[list[0]] + 1;
      assert list[0] !in t;
    }
  }

  lemma AccountTake(m: seq<Arena>, held: multiset<Page>, list: seq<Page>)
    requires PmmOk(m) && Account(m, held) && Distinct(list) && AllFree(m, list)
    ensures Account(TakeAll(m, list), held + multiset(list))
  {
    TakeAllKeeps(m, list);
    forall p ensures (held + multiset(list))[p] == if Taken(TakeAll(m, list), p) then 1 else 0 {
      CountOf(list, p);
      assert held[p] == if Taken(m, p) then 1 else 0;
    }
  }

  lemma AccountGive(m: seq<Arena>, held: multiset<Page>, list: seq<Page>)
    requires PmmOk(m) && Account(m, held + multiset(list))
    ensures Distinct(list) && AllTaken(m, list) && Account(GiveAll(m, list), held)
  {
    forall p ensures multiset(list)[p] <= 1 { assert (held + multiset(list))[p] == if Taken(m, p) then 1 else 0; }
    OnceIsDistinct(list);
    forall p | p in list ensures Taken(m, p) {
      assert p in multiset(list) && (held + multiset(list))[p] == if Taken(m, p) then 1 else 0;
    }
    GiveAllKeeps(m, list);
    forall p ensures held[p] == if Taken(GiveAll(m, list), p) then 1 else 0 {
      CountOf(list, p);
      assert (held + multiset(list))[p] == if Taken(m, p) then 1 else 0;
    }
  }

  // ------------------------------------------------------------- a specific spot

  ghost predicate InGap(s: Space, rs: seq<Region>, i: nat, a: nat, size: nat)
    requires i <= |rs|
  {
    GapStart(s, rs, i) <= a && a + size <= GapEnd(s, rs, i)
  }

  /** What fits lies in one of the gaps. */
  lemma {:induction false} FitsInSomeGap(s: Space, rs: seq<Region>, i: nat, a: nat, size: nat)
    requires RegionsOk(s, rs) && i <= |rs| && Fits(s, rs, a, size) && GapStart(s, rs, i) <= a
    ensures exists g | 0 <= g <= |rs| :: InGap(s, rs, g, a, size)
    decreases |rs| - i
  {
    if InGap(s, rs, i, a, size) {
    } else {
      assert Apart(rs[i], a, size);
      FitsInSomeGap(s, rs, i + 1, a, size);
    }
  }
}
