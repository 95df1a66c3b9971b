/** kernel/vm/vmm.c: an address space's list of regions, changed in place, and the pages behind it. */
module Vmm {
  import opened Wrappers
  import opened Multiples
  import opened Pmm
  import opened VmmSpec

  datatype Status = NoError | ErrInvalidArgs | ErrNoMemory | ErrOutOfRange | ErrNotFound

  /** The alignment alloc_spot works with: a page at least. */
  function AlignOf(alignPow2: nat): (r: nat)
    ensures r > 0
  {
    Pow2(if alignPow2 < 12 then 12 else alignPow2)
  }

  lemma AlignDivides(alignPow2: nat)
    requires alignPow2 < 64
    ensures 1 < AlignOf(alignPow2) < WORD && Multiple(WORD, AlignOf(alignPow2)) && !Multiple(NO_SPOT, AlignOf(alignPow2))
  {
    var k := if alignPow2 < 12 then 12 else alignPow2;
    WordIs();
    Pow2Multiple(k, 64);
    Pow2Mono(k, 63);
    assert Pow2(k) == 2 * Pow2(k - 1) && Pow2(64) == 2 * Pow2(63);
    if Multiple(NO_SPOT, Pow2(k)) { MultipleSub(WORD, NO_SPOT, Pow2(k)); }
  }

  lemma WordIs()
    ensures Pow2(64) == WORD
  {
    FramesIs();
    Pow2Adds(52, 12);
    assert Pow2(12) == 0x1000;
  }

  lemma StartBelow(x: nat, align: nat)
    requires align > 0
    ensures RoundUp(x, align) >= x
  {
    RoundUpIs(x, align);
  }

  /** arch_mmu_pick_spot, and check_gap's test of what it gives: [gapBeg, gapEnd] is not empty */
  method PickSpot(gapBeg: nat, gapEnd: nat, align: nat, size: nat) returns (stop: bool, spot: nat)
    requires gapBeg <= gapEnd < WORD && 1 < align < WORD && Multiple(WORD, align) && 1 < size < WORD
    ensures stop && spot != NO_SPOT ==> spot == RoundUp(gapBeg, align) && spot + size <= gapEnd + 1
    ensures stop && spot == NO_SPOT ==> RoundUp(gapBeg, align) >= WORD
    ensures !stop ==> RoundUp(gapBeg, align) + size > gapEnd + 1
  {
    spot := AlignUp(gapBeg, align);
    AlignUpIs(gapBeg, align);
    if spot < gapBeg { return true, NO_SPOT; }
    if spot < gapEnd && gapEnd - spot + 1 >= size { return true, spot; }
    return false, spot;
  }

  class AddressSpace {
    const space: Space
    const pmm: PhysMem
    var regions: seq<Region>
    /** Pages held by others than this list: page tables, other address spaces. */
    ghost var others: multiset<Page>

    ghost predicate Shape()
      reads this
    {
      SpaceOk(space) && RegionsOk(space, regions)
    }

    /** The list is sorted and disjoint, and each page is free or has exactly one owner. */
    ghost predicate Valid()
      reads this, pmm
    {
      Shape() && pmm.Valid() && Account(pmm.arenas, Owned(regions) + others)
    }

    /** vmm_create_aspace: no regions yet, whatever pages are in use being held by others */
    constructor (s: Space, p: PhysMem, ghost held: multiset<Page>)
      requires SpaceOk(s) && p.Valid() && Account(p.arenas, held)
      ensures Valid() && space == s && pmm == p && regions == [] && others == held
    {
      space, pmm, regions, others := s, p, [], held;
      new;
      assert Owned(regions) + others == held;
    }

    /** list_add_after, into a gap that is large enough */
    method PutRegion(at: nat, r: Region)
      requires Shape() && at <= |regions| && r.size > 0 && InGap(space, regions, at, r.base, r.size)
      modifies this`regions
      ensures regions == InsertAt(old(regions), at, r) && Shape() && Fits(space, old(regions), r.base, r.size)
    {
      InsertKeeps(space, regions, at, r);
      GapFits(space, regions, at, r.base, r.size);
      regions := regions[..at] + [r] + regions[at..];
    }

    /** add_region_to_aspace: succeeds exactly when the region fits, and keeps the list in order. */
    method AddRegion(r: Region) returns (err: Status, at: nat)
      requires Shape() && r.base < WORD && r.size < WORD
      modifies this`regions
      ensures err == NoError <==> r.size > 0 && Fits(space, old(regions), r.base, r.size)
      ensures err == NoError ==> at <= |old(regions)| && regions == InsertAt(old(regions), at, r) && Shape()
      ensures err != NoError ==> regions == old(regions)
    {
      at := 0;
      if r.size == 0 || !IsRegionInside(space, r.base, r.size) {
        if r.size > 0 { RegionInsideIff(space, r.base, r.size); }
        return ErrOutOfRange, 0;
      }
      RegionInsideIff(space, r.base, r.size);
      var rEnd := Wrap(r.base + r.size - 1);
      if regions == [] || rEnd < regions[0].base {
        PutRegion(0, r);
        return NoError, 0;
      }
      var i := 0;
      while i < |regions|
        invariant i <= |regions| && regions == old(regions)
        invariant forall g | 0 <= g <= i :: !InGap(space, regions, g, r.base, r.size)
      {
        var last := regions[i];
        if r.base > Wrap(last.base + last.size - 1) && (i + 1 == |regions| || rEnd < regions[i + 1].base) {
          PutRegion(i + 1, r);
          return NoError, i + 1;
        }
        i := i + 1;
      }
      if Fits(space, regions, r.base, r.size) { FitsInSomeGap(space, regions, 0, r.base, r.size); }
      return ErrNoMemory, 0;
    }

    /** check_gap for the gap before the i-th region */
    method CheckGap(i: nat, align: nat, size: nat) returns (stop: bool, spot: nat)
      requires Shape() && i <= |regions| && 1 < align < WORD && Multiple(WORD, align) && 1 < size < WORD
      ensures stop && spot != NO_SPOT ==>
                spot == RoundUp(GapStart(space, regions, i), align) && spot + size <= GapEnd(space, regions, i)
      ensures stop && spot == NO_SPOT ==>
                || RoundUp(GapStart(space, regions, i), align) >= WORD
                || (i == |regions| && GapStart(space, regions, i) == GapEnd(space, regions, i))
      ensures !stop ==> RoundUp(GapStart(space, regions, i), align) + size > GapEnd(space, regions, i)
    {
      StartBelow(GapStart(space, regions, i), align);
      var gapBeg := if i > 0 then Wrap(regions[i - 1].base + regions[i - 1].size) else space.base;
      var gapEnd;
      if i < |regions| {
        assert i > 0 ==> End(regions[i - 1]) <= regions[i].base;
        if gapBeg == regions[i].base { return false, 0; }
        gapEnd := regions[i].base - 1;
      } else {
        if gapBeg == Wrap(space.base + space.size) { return true, NO_SPOT; }
        gapEnd := Wrap(space.base + space.size - 1);
      }
      assert gapBeg == GapStart(space, regions, i) && gapEnd == GapEnd(space, regions, i) - 1;
      stop, spot := PickSpot(gapBeg, gapEnd, align, size);
    }

    /** alloc_spot: the least aligned address that fits, and where its region goes; NO_SPOT exactly
        when there is none. */
    method AllocSpot(size: nat, alignPow2: nat) returns (spot: nat, before: nat)
      requires Shape() && 0 < size < WORD && Multiple(size, PAGE_SIZE) && alignPow2 < 64
      ensures before <= |regions|
      ensures if spot == NO_SPOT then forall a: nat | Multiple(a, AlignOf(alignPow2)) :: !Fits(space, regions, a, size)
              else Least(space, regions, spot, size, AlignOf(alignPow2)) && InGap(space, regions, before, spot, size)
    {
      var align := AlignOf(alignPow2);
      AlignDivides(alignPow2);
      before := 0;
      while before <= |regions|
        invariant before <= |regions| && NoneBefore(space, regions, before, size, align)
        decreases |regions| - before
      {
        var stop;
        stop, spot := CheckGap(before, align, size);
        if stop {
          Found(spot, before, size, align);
          return;
        }
        GapTooSmall(space, regions, before, size, align);
        if before == |regions| { return NO_SPOT, 0; }
        before := before + 1;
      }
    }

    /** What check_gap's answer means for the whole space. */
    lemma Found(spot: nat, i: nat, size: nat, align: nat)
      requires Shape() && i <= |regions| && align > 0 && size > 0 && NoneBefore(space, regions, i, size, align)
      requires spot != NO_SPOT ==> spot == RoundUp(GapStart(space, regions, i), align) && spot + size <= GapEnd(space, regions, i)
      requires spot == NO_SPOT ==>
                || RoundUp(GapStart(space, regions, i), align) >= WORD
                || (i == |regions| && GapStart(space, regions, i) == GapEnd(space, regions, i))
      ensures if spot == NO_SPOT then forall a: nat | Multiple(a, align) :: !Fits(space, regions, a, size)
              else Least(space, regions, spot, size, align) && InGap(space, regions, i, spot, size)
    {
      RoundUpIs(GapStart(space, regions, i), align);
      if spot != NO_SPOT {
        FirstInGap(space, regions, i, size, align);
      } else if RoundUp(GapStart(space, regions, i), align) >= WORD {
        NoAlignedLeft(space, regions, i, size, align);
      } else {
        GapTooSmall(space, regions, i, size, align);
      }
    }

    /** alloc_region: `haveStruct` says whether there was memory for the region structure */
    method AllocRegion(size: nat, vaddr: nat, alignPow2: nat, specific: bool, haveStruct: bool) returns (at: Option<nat>)
      requires Shape() && 0 < size < WORD && Multiple(size, PAGE_SIZE) && vaddr < WORD && alignPow2 < 64
      modifies this`regions
      ensures Shape() && (at.None? ==> regions == old(regions))
      ensures at.Some? ==>
                && at.value <= |old(regions)| && |regions| == |old(regions)| + 1 && var r := Region(regions[at.value].base, size, []);
                && regions == InsertAt(old(regions), at.value, r) && Fits(space, old(regions), r.base, size)
                && WellPlaced(space, old(regions), r.base, size, vaddr, alignPow2, specific)
      ensures at.Some? <==> haveStruct && HasPlace(space, old(regions), size, vaddr, alignPow2, specific)
    {
      if !haveStruct { return None; }
      if specific {
        var err, i := AddRegion(Region(vaddr, size, []));
        return if err == NoError then Some(i) else None;
      }
      var spot, before := AllocSpot(size, alignPow2);
      if spot == NO_SPOT { return None; }
      PutRegion(before, Region(spot, size, []));
      return Some(before);
    }

    /** arch_mmu_map may take pages for page tables. */
    method TakeTables(n: nat, ghost held: multiset<Page>)
      requires pmm.Valid() && Account(pmm.arenas, held + others)
      modifies this`others, pmm
      ensures pmm.Valid() && Account(pmm.arenas, held + others) && old(others) <= others && |others| <= |old(others)| + n
    {
      ghost var m := pmm.arenas;
      var list := pmm.AllocPages(n);
      AccountTake(m, held + others, list);
      assert held + others + multiset(list) == held + (others + multiset(list));
      others := others + multiset(list);
    }

    /** A page is mapped and goes to the end of a region's page list. */
    method HoldOne(at: nat, p: Page, n: nat, ghost rest: multiset<Page>)
      requires at < |regions| && pmm.Valid() && Account(pmm.arenas, Owned(regions) + multiset{p} + rest + others)
      modifies this`regions, this`others, pmm
      ensures pmm.Valid() && Account(pmm.arenas, Owned(regions) + rest + others) && old(others) <= others
      ensures |others| <= |old(others)| + n
      ensures regions == old(regions)[at := old(regions)[at].(pages := old(regions)[at].pages + [p])]
    {
      TakeTables(n, Owned(regions) + multiset{p} + rest);
      OwnedUpdate(regions, at, p);
      regions := regions[at := regions[at].(pages := regions[at].pages + [p])];
    }

    method HoldNext(at: nat, list: seq<Page>, i: nat, n: nat, ghost before: seq<Region>)
      requires pmm.Valid() && at < |before| && i < |list| && regions == Holding(before, at, list, i)
      requires Account(pmm.arenas, Owned(regions) + multiset(list[i..]) + others)
      modifies this`regions, this`others, pmm
      ensures pmm.Valid() && regions == Holding(before, at, list, i + 1)
      ensures Account(pmm.arenas, Owned(regions) + multiset(list[i + 1..]) + others)
      ensures old(others) <= others && |others| <= |old(others)| + n
    {
      NextHeld(before, at, list, i);
      assert Owned(regions) + multiset(list[i..]) + others
          == Owned(regions) + multiset{list[i]} + multiset(list[i + 1..]) + others;
      HoldOne(at, list[i], n, multiset(list[i + 1..]));
    }

    /** The pages are mapped one by one and go to the region's page list. */
    method HoldPages(at: nat, list: seq<Page>, need: seq<nat>)
      requires Shape() && pmm.Valid() && at < |regions| && regions[at].pages == []
      requires Account(pmm.arenas, Owned(regions) + multiset(list) + others)
      modifies this`regions, this`others, pmm
      ensures Valid() && old(others) <= others && |others| <= |old(others)| + Tables(need, |list|)
      ensures regions == old(regions)[at := old(regions)[at].(pages := list)]
    {
      ghost var before := regions;
      var i := 0;
      assert regions == Holding(before, at, list, 0) && list[0..] == list;
      while i < |list|
        invariant i <= |list| && old(others) <= others && pmm.Valid() && |others| <= |old(others)| + Tables(need, i)
        invariant regions == Holding(before, at, list, i)
        invariant Account(pmm.arenas, Owned(regions) + multiset(list[i..]) + others)
      {
        HoldNext(at, list, i, if i < |need| then need[i] else 0, before);
        i := i + 1;
      }
      AllHeld(before, at, list);
      assert Owned(regions) + multiset{} + others == Owned(regions) + others;
      SamePlaces(space, before, regions);
    }

    /** Pages on a list that nobody else holds go back to their arenas. */
    method GiveBack(list: seq<Page>, ghost held: multiset<Page>)
      requires pmm.Valid() && Account(pmm.arenas, held + multiset(list))
      modifies pmm
      ensures pmm.Valid() && Account(pmm.arenas, held)
    {
      AccountGive(pmm.arenas, held, list);
      KnownAll(pmm.arenas, list);
      var _ := pmm.FreePages(list);
    }

    /** A region for pages already allocated, or the pages back if there is no room. */
    method PlacePages(size: nat, vaddr: nat, alignPow2: nat, specific: bool, haveStruct: bool, list: seq<Page>, need: seq<nat>)
      returns (at: Option<nat>)
      requires Shape() && pmm.Valid() && Account(pmm.arenas, Owned(regions) + others + multiset(list))
      requires 0 < size < WORD && Multiple(size, PAGE_SIZE) && vaddr < WORD && alignPow2 < 64
      modifies this`regions, this`others, pmm
      ensures Valid() && old(others) <= others
      ensures at.None? ==> regions == old(regions) && others == old(others)
      ensures |others| <= |old(others)| + Tables(need, |list|)
      ensures at.Some? ==> at.value < |regions| && Placed(space, old(regions), regions, at.value, size, list)
      ensures at.Some? ==> WellPlaced(space, old(regions), regions[at.value].base, size, vaddr, alignPow2, specific)
      ensures at.Some? <==> haveStruct && HasPlace(space, old(regions), size, vaddr, alignPow2, specific)
    {
      at := AllocRegion(size, vaddr, alignPow2, specific, haveStruct);
      if at.None? {
        GiveBack(list, Owned(regions) + others);
      } else {
        OwnedInsert(old(regions), at.value, Region(regions[at.value].base, size, []));
        assert Owned(regions) + multiset(list) + others == Owned(old(regions)) + others + multiset(list);
        ghost var r := regions[at.value];
        HoldPages(at.value, list, need);
        InsertThenSet(old(regions), at.value, r, list);
      }
    }

    /** Pages for `size` bytes, or none. */
    method PileOfPages(size: nat, ghost held: multiset<Page>) returns (list: seq<Page>, ok: bool)
      requires pmm.Valid() && Account(pmm.arenas, held) && size % PAGE_SIZE == 0
      modifies pmm
      ensures pmm.Valid() && (ok <==> EnoughPages(old(pmm.arenas), size / PAGE_SIZE))
      ensures ok ==> |list| * PAGE_SIZE == size && AllFree(old(pmm.arenas), list) && Account(pmm.arenas, held + multiset(list))
      ensures !ok ==> Account(pmm.arenas, held)
    {
      ghost var m := pmm.arenas;
      list := pmm.AllocPages(U32(size / PAGE_SIZE));
      AccountTake(m, held, list);
      ok := |list| >= size / PAGE_SIZE;
      if !ok { GiveBack(list, held); }
    }

    /** vmm_alloc: `ptr` is where the caller wants the region if `specific`, `need` the page-table
        pages the mapping of each page takes. Whatever happens, no page is lost or owned twice. */
    method Alloc(size: nat, ptr: Option<nat>, alignPow2: nat, specific: bool, haveStruct: bool, need: seq<nat>)
      returns (err: Status, at: nat)
      requires Valid() && size < WORD && alignPow2 < 64 && (ptr.Some? ==> ptr.value < WORD)
      modifies this`regions, this`others, pmm
      ensures Valid() && old(others) <= others
      ensures err != NoError ==> regions == old(regions) && others == old(others)
      ensures err == ErrInvalidArgs <==> BadArgs(size, ptr, specific)
      ensures err == NoError <==>
                && !BadArgs(size, ptr, specific) && EnoughPages(old(pmm.arenas), PageCount(size)) && haveStruct
                && HasPlace(space, old(regions), RoundUpTo(size), Wish(ptr, specific), alignPow2, specific)
      ensures err == NoError || err == ErrInvalidArgs || err == ErrNoMemory
      ensures err == NoError ==>
                && at < |regions| && Placed(space, old(regions), regions, at, RoundUpTo(size), regions[at].pages)
                && WellPlaced(space, old(regions), regions[at].base, RoundUpTo(size), Wish(ptr, specific), alignPow2, specific)
                && |regions[at].pages| * PAGE_SIZE == RoundUpTo(size) && AllFree(old(pmm.arenas), regions[at].pages)
                && |others| <= |old(others)| + Tables(need, |regions[at].pages|)
    {
      at := 0;
      RoundUpToIs(size);
      var rounded := RoundUpTo(size);
      if rounded == 0 || (specific && ptr.None?) { return ErrInvalidArgs, 0; }
      var vaddr := if specific then ptr.value else 0;
      var list, ok := PileOfPages(rounded, Owned(regions) + others);
      if !ok { return ErrNoMemory, 0; }
      var r := PlacePages(rounded, vaddr, alignPow2, specific, haveStruct, list, need);
      if r.None? { return ErrNoMemory, 0; }
      return NoError, r.value;
    }

    /** A run from the page allocator, accounted for. */
    method TakeRun(count: nat, alignPow2: nat, ghost held: multiset<Page>) returns (list: seq<Page>)
      requires pmm.Valid() && Account(pmm.arenas, held) && alignPow2 < 64 && count < TWO32
      requires Searchable(pmm.arenas, count, Frames(alignPow2))
      modifies pmm
      ensures pmm.Valid() && Account(pmm.arenas, held + multiset(list))
      ensures list != [] <==> count > 0 && !NoRun(old(pmm.arenas), |old(pmm.arenas)|, count, Frames(alignPow2))
      ensures list != [] ==> FromRun(old(pmm.arenas), list, count, alignPow2)
    {
      ghost var m := pmm.arenas;
      var pa;
      list, pa := pmm.AllocContiguous(count, alignPow2);
      if pa.Some? {
        RunPagesOk(m, list[0].arena, list[0].index, count);
        AccountTake(m, held, list);
        SomeRun(m, list[0].arena, list[0].index, count, Frames(alignPow2));
      } else {
        assert held + multiset([]) == held;
      }
    }

    /** The pages of vmm_alloc_contiguous: the page count is cut to 32 bits on its way to the page
        allocator, and a run shorter than asked for is not given back. */
    method RunOfPages(count: nat, alignPow2: nat, ghost held: multiset<Page>) returns (list: seq<Page>, ok: bool)
      requires pmm.Valid() && Account(pmm.arenas, held) && alignPow2 < 64 && count > 0
      requires Searchable(pmm.arenas, U32(count), Frames(alignPow2))
      modifies pmm
      ensures pmm.Valid() && Account(pmm.arenas, held + multiset(list))
      ensures ok <==> count < TWO32 && !NoRun(old(pmm.arenas), |old(pmm.arenas)|, count, Frames(alignPow2))
      ensures !ok ==> (list != [] <==> Leaks(old(pmm.arenas), count, alignPow2))
      ensures list != [] ==> FromRun(old(pmm.arenas), list, U32(count), alignPow2)
      ensures ok ==> list != [] && U32(count) == count
    {
      list := TakeRun(U32(count), alignPow2, held);
      ok := |list| >= count;
    }

    /** vmm_alloc_contiguous; `leaked` are pages that end up with no owner */
    method AllocContiguous(size: nat, ptr: Option<nat>, alignPow2: nat, specific: bool, haveStruct: bool, need: seq<nat>)
      returns (err: Status, at: nat, ghost leaked: seq<Page>)
      requires Valid() && size < WORD && alignPow2 < 64 && (ptr.Some? ==> ptr.value < WORD)
      requires Searchable(pmm.arenas, U32(PageCount(size)), Frames(alignPow2))
      modifies this`regions, this`others, pmm
      ensures Shape() && pmm.Valid() && old(others) <= others
      ensures Account(pmm.arenas, Owned(regions) + others + multiset(leaked))
      ensures Valid() <==> BadArgs(size, ptr, specific) || !Leaks(old(pmm.arenas), PageCount(size), alignPow2)
      ensures leaked != [] ==>
                err == ErrNoMemory && FromRun(old(pmm.arenas), leaked, U32(PageCount(size)), alignPow2)
      ensures err != NoError ==> regions == old(regions) && others == old(others)
      ensures err == ErrInvalidArgs <==> BadArgs(size, ptr, specific)
      ensures err == NoError <==>
                && !BadArgs(size, ptr, specific) && PageCount(size) < TWO32 && haveStruct
                && !NoRun(old(pmm.arenas), |old(pmm.arenas)|, PageCount(size), Frames(alignPow2))
                && HasPlace(space, old(regions), RoundUpTo(size), Wish(ptr, specific), alignPow2, specific)
      ensures err == NoError || err == ErrInvalidArgs || err == ErrNoMemory
      ensures err == NoError ==>
                && at < |regions| && Placed(space, old(regions), regions, at, RoundUpTo(size), regions[at].pages)
                && WellPlaced(space, old(regions), regions[at].base, RoundUpTo(size), Wish(ptr, specific), alignPow2, specific)
                && FromRun(old(pmm.arenas), regions[at].pages, PageCount(size), alignPow2)
    {
      at, leaked := 0, [];
      RoundUpToIs(size);
      ghost var held := Owned(regions) + others;
      assert held + multiset([]) == held;
      var rounded := RoundUpTo(size);
      if rounded == 0 || (specific && ptr.None?) { return ErrInvalidArgs, 0, []; }
      var vaddr := if specific then ptr.value else 0;
      var list, ok := RunOfPages(rounded / PAGE_SIZE, alignPow2, held);
      if !ok {
        NotAccounted(pmm.arenas, held, list);
        return ErrNoMemory, 0, list;
      }
      var r := PlacePages(rounded, vaddr, alignPow2, specific, haveStruct, list, need);
      assert Owned(regions) + others + multiset([]) == Owned(regions) + others;
      if r.None? { return ErrNoMemory, 0, []; }
      return NoError, r.value, [];
    }

    /** vmm_find_region: the region an address lies in, if any */
    method FindRegion(vaddr: nat) returns (i: nat)
      requires Shape() && vaddr < WORD
      ensures i <= |regions| && (i < |regions| ==> regions[i].base <= vaddr < End(regions[i]))
      ensures i == |regions| ==> forall j | 0 <= j < |regions| :: !(regions[j].base <= vaddr < End(regions[j]))
    {
      i := 0;
      while i < |regions| && !(vaddr >= regions[i].base && vaddr <= Wrap(regions[i].base + regions[i].size - 1))
        invariant i <= |regions| && forall j | 0 <= j < i :: !(regions[j].base <= vaddr < End(regions[j]))
      {
        i := i + 1;
      }
    }

    /** vmm_free_region: `back` are the page-table pages that unmapping frees */
    method FreeRegion(vaddr: nat, back: seq<Page>) returns (err: Status, ghost gone: nat)
      requires Valid() && vaddr < WORD && multiset(back) <= others
      modifies this`regions, this`others, pmm
      ensures Valid()
      ensures err == ErrNotFound <==> forall j | 0 <= j < |old(regions)| :: !(old(regions)[j].base <= vaddr < End(old(regions)[j]))
      ensures err == ErrNotFound ==> regions == old(regions) && others == old(others)
      ensures err != ErrNotFound ==>
                && err == NoError && gone < |old(regions)| && old(regions)[gone].base <= vaddr < End(old(regions)[gone])
                && regions == old(regions)[..gone] + old(regions)[gone + 1..] && others == old(others) - multiset(back)
    {
      var i := FindRegion(vaddr);
      gone := i;
      if i == |regions| { err := ErrNotFound; return; }
      var pages := regions[i].pages;
      OwnedRemove(regions, i);
      RemoveKeeps(space, regions, i);
      regions := regions[..i] + regions[i + 1..];
      ghost var held := Owned(regions) + (others - multiset(back)) + multiset(pages);
      assert Owned(old(regions)) + old(others) == held + multiset(back);
      GiveBack(back, held);
      others := others - multiset(back);
      GiveBack(pages, Owned(regions) + others);
      err := NoError;
    }
  }

  /** The page-table pages that mapping the first `n` pages takes. */
  function Tables(need: seq<nat>, n: nat): nat {
    if n == 0 then 0 else Tables(need, n - 1) + if n - 1 < |need| then need[n - 1] else 0
  }

  /** ROUNDUP(size, PAGE_SIZE) in 64 bits */
  function RoundUpTo(size: nat): nat { AlignUp(size, PAGE_SIZE) }

  lemma RoundUpToIs(size: nat)
    requires size < WORD
    ensures RoundUpTo(size) < WORD && Multiple(RoundUpTo(size), PAGE_SIZE) && RoundUpTo(size) % PAGE_SIZE == 0
    ensures RoundUpTo(size) == 0 <==> size == 0 || size > WORD - PAGE_SIZE
    ensures RoundUpTo(size) != 0 ==> RoundUpTo(size) == RoundUp(size, PAGE_SIZE)
  {
    var y := Wrap(size + PAGE_SIZE - 1);
    RoundDownIs(y, PAGE_SIZE);
    MultipleIsMod(RoundUpTo(size), PAGE_SIZE);
    if 0 < size <= WORD - PAGE_SIZE { RoundUpIs(size, PAGE_SIZE); }
  }

  function PageCount(size: nat): nat { RoundUpTo(size) / PAGE_SIZE }

  /** The argument checks of vmm_alloc and vmm_alloc_contiguous. */
  predicate BadArgs(size: nat, ptr: Option<nat>, specific: bool) { RoundUpTo(size) == 0 || (specific && ptr.None?) }

  function Wish(ptr: Option<nat>, specific: bool): nat { if specific && ptr.Some? then ptr.value else 0 }

  /** The first arena, the only one vmm_alloc gets pages from, has that many. */
  ghost predicate EnoughPages(m: seq<Arena>, count: nat) {
    count < TWO32 && (count == 0 || (|m| > 0 && count <= |m[0].freeList|))
  }

  /** There is a place: the one asked for, or some aligned one. */
  ghost predicate HasPlace(s: Space, rs: seq<Region>, size: nat, vaddr: nat, alignPow2: nat, specific: bool) {
    if specific then Fits(s, rs, vaddr, size) else exists a: nat :: Multiple(a, AlignOf(alignPow2)) && Fits(s, rs, a, size)
  }

  /** The place taken is the one asked for, or the least aligned one that fits. */
  ghost predicate WellPlaced(s: Space, rs: seq<Region>, base: nat, size: nat, vaddr: nat, alignPow2: nat, specific: bool) {
    if specific then base == vaddr else Least(s, rs, base, size, AlignOf(alignPow2))
  }

  /** The list is the lowest aligned free run of the first KMAP arena that has one. */
  ghost predicate FromRun(m: seq<Arena>, list: seq<Page>, count: nat, alignPow2: nat) {
    && list != [] && |list| == count
    && list == RunPages(list[0].arena, list[0].index, count)
    && Chosen(m, list[0].arena, list[0].index, count, Frames(alignPow2))
  }

  /** The page count does not fit 32 bits, and what is left of it finds a run. */
  ghost predicate Leaks(m: seq<Arena>, count: nat, alignPow2: nat) {
    count >= TWO32 && U32(count) > 0 && !NoRun(m, |m|, U32(count), Frames(alignPow2))
  }

  /** 2^44 + 4096 bytes are 2^32 + 1 pages: asked for one page, an arena with one gives it up for good. */
  lemma LeakExample()
    ensures var m := [Fresh(0, 1, true, 0)];
            && PmmOk(m) && Searchable(m, U32(PageCount(0x1000_0000_1000)), Frames(12))
            && !BadArgs(0x1000_0000_1000, None, false) && Leaks(m, PageCount(0x1000_0000_1000), 12)
  {
    var m, size := [Fresh(0, 1, true, 0)], 0x1000_0000_1000;
    FreshOk(0, 1, true, 0);
    RoundUpToIs(size);
    RoundUpIs(size, PAGE_SIZE);
    MultipleIsMod(size, PAGE_SIZE);
    assert RoundUpTo(size) == size && PageCount(size) == 0x1_0000_0001 && U32(0x1_0000_0001) == 1;
    assert Frames(12) == 1;
    assert NearRun(m[0], 1, 1, 0);
    assert !NoRunIn(m[0], 1, 1);
    assert RoundUp(0, 1) == 0;
    assert SearchOk(m[0], 1, 1, 0);
  }

  lemma SomeRun(m: seq<Arena>, k: nat, s: nat, count: nat, align: nat)
    requires align > 0 && count > 0 && Chosen(m, k, s, count, align)
    ensures !NoRun(m, |m|, count, align)
  {
    assert !NoRunIn(m[k], count, align);
  }

  /** Pages nobody holds break the account. */
  lemma NotAccounted(m: seq<Arena>, held: multiset<Page>, list: seq<Page>)
    requires Account(m, held + multiset(list))
    ensures Account(m, held) <==> list == []
  {
    if list != [] {
      var p := list[0];
      assert p in multiset(list) && (held + multiset(list))[p] == if Taken(m, p) then 1 else 0;
      assert held[p] != if Taken(m, p) then 1 else 0;
    } else {
      assert held + multiset(list) == held;
    }
  }

  /** `b` is `a` with one region more, at `at`, where it fits. */
  ghost predicate Placed(s: Space, a: seq<Region>, b: seq<Region>, at: nat, size: nat, pages: seq<Page>)
    requires at < |b|
  {
    && |b| == |a| + 1 && b == InsertAt(a, at, Region(b[at].base, size, pages))
    && Fits(s, a, b[at].base, size)
  }

  lemma InsertThenSet(a: seq<Region>, at: nat, r: Region, list: seq<Page>)
    requires at <= |a|
    ensures InsertAt(a, at, r)[at := r.(pages := list)] == InsertAt(a, at, r.(pages := list))
  {
  }

  lemma RemoveKeeps(s: Space, rs: seq<Region>, i: nat)
    requires RegionsOk(s, rs) && i < |rs|
    ensures RegionsOk(s, rs[..i] + rs[i + 1..])
  {
    var n := rs[..i] + rs[i + 1..];
    assert forall j | 0 <= j < |n| :: n[j] == rs[if j < i then j else j + 1];
    forall j, k | 0 <= j < k < |n| ensures End(n[j]) <= n[k].base {
      assert End(rs[if j < i then j else j + 1]) <= rs[if k < i then k else k + 1].base;
    }
  }

  /** The region at `at` holds the first `i` pages of the list. */
  ghost function Holding(rs: seq<Region>, at: nat, list: seq<Page>, i: nat): seq<Region>
    requires at < |rs| && i <= |list|
  {
    rs[at := rs[at].(pages := list[..i])]
  }

  lemma NextHeld(rs: seq<Region>, at: nat, list: seq<Page>, i: nat)
    requires at < |rs| && i < |list|
    ensures multiset(list[i..]) == multiset{list[i]} + multiset(list[i + 1..])
    ensures var n := Holding(rs, at, list, i);
            Holding(rs, at, list, i + 1) == n[at := n[at].(pages := n[at].pages + [list[i]])]
  {
    assert list[i..] == [list[i]] + list[i + 1..];
    assert list[..i + 1] == list[..i] + [list[i]];
  }

  lemma AllHeld(rs: seq<Region>, at: nat, list: seq<Page>)
    requires at < |rs|
    ensures Holding(rs, at, list, |list|) == rs[at := rs[at].(pages := list)] && multiset(list[|list|..]) == multiset{}
  {
    assert list[..|list|] == list && list[|list|..] == [];
  }

  /** The page lists play no part in where regions are. */
  lemma SamePlaces(s: Space, a: seq<Region>, b: seq<Region>)
    requires RegionsOk(s, a) && |a| == |b| && forall i | 0 <= i < |a| :: b[i].base == a[i].base && b[i].size == a[i].size
    ensures RegionsOk(s, b)
  {
    forall i, j | 0 <= i < j < |b| ensures End(b[i]) <= b[j].base { assert End(a[i]) <= a[j].base; }
  }
}
