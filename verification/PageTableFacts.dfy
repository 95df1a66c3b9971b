/** The facts that the in-place walk of arch/arm64/mmu.c carries from turn to turn. */
module PageTableFacts {
  import opened Wrappers
  import opened Multiples
  import opened PageTableSpec
  import opened PageTableShape

  /** Facts the in-place code carries from turn to turn.  `Known` seals their
      meaning so that only the lemmas below unfold it. */
  datatype Fact =
    | Mapped(v: seq<Tree>, w: seq<Tree>, l: nat, lo: nat, hi: nat, pa: nat, attrs: nat)
    | Mappable(v: seq<Tree>, l: nat, lo: nat, hi: nat, pa: nat, attrs: nat, total: nat)
    | EntryMapped(k: Tree, k': Tree, l: nat, lo: nat, hi: nat, pa: nat, attrs: nat)
    | EntryMappable(k: Tree, l: nat, lo: nat, hi: nat, pa: nat, attrs: nat, total: nat)
    | SameTable(v: seq<Tree>, w: seq<Tree>, l: nat)
    | SameEntry(k: Tree, k': Tree, l: nat)

  ghost predicate Holds(f: Fact) {
    match f
    // `v` with [lo, hi) mapped is `w`
    case Mapped(v, w, l, lo, hi, pa, attrs) =>
      WFs(v, l) && FillOk(v, l, lo, hi, pa) && w == Fill(v, l, lo, hi, pa, attrs)
    // [lo, hi) can be mapped over `v` with `total` tables, those of `v` included
    case Mappable(v, l, lo, hi, pa, attrs, total) =>
      WFs(v, l) && FillOk(v, l, lo, hi, pa) && CountTo(Fill(v, l, lo, hi, pa, attrs), |v|) <= total
    case EntryMapped(k, k', l, lo, hi, pa, attrs) =>
      WF(k, l) && FillOkKid(k, l, lo, hi, pa) && k' == FillKid(k, l, lo, hi, pa, attrs)
    case EntryMappable(k, l, lo, hi, pa, attrs, total) =>
      WF(k, l) && FillOkKid(k, l, lo, hi, pa) && Count(FillKid(k, l, lo, hi, pa, attrs)) <= total
    // `w` means what `v` means, and is `v` but for a few new tables if `v` was tidy
    case SameTable(v, w, l) => SameMeaning(v, w, l) && (TidyAll(v) ==> Leftover(v, w, l))
    case SameEntry(k, k', l) => SameKid(k, k', l) && (Tidy(k) ==> LeftoverKid(k, k', l))
  }

  ghost predicate Known(f: Fact) {
    assert SealFact(Holds(f), f);
    var b: bool :| SealFact(b, f);
    b
  }

  ghost predicate SealFact(b: bool, f: Fact) {
    forall u {:trigger Open(u)} :: Open(u) ==> b == Holds(f)
  }

  lemma Unseal(f: Fact)
    ensures Known(f) <==> Holds(f)
  {
    assert Open(0);
  }

  lemma NothingMapped(v: seq<Tree>, l: nat, lo: nat, pa: nat, attrs: nat)
    requires WFs(v, l)
    ensures Known(Mapped(v, v, l, lo, lo, pa, attrs)) && Known(SameTable(v, v, l))
  {
    FillNothing(v, l, lo, pa, attrs);
    Unseal(Mapped(v, v, l, lo, lo, pa, attrs));
    Unseal(SameTable(v, v, l));
  }

  lemma TurnTaken(v: seq<Tree>, w: seq<Tree>, w': seq<Tree>, l: nat, lo: nat, rel: nat, chunk: nat, idx: nat,
                  pa: nat, attrs: nat)
    requires Known(Mapped(v, w, l, lo, rel, pa, attrs))
    requires idx < |v| == |w| == |w'| && Turn(lo, rel, chunk, Block(l), idx) && w' == w[idx := w'[idx]]
    requires var rem := rel - Times(idx, Block(l));
             Known(EntryMapped(w[idx], w'[idx], l, rem, rem + chunk, pa + (rel - lo), attrs))
    ensures Known(Mapped(v, w', l, lo, rel + chunk, pa, attrs))
  {
    var rem := rel - Times(idx, Block(l));
    Unseal(Mapped(v, w, l, lo, rel, pa, attrs));
    Unseal(EntryMapped(w[idx], w'[idx], l, rem, rem + chunk, pa + (rel - lo), attrs));
    FillTurn(v, l, lo, rel, chunk, idx, pa, attrs);
    FillOkTurn(v, l, lo, rel, chunk, idx, pa);
    Unseal(Mapped(v, w', l, lo, rel + chunk, pa, attrs));
  }

  /** If the turn at `idx` cannot be taken, neither can the whole mapping. */
  lemma TurnRefused(v: seq<Tree>, w: seq<Tree>, l: nat, lo: nat, rel: nat, chunk: nat, idx: nat,
                    pa: nat, attrs: nat, hi: nat, avail: nat)
    requires Known(Mapped(v, w, l, lo, rel, pa, attrs))
    requires idx < |v| == |w| && Turn(lo, rel, chunk, Block(l), idx) && Between(lo, rel + chunk, hi, Block(l))
    requires var rem := rel - Times(idx, Block(l));
             !Known(EntryMappable(w[idx], l, rem, rem + chunk, pa + (rel - lo), attrs, avail + Count(w[idx])))
    ensures !Known(Mappable(v, l, lo, hi, pa, attrs, avail + CountTo(w, |w|)))
  {
    var rem, total := rel - Times(idx, Block(l)), avail + CountTo(w, |w|);
    Unseal(Mapped(v, w, l, lo, rel, pa, attrs));
    Unseal(EntryMappable(w[idx], l, rem, rem + chunk, pa + (rel - lo), attrs, avail + Count(w[idx])));
    Unseal(Mappable(v, l, lo, hi, pa, attrs, total));
    FillTurn(v, l, lo, rel, chunk, idx, pa, attrs);
    if Known(Mappable(v, l, lo, hi, pa, attrs, total)) {
      TurnAffordable(v, w, l, lo, rel, chunk, idx, pa, attrs, hi, avail);
    }
  }

  /** A turn of a mapping that can be paid for can be paid for. */
  lemma TurnAffordable(v: seq<Tree>, w: seq<Tree>, l: nat, lo: nat, rel: nat, chunk: nat, idx: nat,
                       pa: nat, attrs: nat, hi: nat, avail: nat)
    requires WFs(v, l) && idx < |v| && Turn(lo, rel, chunk, Block(l), idx) && Between(lo, rel + chunk, hi, Block(l))
    requires FillOk(v, l, lo, hi, pa) && w == Fill(v, l, lo, rel, pa, attrs)
    requires CountTo(Fill(v, l, lo, hi, pa, attrs), |v|) <= avail + CountTo(w, |w|)
    ensures |w| == |v| && w[idx] == v[idx]
    ensures var rem := rel - Times(idx, Block(l));
            && FillOkKid(v[idx], l, rem, rem + chunk, pa + (rel - lo))
            && Count(FillKid(v[idx], l, rem, rem + chunk, pa + (rel - lo), attrs)) <= avail + Count(v[idx])
  {
    TurnWithinWhole(v, l, lo, rel, chunk, idx, pa, attrs, hi);
  }

  lemma TurnWithinWhole(v: seq<Tree>, l: nat, lo: nat, rel: nat, chunk: nat, idx: nat, pa: nat, attrs: nat, hi: nat)
    requires WFs(v, l) && idx < |v| && Turn(lo, rel, chunk, Block(l), idx) && Between(lo, rel + chunk, hi, Block(l))
    requires FillOk(v, l, lo, hi, pa)
    ensures var rem := rel - Times(idx, Block(l));
            var (w, k) := (Fill(v, l, lo, rel, pa, attrs), FillKid(v[idx], l, rem, rem + chunk, pa + (rel - lo), attrs));
            && w[idx] == v[idx] && FillOkKid(v[idx], l, rem, rem + chunk, pa + (rel - lo))
            && CountTo(w, |v|) + Count(k) <= CountTo(Fill(v, l, lo, hi, pa, attrs), |v|) + Count(v[idx])
  {
    var rem := rel - Times(idx, Block(l));
    FillTurn(v, l, lo, rel, chunk, idx, pa, attrs);
    FillOkPrefix(v, l, lo, rel + chunk, hi, pa);
    FillOkTurn(v, l, lo, rel, chunk, idx, pa);
    FillPrefixGrows(v, l, lo, rel + chunk, hi, pa, attrs);
    CountUpdate(Fill(v, l, lo, rel, pa, attrs), idx,
                FillKid(v[idx], l, rem, rem + chunk, pa + (rel - lo), attrs), |v|);
  }

  lemma TurnRolledBack(v: seq<Tree>, w: seq<Tree>, w': seq<Tree>, l: nat, lo: nat, rel: nat, chunk: nat, idx: nat,
                       pa: nat, attrs: nat)
    requires Known(Mapped(v, w, l, lo, rel, pa, attrs))
    requires idx < |v| == |w| == |w'| && Turn(lo, rel, chunk, Block(l), idx) && w' == w[idx := w'[idx]]
    requires Known(SameEntry(w[idx], w'[idx], l))
    ensures WFs(w', l) && Known(SameTable(v, Clear(w', l, lo, rel), l))
  {
    Unseal(Mapped(v, w, l, lo, rel, pa, attrs));
    Unseal(SameEntry(w[idx], w'[idx], l));
    FillTurn(v, l, lo, rel, chunk, idx, pa, attrs);
    RollbackMeaning(v, l, lo, rel, chunk, idx, pa, attrs, w');
    if TidyAll(v) { TidyRolledBack(v, w, w', l, lo, rel, chunk, idx, pa, attrs); }
    Unseal(SameTable(v, Clear(w', l, lo, rel), l));
  }

  /** Unmapping the part that was mapped leaves what the refused turn left. */
  lemma TidyRolledBack(v: seq<Tree>, w: seq<Tree>, w': seq<Tree>, l: nat, lo: nat, rel: nat, chunk: nat, idx: nat,
                       pa: nat, attrs: nat)
    requires WFs(v, l) && TidyAll(v) && FillOk(v, l, lo, rel, pa) && w == Fill(v, l, lo, rel, pa, attrs)
    requires idx < |v| == |w'| && Turn(lo, rel, chunk, Block(l), idx) && w' == w[idx := w'[idx]] && WFs(w', l)
    requires w[idx] == v[idx] && LeftoverKid(v[idx], w'[idx], l)
    ensures Leftover(v, Clear(w', l, lo, rel), l)
  {
    ComesBack(v, l, lo, rel, pa, attrs);
    ClipHere(lo, rel, chunk, Block(l), idx);
    assert WF(w'[idx], l);
    ClearFrame(w, l, lo, rel, idx, w'[idx]);
    assert Clear(w', l, lo, rel) == v[idx := w'[idx]];
  }

  lemma AllMapped(v: seq<Tree>, w: seq<Tree>, l: nat, lo: nat, hi: nat, pa: nat, attrs: nat, total: nat)
    requires Known(Mapped(v, w, l, lo, hi, pa, attrs)) && |v| == |w| && CountTo(w, |w|) <= total
    ensures Known(Mappable(v, l, lo, hi, pa, attrs, total))
  {
    Unseal(Mapped(v, w, l, lo, hi, pa, attrs));
    Unseal(Mappable(v, l, lo, hi, pa, attrs, total));
  }

  lemma BlockInTheWay(k: Tree, l: nat, lo: nat, hi: nat, pa: nat, attrs: nat, total: nat)
    requires WF(k, l) && lo < hi && (if NeedTable(l, lo, hi, pa) then k.Map? || total == 0 else !k.Empty?)
    ensures !Known(EntryMappable(k, l, lo, hi, pa, attrs, total)) && Known(SameEntry(k, k, l))
  {
    Unseal(EntryMappable(k, l, lo, hi, pa, attrs, total));
    Unseal(SameEntry(k, k, l));
    if NeedTable(l, lo, hi, pa) && l > 0 && !k.Map? { FillBelow(k, l, lo, hi, pa, attrs); }
  }

  lemma LeafWritten(l: nat, lo: nat, hi: nat, pa: nat, attrs: nat, total: nat)
    requires lo < hi && !NeedTable(l, lo, hi, pa)
    ensures Known(EntryMappable(Empty, l, lo, hi, pa, attrs, total))
    ensures Known(EntryMapped(Empty, Map(pa, attrs), l, lo, hi, pa, attrs))
  {
    Unseal(EntryMappable(Empty, l, lo, hi, pa, attrs, total));
    Unseal(EntryMapped(Empty, Map(pa, attrs), l, lo, hi, pa, attrs));
  }

  lemma TableTotal(k: Tree)
    ensures Count(k) == CountTo(KidsOf(k), |KidsOf(k)|) + if k.Table? then 1 else 0
  {
    if !k.Table? { CountAllEmpty(Blank(), Entries()); }
  }

  /** What the recursive call into the table below an entry settles for the entry. */
  lemma Descended(k: Tree, w: seq<Tree>, l: nat, lo: nat, hi: nat, pa: nat, attrs: nat, total: nat)
    requires WF(k, l) && l > 0 && lo < hi && !k.Map? && NeedTable(l, lo, hi, pa)
    ensures Known(EntryMappable(k, l, lo, hi, pa, attrs, 1 + total))
            <==> Known(Mappable(KidsOf(k), l - 1, lo, hi, pa, attrs, total))
    ensures Known(Mapped(KidsOf(k), w, l - 1, lo, hi, pa, attrs))
            ==> Known(EntryMapped(k, Table(w), l, lo, hi, pa, attrs))
    ensures Known(SameTable(KidsOf(k), w, l - 1)) ==> Known(SameEntry(k, Table(w), l))
  {
    FillBelow(k, l, lo, hi, pa, attrs);
    Unseal(EntryMappable(k, l, lo, hi, pa, attrs, 1 + total));
    Unseal(Mappable(KidsOf(k), l - 1, lo, hi, pa, attrs, total));
    Unseal(Mapped(KidsOf(k), w, l - 1, lo, hi, pa, attrs));
    Unseal(EntryMapped(k, Table(w), l, lo, hi, pa, attrs));
    Unseal(SameTable(KidsOf(k), w, l - 1));
    Unseal(SameEntry(k, Table(w), l));
    if Known(SameTable(KidsOf(k), w, l - 1)) {
      SameKidTables(KidsOf(k), w, l);
      assert Tidy(k) ==> TidyAll(KidsOf(k));
    }
  }
}
