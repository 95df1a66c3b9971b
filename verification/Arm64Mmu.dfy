/** The in-place page-table code of arch/arm64/mmu.c over heap-allocated tables. */
module Arm64Mmu {
  import opened Wrappers
  import opened Multiples
  import opened PageTableSpec
  import opened PageTableShape
  import opened PageTableFacts

  datatype Pte = Invalid | Leaf(pa: nat, attrs: nat) | Next(table: PageTable)

  datatype Status = NoError | ErrInvalidArgs | ErrGeneric | ErrNotFound | ErrOutOfRange

  /** The supply behind alloc_page_table and free_page_table. */
  class PagePool {
    var avail: nat
  }

  class PageTable {
    ghost const level: nat
    const pte: array<Pte>
    ghost var view: seq<Tree>
    ghost var repr: set<object>

    /** Entry `i` agrees with the abstract tree. */
    ghost predicate EntryOk(i: nat)
      requires i < pte.Length && i < |view| && this in repr && pte in repr
      reads this, repr
      decreases level, 0
    {
      match pte[i]
      case Invalid => view[i] == Empty
      case Leaf(pa, attrs) => view[i] == Map(pa, attrs)
      case Next(c) =>
        && level > 0 && c.level == level - 1 && c in repr && c.repr <= repr
        && this !in c.repr && pte !in c.repr
        && c.pte.Length == Entries() && c.Valid() && view[i] == Table(c.view)
    }

    ghost predicate Valid()
      reads this, repr
      decreases level, 1
    {
      && this in repr && pte in repr && |view| == pte.Length
      && (forall i: nat | i < pte.Length :: EntryOk(i))
      && Apart()
    }

    /** The tables below two different entries are different. */
    ghost predicate Apart()
      requires this in repr && pte in repr
      reads this, repr
    {
      forall i: nat, j: nat | i < pte.Length && j < pte.Length && i != j && Child(i) && Child(j) ::
        pte[i].table.repr !! pte[j].table.repr
    }

    ghost predicate Child(i: nat)
      requires this in repr && pte in repr && i < pte.Length
      reads this, pte
    {
      pte[i].Next? && pte[i].table in repr
    }

    /** Valid but for entry `index`. */
    ghost predicate ValidBut(index: nat)
      requires index < pte.Length
      reads this, repr
    {
      && this in repr && pte in repr && |view| == pte.Length
      && (forall i: nat | i < pte.Length && i != index :: EntryOk(i))
      && Apart()
    }

    /** A zeroed table. */
    constructor (ghost level: nat, n: nat)
      ensures Valid() && fresh(repr) && this.level == level && pte.Length == n
      ensures view == seq(n, _ => Empty)
    {
      this.level := level;
      pte := new Pte[n](_ => Invalid);
      view := seq(n, _ => Empty);
      new;
      repr := {this, pte};
    }

    ghost function Tables(): nat
      reads this
    {
      CountTo(view, |view|)
    }

    lemma {:induction false} ValidWF()
      requires Valid()
      ensures WFs(view, level)
      decreases level
    {
      forall i: nat | i < |view| ensures WF(view[i], level) {
        assert EntryOk(i);
        if pte[i].Next? { BlockStep(level - 1); pte[i].table.ValidWF(); }
      }
    }
  }

  /** page_table_is_clear */
  method PageTableIsClear(t: PageTable) returns (clear: bool)
    requires t.Valid()
    ensures clear <==> AllEmpty(t.view)
    ensures clear <==> forall i: nat | i < t.pte.Length :: t.pte[i].Invalid?
  {
    var i := 0;
    while i < t.pte.Length
      invariant 0 <= i <= t.pte.Length
      invariant forall j: nat | j < i :: t.pte[j].Invalid? && t.view[j].Empty?
    {
      assert t.EntryOk(i);
      if !t.pte[i].Invalid? { return false; }
      i := i + 1;
    }
    return true;
  }

  /** free_page_table: nothing reachable through the table may be lost. */
  method FreePageTable(pool: PagePool, t: PageTable)
    requires t.Valid() && forall i: nat | i < t.pte.Length :: t.pte[i].Invalid?
    modifies pool
    ensures pool.avail == old(pool.avail) + 1
  {
    pool.avail := pool.avail + 1;
  }

  lemma AllEmptyInvalid(t: PageTable)
    requires t.Valid() && AllEmpty(t.view)
    ensures forall i: nat | i < t.pte.Length :: t.pte[i].Invalid?
  {
    forall i: nat | i < t.pte.Length ensures t.pte[i].Invalid? {
      assert t.EntryOk(i);
    }
  }

  /** Work below entry `index` leaves the other entries alone. */
  twostate lemma SiblingsKept(t: PageTable, new index: nat)
    requires old(t.Valid()) && index < t.pte.Length && old(t.pte[index]).Next?
    requires t.repr == old(t.repr) && t.view == old(t.view) && t.pte[..] == old(t.pte[..])
    requires forall o | o in old(t.repr) && o !in old(t.pte[index].table.repr) :: unchanged(o)
    requires old(t.pte[index].table.repr) <= t.pte[index].table.repr && fresh(t.pte[index].table.repr - old(t.pte[index].table.repr))
    ensures t.ValidBut(index)
    ensures t !in t.pte[index].table.repr && t.pte !in t.pte[index].table.repr
    ensures forall i: nat | i < t.pte.Length && i != index && t.Child(i) :: t.pte[i].table.repr !! t.pte[index].table.repr
  {
    var next := t.pte[index].table;
    assert old(t.EntryOk(index)) && old(t.Child(index));
    forall i: nat | i < t.pte.Length && i != index
      ensures t.EntryOk(i)
      ensures t.Child(i) ==> t.pte[i].table.repr !! next.repr
      ensures t.Child(i) ==> t.pte[i].table.repr == old(t.pte[i].table.repr)
    {
      assert old(t.EntryOk(i));
      if t.pte[i].Next? {
        var c := t.pte[i].table;
        assert old(t.Child(i)) && old(t.Child(index)) && old(c.Valid());
        assert old(c.repr) !! old(next.repr);
      }
    }
    forall i: nat, j: nat | i < t.pte.Length && j < t.pte.Length && i != j && t.Child(i) && t.Child(j)
      ensures t.pte[i].table.repr !! t.pte[j].table.repr
    {
      assert old(t.Child(i)) && old(t.Child(j));
    }
  }

  /** page_table[index] = pte, where the subtable below, if any, is valid and
      hangs below no other entry. */
  method SetEntry(t: PageTable, index: nat, p: Pte, ghost k: Tree)
    requires index < t.pte.Length && t.ValidBut(index)
    requires match p
             case Invalid => k == Empty
             case Leaf(pa, attrs) => k == Map(pa, attrs)
             case Next(c) =>
               && t.level > 0 && c.level == t.level - 1 && c in c.repr
               && t !in c.repr && t.pte !in c.repr
               && c.pte.Length == Entries() && c.Valid() && k == Table(c.view)
               && (t.pte[index] == p || t.repr !! c.repr
                   || (t.pte[index].Next? && t.pte[index].table == c))
               && (forall i: nat | i < t.pte.Length && i != index && t.Child(i) :: t.pte[i].table.repr !! c.repr)
    modifies t, t.pte
    ensures t.Valid() && t.pte[index] == p
    ensures t.view == old(t.view)[index := k]
    ensures t.repr == old(t.repr) + if p.Next? then p.table.repr else {}
  {
    t.pte[index] := p;
    t.view := t.view[index := k];
    if p.Next? { t.repr := t.repr + p.table.repr; }
    forall i: nat | i < t.pte.Length && i != index ensures t.EntryOk(i) {
      assert old(t.EntryOk(i));
    }
    assert t.EntryOk(index);
    forall i: nat, j: nat | i < t.pte.Length && j < t.pte.Length && i != j && t.Child(i) && t.Child(j)
      ensures t.pte[i].table.repr !! t.pte[j].table.repr
    {
      assert i != index ==> old(t.EntryOk(i)) && old(t.Child(i));
      assert j != index ==> old(t.EntryOk(j)) && old(t.Child(j));
    }
  }

  /** One turn of the loop in arm64_mmu_unmap_pt. */
  method UnmapEntry(t: PageTable, pool: PagePool, level: nat, index: nat, rem: nat, chunk: nat)
    requires t.Valid() && level == t.level && pool !in t.repr
    requires index < t.pte.Length && 0 < chunk && rem + chunk <= Block(level)
    modifies t.repr, pool
    ensures t.Valid() && t.repr == old(t.repr)
    ensures WFs(old(t.view), level)
    ensures t.view == old(t.view)[index := ClearKid(old(t.view)[index], level, rem, rem + chunk)]
    ensures pool.avail + t.Tables() == old(pool.avail + t.Tables())
    decreases level, 0
  {
    t.ValidWF();
    assert t.EntryOk(index);
    ghost var k := ClearKid(t.view[index], level, rem, rem + chunk);
    CountUpdate(t.view, index, k, |t.view|);
    if t.pte[index].Next? {
      var next := t.pte[index].table;
      var clear := UnmapBelow(t, pool, level, index, rem, chunk);
      if clear {
        CountAllEmpty(next.view, |next.view|);
        SetEntry(t, index, Invalid, k);
        FreePageTable(pool, next);
      } else {
        SetEntry(t, index, t.pte[index], k);
      }
    } else {
      SetEntry(t, index, Invalid, k);
    }
  }

  /** The recursive call, and whether the subtable can be freed after it. */
  method UnmapBelow(t: PageTable, pool: PagePool, level: nat, index: nat, rem: nat, chunk: nat) returns (clear: bool)
    requires t.Valid() && level == t.level && pool !in t.repr
    requires index < t.pte.Length && 0 < chunk && rem + chunk <= Block(level)
    requires t.pte[index].Next?
    modifies t.repr, pool
    ensures unchanged(t) && unchanged(t.pte) && t.ValidBut(index)
    ensures level > 0 && old(t.EntryOk(index))
    ensures t.pte[index].table.Valid() && t.pte[index].table.repr == old(t.pte[index].table.repr)
    ensures WFs(old(t.pte[index].table.view), level - 1)
    ensures t.pte[index].table.view == Clear(old(t.pte[index].table.view), level - 1, rem, rem + chunk)
    ensures pool.avail + t.pte[index].table.Tables() == old(pool.avail + t.pte[index].table.Tables())
    ensures clear == (chunk == Block(level) || AllEmpty(t.pte[index].table.view))
    ensures clear ==> AllEmpty(t.pte[index].table.view)
    ensures clear ==> forall i: nat | i < t.pte[index].table.pte.Length :: t.pte[index].table.pte[i].Invalid?
    decreases level, 0, 0
  {
    assert t.EntryOk(index);
    var next := t.pte[index].table;
    BlockStep(level - 1);
    UnmapPt(next, pool, level - 1, rem, chunk);
    SiblingsKept(t, index);
    BlockIs(level);
    clear := chunk == BlockSize(level);
    if clear {
      FullClearEmpty(old(next.view), level - 1, rem + chunk);
      AllEmptyInvalid(next);
    } else {
      clear := PageTableIsClear(next);
    }
  }

  /** arm64_mmu_unmap_pt */
  method UnmapPt(t: PageTable, pool: PagePool, level: nat, relIn: nat, sizeIn: nat)
    requires t.Valid() && level == t.level && pool !in t.repr
    requires relIn + sizeIn <= Times(t.pte.Length, Block(level))
    modifies t.repr, pool
    ensures t.Valid() && t.repr == old(t.repr)
    ensures WFs(old(t.view), level)
    ensures t.view == Clear(old(t.view), level, relIn, relIn + sizeIn)
    ensures pool.avail + t.Tables() == old(pool.avail + t.Tables())
    decreases level, 2
  {
    t.ValidWF();
    ghost var v := t.view;
    var rel, size := relIn, sizeIn;
    ClearNothing(v, level, relIn);
    while size > 0
      invariant t.Valid() && t.repr == old(t.repr) && pool !in t.repr
      invariant rel + size == relIn + sizeIn && relIn <= rel
      invariant size == 0 || rel == relIn || Multiple(rel, Block(level))
      invariant t.view == Clear(v, level, relIn, rel)
      invariant pool.avail + t.Tables() == old(pool.avail + t.Tables())
      decreases size
    {
      var chunk := UnmapTurn(t, pool, level, rel, size, relIn, v);
      rel, size := rel + chunk, size - chunk;
    }
  }

  /** One turn of the loop: the part of the range that lies in one entry. */
  method UnmapTurn(t: PageTable, pool: PagePool, level: nat, rel: nat, size: nat, ghost relIn: nat, ghost v: seq<Tree>)
    returns (chunk: nat)
    requires t.Valid() && level == t.level && pool !in t.repr
    requires 0 < size && relIn <= rel && rel + size <= Times(t.pte.Length, Block(level))
    requires rel == relIn || Multiple(rel, Block(level))
    requires WFs(v, level) && |v| == t.pte.Length && t.view == Clear(v, level, relIn, rel)
    modifies t.repr, pool
    ensures t.Valid() && t.repr == old(t.repr) && 0 < chunk <= size
    ensures chunk == size || Multiple(rel + chunk, Block(level))
    ensures t.view == Clear(v, level, relIn, rel + chunk)
    ensures pool.avail + t.Tables() == old(pool.avail + t.Tables())
    decreases level, 1
  {
    var rem, index;
    rem, index, chunk := Split(rel, size, level, t.pte.Length, relIn);
    ClearTurn(v, level, relIn, rel, chunk, index);
    UnmapEntry(t, pool, level, index, rem, chunk);
  }

  method DivMod(a: nat, b: nat) returns (q: nat, r: nat)
    requires b > 0
    ensures Times(q, b) + r == a && r < b
  {
    q, r := a / b, a % b;
    TimesIsProduct(q, b);
  }

  /** The address arithmetic at the head of both loops. */
  method Split(rel: nat, size: nat, level: nat, n: nat, ghost relIn: nat) returns (rem: nat, index: nat, chunk: nat)
    requires 0 < size && rel + size <= Times(n, Block(level))
    requires relIn <= rel && (rel == relIn || Multiple(rel, Block(level)))
    ensures index < n
    ensures Times(index, Block(level)) + rem == rel
    ensures rem < Block(level) && 0 < chunk <= size && rem + chunk <= Block(level)
    ensures chunk == size || rem + chunk == Block(level)
    ensures Turn(relIn, rel, chunk, Block(level), index)
    ensures chunk < size ==> Multiple(rel + chunk, Block(level))
  {
    var block := BlockSize(level);
    BlockIs(level);
    index, rem := DivMod(rel, block);
    chunk := if size < block - rem then size else block - rem;
    if index >= n { MulMono(n, index, block); }
    if Multiple(rel, block) {
      ghost var q := MultipleQuotient(rel, block);
      if q < index { MulMono(q, index, block); } else if q > index { MulMono(index, q, block); }
    }
    TimesStep(index, block);
    MultipleMul(index + 1, block);
  }

  /** arm64_mmu_get_page_table: the table below an entry, allocated on demand. */
  method GetPageTable(t: PageTable, pool: PagePool, level: nat, index: nat) returns (next: PageTable?)
    requires t.Valid() && level == t.level && level > 0 && pool !in t.repr && index < t.pte.Length
    modifies t, t.pte, pool
    ensures t.Valid() && fresh(t.repr - old(t.repr)) && pool !in t.repr
    ensures old(t.repr) <= t.repr
    ensures pool.avail + t.Tables() == old(pool.avail + t.Tables())
    ensures next == null <==> old(t.view[index].Map? || (t.view[index].Empty? && pool.avail == 0))
    ensures next == null ==> t.view == old(t.view)
    ensures next != null ==> t.view == old(t.view)[index := Table(KidsOf(old(t.view[index])))]
    ensures next != null ==> t.pte[index] == Next(next) && next.view == KidsOf(old(t.view[index]))
    ensures next != null ==> pool.avail == old(pool.avail) - if old(t.view[index].Empty?) then 1 else 0
  {
    assert t.EntryOk(index);
    match t.pte[index]
    case Leaf(_, _) => next := null;
    case Next(c) => next := c;
    case Invalid =>
      if pool.avail == 0 { return null; }
      pool.avail := pool.avail - 1;
      next := new PageTable(level - 1, Entries());
      ghost var k := Table(next.view);
      CountUpdate(t.view, index, k, |t.view|);
      CountAllEmpty(next.view, |next.view|);
      assert next.view == Blank();
      SetEntry(t, index, Next(next), k);
  }

  /** One turn of the loop in arm64_mmu_map_pt. */
  method MapEntry(t: PageTable, pool: PagePool, level: nat, index: nat, rem: nat, chunk: nat, pa: nat, attrs: nat)
    returns (r: Status)
    requires t.Valid() && level == t.level && pool !in t.repr
    requires index < t.pte.Length && 0 < chunk && rem + chunk <= Block(level)
    requires Aligned(rem) && Aligned(chunk) && Aligned(pa)
    modifies t.repr, pool
    ensures t.Valid() && fresh(t.repr - old(t.repr)) && old(t.repr) <= t.repr && pool !in t.repr
    ensures pool.avail + t.Tables() == old(pool.avail + t.Tables())
    ensures |t.view| == |old(t.view)| && t.view == old(t.view)[index := t.view[index]]
    ensures r.NoError? <==> Known(EntryMappable(old(t.view[index]), level, rem, rem + chunk, pa, attrs,
                                                old(pool.avail + Count(t.view[index]))))
    ensures r.NoError? ==> Known(EntryMapped(old(t.view[index]), t.view[index], level, rem, rem + chunk, pa, attrs))
    ensures !r.NoError? ==> Known(SameEntry(old(t.view[index]), t.view[index], level))
    decreases level, 0, 2
  {
    EntryWF(t, index);
    var table := TableNeeded(level, rem, chunk, pa);
    if table {
      r := MapBelow(t, pool, level, index, rem, chunk, pa, attrs);
    } else {
      r := MapHere(t, pool, level, index, chunk, pa, attrs);
    }
  }

  lemma EntryWF(t: PageTable, index: nat)
    requires t.Valid() && index < t.pte.Length
    ensures |t.view| == t.pte.Length && WF(t.view[index], t.level)
  {
    t.ValidWF();
    assert t.EntryOk(index);
  }

  /** Whether the part of the range in one entry is too small, misaligned or too large for it. */
  method TableNeeded(level: nat, rem: nat, chunk: nat, pa: nat) returns (needed: bool)
    requires 0 < chunk && rem + chunk <= Block(level) && Aligned(rem) && Aligned(chunk) && Aligned(pa)
    ensures needed ==> level > 0 && NeedTable(level, rem, rem + chunk, pa)
    ensures !needed ==> rem == 0 && chunk == Block(level) && Multiple(pa, chunk) && IndexShift(level) <= BLOCK_MAX_SHIFT
  {
    var block := BlockSize(level);
    BlockIs(level);
    needed := rem != 0 || !Multiple(pa, block) || chunk != block || IndexShift(level) > BLOCK_MAX_SHIFT;
    if needed { NeedTableLevel(level, rem, chunk, pa); }
  }

  /** The branch that writes the entry itself. */
  method MapHere(t: PageTable, ghost pool: PagePool, level: nat, index: nat, chunk: nat, pa: nat, attrs: nat)
    returns (r: Status)
    requires t.Valid() && level == t.level && index < t.pte.Length && WF(t.view[index], level)
    requires Aligned(pa) && chunk == Block(level) && Multiple(pa, chunk) && IndexShift(level) <= BLOCK_MAX_SHIFT
    modifies t, t.pte
    ensures t.Valid() && t.repr == old(t.repr) && t.Tables() == old(t.Tables())
    ensures |t.view| == |old(t.view)| && t.view == old(t.view)[index := t.view[index]]
    ensures r.NoError? <==> Known(EntryMappable(old(t.view[index]), level, 0, chunk, pa, attrs,
                                                pool.avail + old(Count(t.view[index]))))
    ensures r.NoError? ==> Known(EntryMapped(old(t.view[index]), t.view[index], level, 0, chunk, pa, attrs))
    ensures !r.NoError? ==> Known(SameEntry(old(t.view[index]), t.view[index], level))
  {
    assert t.EntryOk(index);
    ghost var k, total := t.view[index], pool.avail + Count(t.view[index]);
    if !t.pte[index].Invalid? {
      BlockInTheWay(k, level, 0, chunk, pa, attrs, total);
      r := ErrGeneric;
    } else {
      LeafWritten(level, 0, chunk, pa, attrs, total);
      WriteLeaf(t, level, index, pa, attrs);
      r := NoError;
    }
  }

  /** A page or block entry where there was none. */
  method WriteLeaf(t: PageTable, level: nat, index: nat, pa: nat, attrs: nat)
    requires t.Valid() && level == t.level && index < t.pte.Length && t.pte[index].Invalid?
    requires Aligned(pa) && WF(Map(pa, attrs), level)
    modifies t, t.pte
    ensures t.Valid() && t.repr == old(t.repr) && t.Tables() == old(t.Tables())
    ensures old(t.view[index]) == Empty && t.view == old(t.view)[index := Map(pa, attrs)]
  {
    assert t.EntryOk(index);
    CountUpdate(t.view, index, Map(pa, attrs), |t.view|);
    SetEntry(t, index, Leaf(pa, attrs), Map(pa, attrs));
  }

  /** The branch that goes through a table below the entry. */
  method MapBelow(t: PageTable, pool: PagePool, level: nat, index: nat, rem: nat, chunk: nat, pa: nat, attrs: nat)
    returns (r: Status)
    requires t.Valid() && level == t.level && level > 0 && pool !in t.repr
    requires index < t.pte.Length && WF(t.view[index], level) && 0 < chunk && rem + chunk <= Block(level)
    requires Aligned(rem) && Aligned(chunk) && Aligned(pa) && NeedTable(level, rem, rem + chunk, pa)
    modifies t.repr, pool
    ensures t.Valid() && fresh(t.repr - old(t.repr)) && old(t.repr) <= t.repr && pool !in t.repr
    ensures pool.avail + t.Tables() == old(pool.avail + t.Tables())
    ensures |t.view| == |old(t.view)| && t.view == old(t.view)[index := t.view[index]]
    ensures r.NoError? <==> Known(EntryMappable(old(t.view[index]), level, rem, rem + chunk, pa, attrs,
                                                old(pool.avail + Count(t.view[index]))))
    ensures r.NoError? ==> Known(EntryMapped(old(t.view[index]), t.view[index], level, rem, rem + chunk, pa, attrs))
    ensures !r.NoError? ==> Known(SameEntry(old(t.view[index]), t.view[index], level))
    decreases level, 0, 1
  {
    ghost var k, total := t.view[index], pool.avail + Count(t.view[index]);
    TableTotal(k);
    var next := GetPageTable(t, pool, level, index);
    if next == null {
      BlockInTheWay(k, level, rem, rem + chunk, pa, attrs, total);
      return ErrGeneric;
    }
    r := Descend(t, pool, level, index, next, rem, chunk, pa, attrs);
    Descended(k, next.view, level, rem, rem + chunk, pa, attrs, total - 1);
  }

  /** The recursive call of arm64_mmu_map_pt. */
  method Descend(t: PageTable, pool: PagePool, level: nat, index: nat, next: PageTable,
                 rem: nat, chunk: nat, pa: nat, attrs: nat) returns (r: Status)
    requires t.Valid() && level == t.level && level > 0 && pool !in t.repr
    requires index < t.pte.Length && 0 < chunk && rem + chunk <= Block(level)
    requires t.pte[index] == Next(next)
    requires Aligned(rem) && Aligned(chunk) && Aligned(pa)
    modifies t.repr, pool
    ensures t.Valid() && fresh(t.repr - old(t.repr)) && old(t.repr) <= t.repr && pool !in t.repr
    ensures pool.avail + t.Tables() == old(pool.avail + t.Tables())
    ensures r.NoError? <==>
            Known(Mappable(old(next.view), level - 1, rem, rem + chunk, pa, attrs, old(pool.avail + next.Tables())))
    ensures r.NoError? ==> Known(Mapped(old(next.view), next.view, level - 1, rem, rem + chunk, pa, attrs))
    ensures !r.NoError? ==> Known(SameTable(old(next.view), next.view, level - 1))
    ensures t.view == old(t.view)[index := Table(next.view)]
    decreases level, 0, 0
  {
    assert t.EntryOk(index);
    BlockStep(level - 1);
    r := MapPt(next, pool, level - 1, rem, pa, chunk, attrs);
    SiblingsKept(t, index);
    CountUpdate(t.view, index, Table(next.view), |t.view|);
    SetEntry(t, index, Next(next), Table(next.view));
  }

  /** One turn, starting after [lo, rel) of the table that was `v` has been mapped. */
  method MapTurn(t: PageTable, pool: PagePool, level: nat, rel: nat, pa: nat, size: nat, attrs: nat,
                 ghost v: seq<Tree>, ghost lo: nat, ghost pa0: nat) returns (ok: bool, chunk: nat)
    requires t.Valid() && level == t.level && pool !in t.repr && |v| == t.pte.Length
    requires 0 < size && rel + size <= Times(t.pte.Length, Block(level))
    requires lo <= rel && (rel == lo || Multiple(rel, Block(level))) && pa == pa0 + (rel - lo)
    requires Aligned(rel) && Aligned(pa) && Aligned(size)
    requires Known(Mapped(v, t.view, level, lo, rel, pa0, attrs))
    modifies t.repr, pool
    ensures t.Valid() && fresh(t.repr - old(t.repr)) && old(t.repr) <= t.repr && pool !in t.repr
    ensures pool.avail + t.Tables() == old(pool.avail + t.Tables())
    ensures 0 < chunk <= size && Aligned(rel + chunk) && Aligned(pa + chunk) && Aligned(size - chunk)
    ensures chunk < size ==> Multiple(rel + chunk, Block(level))
    ensures ok ==> Known(Mapped(v, t.view, level, lo, rel + chunk, pa0, attrs))
    ensures !ok ==> WFs(t.view, level) && Known(SameTable(v, Clear(t.view, level, lo, rel), level))
    ensures !ok ==> !Known(Mappable(v, level, lo, rel + size, pa0, attrs, old(pool.avail + t.Tables())))
    decreases level, 0, 3
  {
    ghost var w, avail := t.view, pool.avail;
    var rem, index, c := Split(rel, size, level, t.pte.Length, lo);
    chunk := c;
    AlignedSplit(level, index, rem, rel, chunk, size, pa);
    var r := MapEntry(t, pool, level, index, rem, chunk, pa, attrs);
    ok := r.NoError?;
    if ok {
      TurnTaken(v, w, t.view, level, lo, rel, chunk, index, pa0, attrs);
    } else {
      TurnRefused(v, w, level, lo, rel, chunk, index, pa0, attrs, rel + size, avail);
      TurnRolledBack(v, w, t.view, level, lo, rel, chunk, index, pa0, attrs);
    }
  }

  /** The loop of arm64_mmu_map_pt, up to its end or the first refused turn. */
  method MapRange(t: PageTable, pool: PagePool, level: nat, relIn: nat, paIn: nat, sizeIn: nat, attrs: nat)
    returns (ok: bool, rel: nat)
    requires t.Valid() && level == t.level && pool !in t.repr
    requires relIn + sizeIn <= Times(t.pte.Length, Block(level))
    requires Aligned(relIn) && Aligned(paIn) && Aligned(sizeIn)
    requires Known(Mapped(t.view, t.view, level, relIn, relIn, paIn, attrs))
    modifies t.repr, pool
    ensures t.Valid() && fresh(t.repr - old(t.repr)) && old(t.repr) <= t.repr && pool !in t.repr
    ensures pool.avail + t.Tables() == old(pool.avail + t.Tables())
    ensures relIn <= rel <= relIn + sizeIn
    ensures ok ==> Known(Mapped(old(t.view), t.view, level, relIn, relIn + sizeIn, paIn, attrs))
    ensures !ok ==> WFs(t.view, level) && Known(SameTable(old(t.view), Clear(t.view, level, relIn, rel), level))
    ensures !ok ==> !Known(Mappable(old(t.view), level, relIn, relIn + sizeIn, paIn, attrs,
                                    old(pool.avail + t.Tables())))
    decreases level, 0, 4
  {
    ghost var v := t.view;
    var pa: nat, size: nat := paIn, sizeIn;
    rel := relIn;
    while size > 0
      invariant t.Valid() && fresh(t.repr - old(t.repr)) && old(t.repr) <= t.repr && pool !in t.repr
      invariant rel + size == relIn + sizeIn && relIn <= rel && pa == paIn + (rel - relIn)
      invariant Aligned(rel) && Aligned(pa) && Aligned(size)
      invariant size == 0 || rel == relIn || Multiple(rel, Block(level))
      invariant Known(Mapped(v, t.view, level, relIn, rel, paIn, attrs))
      invariant pool.avail + t.Tables() == old(pool.avail + t.Tables())
      decreases size
    {
      var taken, chunk := MapTurn(t, pool, level, rel, pa, size, attrs, v, relIn, paIn);
      if !taken { return false, rel; }
      rel, pa, size := rel + chunk, pa + chunk, size - chunk;
    }
    return true, rel;
  }

  /** arm64_mmu_map_pt.  It succeeds exactly when the arguments are page aligned, no
      entry is in the way and the pool holds the tables needed; on any failure the
      rollback leaves every translation as it was. */
  method MapPt(t: PageTable, pool: PagePool, level: nat, relIn: nat, paIn: nat, sizeIn: nat, attrs: nat)
    returns (r: Status)
    requires t.Valid() && level == t.level && pool !in t.repr
    requires relIn + sizeIn <= Times(t.pte.Length, Block(level))
    modifies t.repr, pool
    ensures t.Valid() && fresh(t.repr - old(t.repr)) && old(t.repr) <= t.repr && pool !in t.repr
    ensures pool.avail + t.Tables() == old(pool.avail + t.Tables())
    ensures r.NoError? <==>
            && Aligned(relIn) && Aligned(paIn) && Aligned(sizeIn)
            && Known(Mappable(old(t.view), level, relIn, relIn + sizeIn, paIn, attrs, old(pool.avail + t.Tables())))
    ensures r.NoError? ==> Known(Mapped(old(t.view), t.view, level, relIn, relIn + sizeIn, paIn, attrs))
    ensures !r.NoError? ==> Known(SameTable(old(t.view), t.view, level))
    decreases level, 1
  {
    t.ValidWF();
    ghost var v, total := t.view, pool.avail + t.Tables();
    NothingMapped(v, level, relIn, paIn, attrs);
    if !(Aligned(relIn) && Aligned(paIn) && Aligned(sizeIn)) {
      return ErrInvalidArgs;
    }
    var ok, rel := MapRange(t, pool, level, relIn, paIn, sizeIn, attrs);
    if !ok {
      UnmapPt(t, pool, level, relIn, rel - relIn);
      return ErrGeneric;
    }
    AllMapped(v, t.view, level, relIn, relIn + sizeIn, paIn, attrs, total);
    return NoError;
  }

  // --------------------------------------------------------- entry points

  const TWO64: nat := 0x1_0000_0000_0000_0000

  /** Unsigned 64-bit subtraction. */
  function Sub64(x: nat, y: nat): nat { (x - y) % TWO64 }

  /** The range check of both functions, wrap-around included. */
  predicate OutOfSpace(rel: nat, size: nat, max: nat) {
    rel > Sub64(max, size) || size > max
  }

  lemma OutOfSpaceIs(rel: nat, size: nat, max: nat)
    requires rel < TWO64 && size < TWO64 && max < TWO64
    ensures OutOfSpace(rel, size, max) <==> rel + size > max
  {
  }

  /** The flat map after mapping [rel, rel + size) to `pa` over `v`. */
  ghost predicate MapsExactly(v: seq<Tree>, w: seq<Tree>, l: nat, rel: nat, size: nat, pa: nat, attrs: nat) {
    && |v| == |w| && WFs(v, l) && WFs(w, l)
    && forall a: nat | a < Times(|v|, Block(l)) ::
         && (InRange(rel, rel + size, a) ==> Lookup(v, l, a).None?)
         && Lookup(w, l, a) == if InRange(rel, rel + size, a) then Some((pa + (a - rel), attrs)) else Lookup(v, l, a)
  }

  lemma MappedIsExact(v: seq<Tree>, w: seq<Tree>, l: nat, rel: nat, size: nat, pa: nat, attrs: nat)
    requires Known(Mapped(v, w, l, rel, rel + size, pa, attrs))
    ensures MapsExactly(v, w, l, rel, size, pa, attrs)
  {
    Unseal(Mapped(v, w, l, rel, rel + size, pa, attrs));
    FillWF(v, l, rel, rel + size, pa, attrs);
    forall a: nat | a < Times(|v|, Block(l))
      ensures InRange(rel, rel + size, a) ==> Lookup(v, l, a).None?
      ensures Lookup(w, l, a) == if InRange(rel, rel + size, a) then Some((pa + (a - rel), attrs)) else Lookup(v, l, a)
    {
      FillTranslate(v, l, rel, rel + size, pa, attrs, a);
    }
  }

  /** Which entries a map has made: each address of the range has the largest block around it that fits,
      and over tables that all have an entry, so have the new ones, and unmapping brings back the old. */
  ghost predicate MapsWell(v: seq<Tree>, w: seq<Tree>, l: nat, rel: nat, size: nat, pa: nat) {
    && WFs(w, l) && |w| == |v|
    && (forall a: nat | a < Times(|w|, Block(l)) && InRange(rel, rel + size, a) ::
          LeafLevel(w, l, a).Some? && Largest(LeafLevel(w, l, a).value, l, rel, rel + size, pa, a))
    && (TidyAll(v) ==> TidyAll(w) && Clear(w, l, rel, rel + size) == v)
  }

  lemma MappedWell(v: seq<Tree>, w: seq<Tree>, l: nat, rel: nat, size: nat, pa: nat, attrs: nat)
    requires Known(Mapped(v, w, l, rel, rel + size, pa, attrs))
    ensures MapsWell(v, w, l, rel, size, pa)
  {
    Unseal(Mapped(v, w, l, rel, rel + size, pa, attrs));
    FillWF(v, l, rel, rel + size, pa, attrs);
    forall a: nat | a < Times(|w|, Block(l)) && InRange(rel, rel + size, a)
      ensures LeafLevel(w, l, a).Some? && Largest(LeafLevel(w, l, a).value, l, rel, rel + size, pa, a)
    {
      FillLargest(v, l, rel, rel + size, pa, attrs, a);
    }
    if TidyAll(v) {
      FillTidy(v, l, rel, rel + size, pa, attrs);
      ComesBack(v, l, rel, rel + size, pa, attrs);
    }
  }

  /** Over tables that all have an entry, a map succeeds exactly if no address of the range is mapped
      and there are enough pages for the tables. */
  lemma MappableIff(v: seq<Tree>, l: nat, rel: nat, size: nat, pa: nat, attrs: nat, total: nat)
    requires WFs(v, l) && TidyAll(v) && Aligned(rel) && Aligned(pa) && Aligned(size)
    ensures Holds(Mappable(v, l, rel, rel + size, pa, attrs, total)) <==>
            FreeRange(v, l, rel, rel + size) && CountTo(Fill(v, l, rel, rel + size, pa, attrs), |v|) <= total
  {
    MultipleAdd(rel, size, Page());
    FillOkIff(v, l, rel, rel + size, pa);
  }

  /** What a failed map leaves: every translation as it was, and over tables that all have an entry
      at most one new table for each level. */
  ghost predicate MapsNothing(v: seq<Tree>, w: seq<Tree>, l: nat) {
    SameMeaning(v, w, l) && (TidyAll(v) ==> Leftover(v, w, l) && CountTo(w, |w|) <= CountTo(v, |v|) + l)
  }

  lemma SameTableMapsNothing(v: seq<Tree>, w: seq<Tree>, l: nat)
    requires Known(SameTable(v, w, l))
    ensures MapsNothing(v, w, l)
  {
    Unseal(SameTable(v, w, l));
    if TidyAll(v) { LeftoverCount(v, w, l); }
  }

  lemma UnchangedMapsNothing(v: seq<Tree>, l: nat)
    requires WFs(v, l)
    ensures MapsNothing(v, v, l)
  {
  }

  /** Map and unmap the range again, and over tables that all have an entry the pool is what it was:
      `avail` before, in between and after, the sum with the tables being kept by both. */
  lemma PoolComesBack(v: seq<Tree>, w: seq<Tree>, l: nat, rel: nat, size: nat, pa: nat, avail: seq<nat>)
    requires TidyAll(v) && MapsWell(v, w, l, rel, size, pa) && |avail| == 3
    requires avail[0] + CountTo(v, |v|) == avail[1] + CountTo(w, |w|)
    requires avail[1] + CountTo(w, |w|) == avail[2] + CountTo(Clear(w, l, rel, rel + size), |w|)
    ensures avail[2] == avail[0]
  {
  }

  /** arm64_mmu_map */
  method Map64(t: PageTable?, pool: PagePool, vaddr: nat, pa: nat, size: nat, attrs: nat,
               base: nat, topSizeShift: nat, level: nat) returns (r: Status)
    requires vaddr < TWO64 && base < TWO64 && size < TWO64 && Pow2(topSizeShift) < TWO64
    requires t != null ==> t.Valid() && level == t.level && pool !in t.repr
    requires t != null ==> Times(t.pte.Length, Block(level)) == Pow2(topSizeShift)
    modifies if t == null then {} else t.repr, pool
    ensures t != null ==> t.Valid() && fresh(t.repr - old(t.repr))
    ensures t != null ==> pool.avail + t.Tables() == old(pool.avail + t.Tables())
    ensures t == null ==> r == ErrInvalidArgs
    ensures t != null ==> (r.NoError? <==>
              && Sub64(vaddr, base) + size <= Pow2(topSizeShift)
              && Aligned(Sub64(vaddr, base)) && Aligned(pa) && Aligned(size)
              && Holds(Mappable(old(t.view), level, Sub64(vaddr, base), Sub64(vaddr, base) + size, pa, attrs,
                                old(pool.avail + t.Tables()))))
    ensures t != null && r.NoError? ==> MapsExactly(old(t.view), t.view, level, Sub64(vaddr, base), size, pa, attrs)
    ensures t != null && r.NoError? ==> MapsWell(old(t.view), t.view, level, Sub64(vaddr, base), size, pa)
    ensures t != null && !r.NoError? ==> MapsNothing(old(t.view), t.view, level)
  {
    var rel, max := Sub64(vaddr, base), Pow2(topSizeShift);
    OutOfSpaceIs(rel, size, max);
    if OutOfSpace(rel, size, max) || t == null {
      if t != null {
        t.ValidWF();
        UnchangedMapsNothing(t.view, level);
      }
      return ErrInvalidArgs;
    }
    ghost var v, total := t.view, pool.avail + t.Tables();
    r := MapPt(t, pool, level, rel, pa, size, attrs);
    Unseal(Mappable(v, level, rel, rel + size, pa, attrs, total));
    if r.NoError? {
      MappedIsExact(v, t.view, level, rel, size, pa, attrs);
      MappedWell(v, t.view, level, rel, size, pa, attrs);
    } else {
      SameTableMapsNothing(v, t.view, level);
    }
  }

  /** The flat map after unmapping exactly [rel, rel + size) from `v`. */
  ghost predicate UnmapsExactly(v: seq<Tree>, w: seq<Tree>, l: nat, rel: nat, size: nat) {
    && |v| == |w| && WFs(v, l) && WFs(w, l)
    && forall a: nat | a < Times(|v|, Block(l)) ::
         Lookup(w, l, a) == if InRange(rel, rel + size, a) then None else Lookup(v, l, a)
  }

  /** What an unmap leaves: exactly the range is gone if and only if no block is cut, no table it has met
      is without an entry, and none anywhere if none was; after unmapping everything there is no table. */
  ghost predicate UnmapsWell(v: seq<Tree>, w: seq<Tree>, l: nat, rel: nat, size: nat) {
    && |w| == |v| && WFs(v, l) && WFs(w, l)
    && (UnmapsExactly(v, w, l, rel, size) <==> NoSplit(v, l, rel, rel + size))
    && NoneLeft(w, l, rel, rel + size) && (TidyAll(v) ==> TidyAll(w))
    && (rel == 0 && size == Times(|v|, Block(l)) ==> AllEmpty(w) && CountTo(w, |w|) == 0)
  }

  lemma ClearedWell(v: seq<Tree>, l: nat, rel: nat, size: nat)
    requires WFs(v, l)
    ensures UnmapsWell(v, Clear(v, l, rel, rel + size), l, rel, size)
  {
    UnmapExactIffNoSplit(v, l, rel, rel + size);
    ClearLeavesNone(v, l, rel, rel + size);
    if TidyAll(v) { ClearTidy(v, l, rel, rel + size); }
    if rel == 0 && size == Times(|v|, Block(l)) { UnmapAllFreesEverything(v, l); }
  }

  /** arm64_mmu_unmap */
  method Unmap64(t: PageTable?, pool: PagePool, vaddr: nat, size: nat,
                 base: nat, topSizeShift: nat, level: nat) returns (r: Status)
    requires vaddr < TWO64 && base < TWO64 && size < TWO64 && Pow2(topSizeShift) < TWO64
    requires t != null ==> t.Valid() && level == t.level && pool !in t.repr
    requires t != null ==> Times(t.pte.Length, Block(level)) == Pow2(topSizeShift)
    modifies if t == null then {} else t.repr, pool
    ensures t != null ==> t.Valid() && t.repr == old(t.repr) && WFs(old(t.view), level)
    ensures t != null ==> pool.avail + t.Tables() == old(pool.avail + t.Tables())
    ensures r.NoError? <==> t != null && Sub64(vaddr, base) + size <= Pow2(topSizeShift)
    ensures t != null ==> t.view == if r.NoError?
                                    then Clear(old(t.view), level, Sub64(vaddr, base), Sub64(vaddr, base) + size)
                                    else old(t.view)
    ensures t != null && r.NoError? ==> UnmapsWell(old(t.view), t.view, level, Sub64(vaddr, base), size)
  {
    var rel, max := Sub64(vaddr, base), Pow2(topSizeShift);
    OutOfSpaceIs(rel, size, max);
    if OutOfSpace(rel, size, max) || t == null {
      if t != null { t.ValidWF(); }
      return ErrInvalidArgs;
    }
    ghost var v := t.view;
    UnmapPt(t, pool, level, rel, size);
    ClearedWell(v, level, rel, size);
    return NoError;
  }

  /** arch_mmu_query over the address space [base, base + size) */
  method Query(t: PageTable, topLevel: nat, base: nat, size: nat, vaddr: nat) returns (r: Status, pa: nat, attrs: nat)
    requires t.Valid() && topLevel == t.level && vaddr < Times(t.pte.Length, Block(topLevel))
    ensures WFs(t.view, topLevel)
    ensures !(base <= vaddr < base + size) <==> r == ErrOutOfRange
    ensures r != ErrOutOfRange ==> match Lookup(t.view, topLevel, vaddr)
                                   case None => r == ErrNotFound
                                   case Some((p, x)) => r == NoError && pa == p && attrs == x
  {
    t.ValidWF();
    pa, attrs := 0, 0;
    if !(vaddr >= base && vaddr <= base + size - 1) { return ErrOutOfRange, 0, 0; }
    var table, level, rem: nat := t, topLevel, vaddr;
    while true
      invariant table.Valid() && level == table.level && rem < Times(table.pte.Length, Block(level))
      invariant WFs(table.view, level)
      invariant Lookup(table.view, level, rem) == Lookup(t.view, topLevel, vaddr)
      decreases level
    {
      var index, off := DivMod(rem, BlockSize(level));
      BlockIs(level);
      IndexUnique(rem, Block(level), index);
      DivBound(rem, Block(level), table.pte.Length);
      assert table.EntryOk(index);
      match table.pte[index]
      case Invalid => return ErrNotFound, 0, 0;
      case Leaf(p, x) => return NoError, p + off, x;
      case Next(c) =>
        c.ValidWF();
        BlockStep(level - 1);
        table, rem := c, off;
        level := level - 1;
    }
  }
}
