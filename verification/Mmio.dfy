/** The per-VM index of MMIO ranges: hv/hv_mmio.c over the tree of hv/utils/rbtree.c. */
module Mmio {
  import opened RbTree

  const TWO64: nat := 0x1_0000_0000_0000_0000

  datatype Status = NoError | ErrNoMemory | ErrAlreadyExists

  /** `addr + len` as the source computes it. */
  function End(addr: nat, len: nat): nat { (addr + len) % TWO64 }

  /** A range that stays clear of the end of the address space. */
  predicate Proper(addr: nat, len: nat) { addr + len < TWO64 }

  ghost predicate Overlap(n: Node, addr: nat, len: nat) {
    n.start < addr + len && addr < n.start + n.len
  }

  ghost predicate Covers(n: Node, addr: nat, len: nat) {
    n.start <= addr && addr + len <= n.start + n.len
  }

  /** The registered ranges: proper, disjoint and in address order. */
  ghost predicate Sorted(s: seq<Node>) {
    && (forall i | 0 <= i < |s| :: Proper(s[i].start, s[i].len))
    && (forall i, j | 0 <= i < j < |s| :: s[i].start + s[i].len <= s[j].start)
  }

  ghost predicate Below(s: seq<Node>, addr: nat) { forall n | n in s :: n.start + n.len <= addr }
  ghost predicate Beyond(s: seq<Node>, end: nat) { forall n | n in s :: end <= n.start }

  /** What the search for [addr, addr + len) knows about the part of the tree it has left behind. */
  ghost predicate Narrowed(c: Ctx, t: T, addr: nat, len: nat) {
    Sorted(Whole(c, t)) && Proper(addr, len) ==> Below(Before(c), addr) && Beyond(After(c), addr + len)
  }

  /** The walk stops at a node it can pass on neither side. */
  predicate Refused(n: Node, addr: nat, len: nat) {
    !(End(addr, len) <= n.start) && !(addr >= End(n.start, n.len))
  }

  /** The answer of mmio_space_find at the node where its walk stops. */
  predicate FoundIn(n: Node, addr: nat, len: nat) {
    Refused(n, addr, len) && n.start <= addr && End(addr, len) <= End(n.start, n.len)
  }

  ghost predicate NoneRefused(s: seq<Node>, addr: nat, len: nat) { forall n | n in s :: !Refused(n, addr, len) }

  /** What any search, wrapping or not, knows about the part of the tree it has left behind. */
  ghost predicate Passed(c: Ctx, t: T, addr: nat, len: nat) {
    Sorted(Whole(c, t)) ==> NoneRefused(Before(c), addr, len) && NoneRefused(After(c), addr, len)
  }

  lemma SortedParts(a: seq<Node>, l: seq<Node>, n: Node, r: seq<Node>, b: seq<Node>)
    requires Sorted(a + (l + [n] + r) + b)
    ensures Proper(n.start, n.len)
    ensures Below(l, n.start) && Beyond(r, n.start + n.len)
  {
    var s := a + (l + [n] + r) + b;
    var i := |a| + |l|;
    assert s[i] == n;
    forall m | m in l ensures m.start + m.len <= n.start {
      var j :| 0 <= j < |l| && l[j] == m;
      assert s[|a| + j] == m;
    }
    forall m | m in r ensures n.start + n.len <= m.start {
      var j :| 0 <= j < |r| && r[j] == m;
      assert s[i + 1 + j] == m;
    }
  }

  /** Turning left or right at a node keeps what the search knows. */
  lemma NarrowLeft(c: Ctx, t: T, addr: nat, len: nat)
    requires t.Br? && Narrowed(c, t, addr, len) && End(addr, len) <= t.node.start
    ensures Narrowed(InL(t.node, t.red, c, t.r), t.l, addr, len)
  {
    var c' := InL(t.node, t.red, c, t.r);
    Focus(c', t.l, null);
    WholeIs(c, t);
    if Sorted(Whole(c, t)) && Proper(addr, len) {
      SortedParts(Before(c), Flat(t.l), t.node, Flat(t.r), After(c));
    }
  }

  lemma NarrowRight(c: Ctx, t: T, addr: nat, len: nat)
    requires t.Br? && Narrowed(c, t, addr, len) && addr >= End(t.node.start, t.node.len)
    ensures Narrowed(InR(t.node, t.red, c, t.l), t.r, addr, len)
  {
    var c' := InR(t.node, t.red, c, t.l);
    Focus(c', t.r, null);
    WholeIs(c, t);
    if Sorted(Whole(c, t)) && Proper(addr, len) {
      SortedParts(Before(c), Flat(t.l), t.node, Flat(t.r), After(c));
    }
  }

  lemma PassLeft(c: Ctx, t: T, addr: nat, len: nat)
    requires t.Br? && Passed(c, t, addr, len) && End(addr, len) <= t.node.start
    ensures Passed(InL(t.node, t.red, c, t.r), t.l, addr, len)
  {
    var c' := InL(t.node, t.red, c, t.r);
    Focus(c', t.l, null);
    WholeIs(c, t);
    if Sorted(Whole(c, t)) {
      SortedParts(Before(c), Flat(t.l), t.node, Flat(t.r), After(c));
      forall n | n in After(c') ensures !Refused(n, addr, len) {
        assert n == t.node || n in Flat(t.r) || n in After(c);
      }
    }
  }

  lemma PassRight(c: Ctx, t: T, addr: nat, len: nat)
    requires t.Br? && Passed(c, t, addr, len) && addr >= End(t.node.start, t.node.len)
    ensures Passed(InR(t.node, t.red, c, t.l), t.r, addr, len)
  {
    var c' := InR(t.node, t.red, c, t.l);
    Focus(c', t.r, null);
    WholeIs(c, t);
    if Sorted(Whole(c, t)) {
      SortedParts(Before(c), Flat(t.l), t.node, Flat(t.r), After(c));
      LeftEnds(Before(c), Flat(t.l), t.node, Flat(t.r), After(c));
      forall n | n in Before(c') ensures !Refused(n, addr, len) {
        assert n == t.node || n in Flat(t.l) || n in Before(c);
      }
    }
  }

  lemma LeftEnds(a: seq<Node>, l: seq<Node>, n: Node, r: seq<Node>, b: seq<Node>)
    requires Sorted(a + (l + [n] + r) + b)
    ensures forall m | m in l :: Proper(m.start, m.len)
  {
    forall m | m in l ensures Proper(m.start, m.len) {
      var j :| 0 <= j < |l| && l[j] == m;
      assert (a + (l + [n] + r) + b)[|a| + j] == m;
    }
  }

  /** At an empty link nothing stopped the walk. */
  lemma NothingRefused(c: Ctx, addr: nat, len: nat)
    requires Passed(c, Leaf, addr, len) && Sorted(Whole(c, Leaf))
    ensures NoneRefused(Whole(c, Leaf), addr, len)
  {
    WholeIs(c, Leaf);
  }

  /** Where the walk stops is the only place a lookup can succeed. */
  lemma FoundHereOnly(c: Ctx, t: T, addr: nat, len: nat)
    requires t.Br? && Sorted(Whole(c, t)) && Refused(t.node, addr, len)
    ensures t.node in Whole(c, t)
    ensures forall m | m in Whole(c, t) && FoundIn(m, addr, len) :: m == t.node
  {
    WholeIs(c, t);
    var s, n := Whole(c, t), t.node;
    var k := |Before(c)| + |Flat(t.l)|;
    assert s[k] == n;
    forall m | m in s && m != n ensures !FoundIn(m, addr, len) {
      var j :| 0 <= j < |s| && s[j] == m;
      FoundApart(s, k, j, addr, len);
    }
  }

  lemma FoundApart(s: seq<Node>, k: nat, j: nat, addr: nat, len: nat)
    requires Sorted(s) && k < |s| && j < |s| && k != j && Refused(s[k], addr, len)
    ensures !FoundIn(s[j], addr, len)
  {
  }

  lemma NothingMeets(c: Ctx, addr: nat, len: nat)
    requires Narrowed(c, Leaf, addr, len) && Sorted(Whole(c, Leaf)) && Proper(addr, len)
    ensures forall n | n in Whole(c, Leaf) :: !Overlap(n, addr, len)
    ensures 0 < len ==> forall n | n in Whole(c, Leaf) :: !Covers(n, addr, len)
  {
    WholeIs(c, Leaf);
  }

  /** A free range fits in its place. */
  lemma SortedInsert(c: Ctx, n: Node)
    requires Narrowed(c, Leaf, n.start, n.len) && Sorted(Whole(c, Leaf)) && Proper(n.start, n.len)
    ensures Sorted(Whole(c, Br(n, true, Leaf, Leaf)))
  {
    WholeIs(c, Leaf);
    WholeIs(c, Br(n, true, Leaf, Leaf));
    var (a, b) := (Before(c), After(c));
    var s, s' := a + [] + b, a + ([] + [n] + []) + b;
    forall i, j | 0 <= i < j < |s'| ensures s'[i].start + s'[i].len <= s'[j].start {
      if i < |a| { assert s'[i] == s[i] == a[i]; } else if i > |a| { assert s'[i] == s[i - 1] == b[i - |a| - 1]; }
      if j < |a| { assert s'[j] == s[j] == a[j]; } else if j > |a| { assert s'[j] == s[j - 1] == b[j - |a| - 1]; }
    }
    forall i | 0 <= i < |s'| ensures Proper(s'[i].start, s'[i].len) {
      if i < |a| { assert s'[i] == s[i]; } else if i > |a| { assert s'[i] == s[i - 1]; }
    }
  }

  /** At most one registered range covers a given access. */
  lemma CoverUnique(s: seq<Node>, n: Node, m: Node, addr: nat, len: nat)
    requires Sorted(s) && n in s && m in s && 0 < len && Covers(n, addr, len) && Covers(m, addr, len)
    ensures n == m
  {
    var i :| 0 <= i < |s| && s[i] == n;
    var j :| 0 <= j < |s| && s[j] == m;
  }

  /** A node is where the search stops: it meets the range. */
  lemma StopsHere(c: Ctx, t: T, addr: nat, len: nat)
    requires t.Br? && Sorted(Whole(c, t)) && Proper(addr, len)
    requires !(End(addr, len) <= t.node.start) && !(addr >= End(t.node.start, t.node.len))
    ensures Overlap(t.node, addr, len) && t.node in Whole(c, t)
    ensures Covers(t.node, addr, len) <==> addr >= t.node.start && End(addr, len) <= End(t.node.start, t.node.len)
    ensures 0 < len && !Covers(t.node, addr, len) ==> forall n | n in Whole(c, t) :: !Covers(n, addr, len)
  {
    WholeIs(c, t);
    SortedParts(Before(c), Flat(t.l), t.node, Flat(t.r), After(c));
    var s, n := Whole(c, t), t.node;
    var k := |Before(c)| + |Flat(t.l)|;
    assert s[k] == n;
    forall m | m in s && m != n && 0 < len ensures !Covers(m, addr, len) {
      var j :| 0 <= j < |s| && s[j] == m;
      assert j < k ==> m.start + m.len <= n.start;
      assert j > k ==> n.start + n.len <= m.start;
    }
  }

  class Space {
    const tree: Tree

    ghost predicate Valid()
      reads this, tree, Nodes(tree.t)
    {
      tree.Valid() && RB(tree.t)
    }

    /** The registered ranges in address order. */
    ghost function Ranges(): seq<Node>
      reads this, tree
    {
      Flat(tree.t)
    }

    constructor ()
      ensures Valid() && Ranges() == [] && fresh(tree)
    {
      tree := new Tree();
      new;
      assert IsRB(Leaf, 0) && RB(Leaf) && Flat(Leaf) == [];
      Unzip(Top, Leaf, null);
    }

    /** hv_mmio_register; `memory` is whether malloc succeeds. */
    method Register(addr: nat, len: nat, memory: bool) returns (r: Status)
      requires Valid() && addr < TWO64 && len < TWO64
      modifies tree, Nodes(tree.t)
      ensures Valid()
      ensures r == ErrNoMemory <==> !memory
      ensures r != NoError ==> Ranges() == old(Ranges())
      ensures r == NoError ==> exists i: nat, n: Node ::
                && i <= |old(Ranges())| && n !in old(Ranges()) && n.start == addr && n.len == len
                && Ranges() == old(Ranges())[..i] + [n] + old(Ranges())[i..]
      ensures old(Sorted(Ranges())) && memory ==>
                (r == ErrAlreadyExists <==> exists n | n in old(Ranges()) :: Refused(n, addr, len))
      ensures old(Sorted(Ranges())) && Proper(addr, len) && memory ==>
                (r == ErrAlreadyExists <==> exists n | n in old(Ranges()) :: Overlap(n, addr, len))
      ensures old(Sorted(Ranges())) ==> (Sorted(Ranges()) <==> r != NoError || Proper(addr, len))
    {
      if !memory { return ErrNoMemory; }
      TreeAllocated(tree.t);
      var item := new Node(addr, len);
      var hit, parent, isLeft, c, k, h := Descend(addr, len);
      AllIs(c, k);
      if hit != null {
        if Sorted(Ranges()) {
          FoundHereOnly(c, k, addr, len);
          if Proper(addr, len) { StopsHere(c, k, addr, len); }
        }
        return ErrAlreadyExists;
      }
      ghost var s := Ranges();
      Attach(item, parent, isLeft, c, h);
      Inserted(c, item, s);
      if Sorted(s) { NothingRefused(c, addr, len); }
      assert Ranges() == s[..|Before(c)|] + [item] + s[|Before(c)|..] && item !in s by { NotListed(c, item, s); }
      assert Ranges()[|Before(c)|] == item;
      return NoError;
    }

    /** mmio_space_find */
    method Find(addr: nat, len: nat) returns (hit: Node?)
      requires Valid() && addr < TWO64 && len < TWO64
      ensures Sorted(Ranges()) ==> (hit == null <==> forall n | n in Ranges() :: !FoundIn(n, addr, len))
      ensures Sorted(Ranges()) && hit != null ==> hit in Ranges() && FoundIn(hit, addr, len)
      ensures Sorted(Ranges()) && Proper(addr, len) && 0 < len ==>
                (hit == null <==> forall n | n in Ranges() :: !Covers(n, addr, len))
      ensures Sorted(Ranges()) && Proper(addr, len) && 0 < len && hit != null ==> hit in Ranges() && Covers(hit, addr, len)
    {
      var node, parent, isLeft, c, k, h := Descend(addr, len);
      if Sorted(Ranges()) {
        if k.Br? { FoundHereOnly(c, k, addr, len); } else { NothingRefused(c, addr, len); }
        if Proper(addr, len) {
          if k.Br? { StopsHere(c, k, addr, len); } else { NothingMeets(c, addr, len); }
        }
      }
      if node != null && addr >= node.start && End(addr, len) <= End(node.start, node.len) {
        return node;
      }
      return null;
    }

    /** The walk down both functions share: to an empty link, or to the first node that
        is neither wholly after nor wholly before the range. */
    method Descend(addr: nat, len: nat)
      returns (hit: Node?, parent: Node?, isLeft: bool, ghost c: Ctx, ghost k: T, ghost h: nat)
      requires Valid()
      ensures Zip(c, k, tree.root) && Settled(c, k, h) && Narrowed(c, k, addr, len) && Passed(c, k, addr, len)
      ensures Whole(c, k) == Ranges() && All(c, k) == Nodes(tree.t)
      ensures hit == Root(k) && parent == Above(c) && (!c.Top? ==> isLeft == c.InL?)
      ensures hit != null ==> !(End(addr, len) <= hit.start) && !(addr >= End(hit.start, hit.len))
    {
      ghost var h0: nat :| IsRB(tree.t, h0);
      c, k, h := Top, tree.t, h0;
      hit, parent, isLeft := tree.root, null, false;
      AllIs(c, k);
      WholeIs(c, k);
      Peek(c, k, tree.root);
      while hit != null
        invariant Zip(c, k, tree.root) && Settled(c, k, h) && Narrowed(c, k, addr, len) && Passed(c, k, addr, len)
        invariant Whole(c, k) == Ranges() && All(c, k) == Nodes(tree.t)
        invariant hit == Root(k) && parent == Above(c) && (!c.Top? ==> isLeft == c.InL?)
        decreases k
      {
        Peek(c, k, tree.root);
        if End(addr, len) <= hit.start {
          NarrowLeft(c, k, addr, len);
          PassLeft(c, k, addr, len);
          h := StepDown(c, k, h);
          c, k := InL(k.node, k.red, c, k.r), k.l;
          parent, isLeft, hit := hit, true, hit.left;
        } else if addr >= End(hit.start, hit.len) {
          NarrowRight(c, k, addr, len);
          PassRight(c, k, addr, len);
          h := StepDown(c, k, h);
          c, k := InR(k.node, k.red, c, k.l), k.r;
          parent, isLeft, hit := hit, false, hit.right;
        } else {
          break;
        }
        Focus(c, k, tree.root);
      }
    }

    /** rb_link_node, then rb_insert_color. */
    method Attach(item: Node, parent: Node?, isLeft: bool, ghost c: Ctx, ghost h: nat)
      requires Zip(c, Leaf, tree.root) && Settled(c, Leaf, h) && item !in CNodes(c)
      requires parent == Above(c) && (!c.Top? ==> isLeft == c.InL?)
      modifies tree, item, CNodes(c)
      ensures Valid() && Ranges() == Whole(c, Br(item, true, Leaf, Leaf)) && Nodes(tree.t) == CNodes(c) + {item}
    {
      ghost var k := Br(item, true, Leaf, Leaf);
      assert COwn(c) <= CNodes(c);
      tree.LinkNode(item, parent, isLeft, c);
      AllIs(c, k);
      assert Nodes(k) == {item};
      tree.InsertColor(item, c, k, 0);
    }
  }

  lemma NotListed(c: Ctx, n: Node, s: seq<Node>)
    requires Whole(c, Leaf) == s && n !in CNodes(c)
    ensures n !in s
  {
    WholeIs(c, Leaf);
    Outside(c, n);
  }

  lemma {:induction false} Outside(c: Ctx, n: Node)
    requires n !in CNodes(c)
    ensures n !in Before(c) && n !in After(c)
  {
    if !c.Top? {
      Outside(c.up, n);
      NotInFlat(c.side, n);
    }
  }

  lemma {:induction false} NotInFlat(t: T, n: Node)
    requires n !in Nodes(t)
    ensures n !in Flat(t)
  {
    if t.Br? { NotInFlat(t.l, n); NotInFlat(t.r, n); }
  }

  /** The sequence grows by the new node and by nothing else. */
  lemma Inserted(c: Ctx, n: Node, s: seq<Node>)
    requires Whole(c, Leaf) == s
    ensures var s' := Whole(c, Br(n, true, Leaf, Leaf));
            |Before(c)| <= |s| && s' == s[..|Before(c)|] + [n] + s[|Before(c)|..]
    ensures Narrowed(c, Leaf, n.start, n.len) && Sorted(s) && Proper(n.start, n.len) ==>
              Sorted(Whole(c, Br(n, true, Leaf, Leaf))) && forall m | m in s :: !Overlap(m, n.start, n.len)
  {
    WholeIs(c, Leaf);
    WholeIs(c, Br(n, true, Leaf, Leaf));
    if Narrowed(c, Leaf, n.start, n.len) && Sorted(s) && Proper(n.start, n.len) {
      SortedInsert(c, n);
      NothingMeets(c, n.start, n.len);
    }
  }

  /** Against one registered range the walk's verdict is right exactly when the new range ends
      below 2^64, lies wholly above the registered one, or wraps round into it. A range that ends
      at 2^64 or beyond is otherwise taken to lie before the range it overlaps. */
  lemma WrapMissesOverlap(n: Node, addr: nat, len: nat)
    requires Proper(n.start, n.len) && addr < TWO64 && len < TWO64
    ensures (Refused(n, addr, len) <==> Overlap(n, addr, len))
       <==> Proper(addr, len) || addr >= n.start + n.len || n.start < End(addr, len)
  {
    if !Proper(addr, len) { assert End(addr, len) == addr + len - TWO64; }
  }

  /** The verdict on all registered ranges is right exactly when the new range ends below 2^64,
      lies above every one of them, or wraps round into one that also holds its first address. */
  lemma VerdictIff(s: seq<Node>, addr: nat, len: nat)
    requires Sorted(s) && addr < TWO64 && len < TWO64
    ensures ((exists n | n in s :: Refused(n, addr, len)) <==> (exists n | n in s :: Overlap(n, addr, len)))
       <==> || Proper(addr, len) || (forall n | n in s :: n.start + n.len <= addr)
            || (exists n | n in s :: n.start < End(addr, len) && addr < n.start + n.len)
  {
    assert !Proper(addr, len) ==> End(addr, len) == addr + len - TWO64;
    forall n | n in s
      ensures Refused(n, addr, len) <==> n.start < End(addr, len) && addr < n.start + n.len
      ensures Proper(addr, len) ==> (Refused(n, addr, len) <==> Overlap(n, addr, len))
      ensures !Proper(addr, len) ==> (Overlap(n, addr, len) <==> addr < n.start + n.len)
    {
      ProperEnd(s, n);
    }
  }

  lemma ProperEnd(s: seq<Node>, n: Node)
    requires Sorted(s) && n in s
    ensures Proper(n.start, n.len) && End(n.start, n.len) == n.start + n.len
  {
    var i :| 0 <= i < |s| && s[i] == n;
  }

  /** The first registered range is not seen by a range that starts in it and ends at 2^64. */
  lemma TopOfMemoryExample(n: Node)
    requires n.start == 0x1000 && n.len == 0x1000
    ensures Overlap(n, 0x1000, TWO64 - 0x1000) && !Refused(n, 0x1000, TWO64 - 0x1000)
  {
  }

  /** A lookup is answered rightly against one range exactly when the access ends below 2^64 and
      is not an empty one at an end of the range, or does not wrap round into it. */
  lemma FoundIffCovers(n: Node, addr: nat, len: nat)
    requires Proper(n.start, n.len) && addr < TWO64 && len < TWO64
    ensures (FoundIn(n, addr, len) <==> Covers(n, addr, len))
       <==> if Proper(addr, len) then !(len == 0 && (addr == n.start || addr == n.start + n.len)) else !Refused(n, addr, len)
  {
    if !Proper(addr, len) { assert End(addr, len) == addr + len - TWO64; }
  }
}
