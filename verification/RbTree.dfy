/** Parent-pointer red-black trees: hv/utils/rbtree.c, with the mmio_item of
    hv/hv_mmio.c around each rb_node.

    The heap is described by a value tree `T` and a one-hole context `Ctx` (the
    path from the root to the node being worked on): the loops of the source walk
    up that path, and every rotation rearranges the tree at its hole. */
module RbTree {
  import opened Multiples
  import opened Wrappers

  class Node {
    // mmio_item
    const start: nat
    const len: nat
    // rb_node
    var left: Node?
    var right: Node?
    var parent: Node?
    var red: bool

    constructor (start: nat, len: nat)
      ensures this.start == start && this.len == len
    {
      this.start, this.len := start, len;
      left, right, parent, red := null, null, null, true;
    }
  }

  datatype T = Leaf | Br(node: Node, red: bool, l: T, r: T)

  /** InL: the hole is the left child of `node`; InR: the right child. */
  datatype Ctx =
    | Top
    | InL(node: Node, red: bool, up: Ctx, side: T)
    | InR(node: Node, red: bool, up: Ctx, side: T)

  ghost function Root(t: T): Node? { if t.Leaf? then null else t.node }
  ghost function Above(c: Ctx): Node? { if c.Top? then null else c.node }

  ghost function Nodes(t: T): set<Node> {
    if t.Leaf? then {} else {t.node} + Nodes(t.l) + Nodes(t.r)
  }

  ghost function CNodes(c: Ctx): set<Node> {
    if c.Top? then {} else {c.node} + Nodes(c.side) + CNodes(c.up)
  }

  ghost function Plug(c: Ctx, t: T): T {
    match c
    case Top => t
    case InL(n, red, up, r) => Plug(up, Br(n, red, t, r))
    case InR(n, red, up, l) => Plug(up, Br(n, red, l, t))
  }

  // ------------------------------------------------------- in-order sequence

  ghost function Flat(t: T): seq<Node> {
    if t.Leaf? then [] else Flat(t.l) + [t.node] + Flat(t.r)
  }

  ghost function Before(c: Ctx): seq<Node> {
    match c
    case Top => []
    case InL(n, _, up, r) => Before(up)
    case InR(n, _, up, l) => Before(up) + Flat(l) + [n]
  }

  ghost function After(c: Ctx): seq<Node> {
    match c
    case Top => []
    case InL(n, _, up, r) => [n] + Flat(r) + After(up)
    case InR(n, _, up, l) => After(up)
  }

  lemma Assoc(a: seq<Node>, x: seq<Node>, b: seq<Node>, y: seq<Node>, c: seq<Node>)
    ensures a + x + (b + y + c) == a + x + b + y + c
  {
  }

  lemma Regroup(a: seq<Node>, b: seq<Node>, c: seq<Node>, d: seq<Node>)
    ensures a + (b + c) + d == a + b + (c + d) == (a + b) + c + d
  {
  }

  // ------------------------------------------------------------ separation

  ghost predicate Sep(t: T) {
    t.Br? ==> t.node !in Nodes(t.l) && t.node !in Nodes(t.r) && Nodes(t.l) !! Nodes(t.r) && Sep(t.l) && Sep(t.r)
  }

  /** The nodes of the context are distinct and none of them is in `s`. */
  ghost predicate SepC(c: Ctx, s: set<Node>) {
    !c.Top? ==>
      && c.node !in s && Nodes(c.side) !! s && c.node !in Nodes(c.side) && Sep(c.side)
      && SepC(c.up, s + {c.node} + Nodes(c.side))
  }

  lemma {:induction false} SepDisjoint(c: Ctx, s: set<Node>)
    requires SepC(c, s)
    ensures s !! CNodes(c)
  {
    if !c.Top? { SepDisjoint(c.up, s + {c.node} + Nodes(c.side)); }
  }

  lemma {:induction false} SepSub(c: Ctx, s: set<Node>, s': set<Node>)
    requires SepC(c, s) && s' <= s
    ensures SepC(c, s')
  {
    if !c.Top? { SepSub(c.up, s + {c.node} + Nodes(c.side), s' + {c.node} + Nodes(c.side)); }
  }

  /** Adding a node that is new to the tree. */
  lemma {:induction false} SepAdd(c: Ctx, s: set<Node>, n: Node)
    requires SepC(c, s) && n !in CNodes(c)
    ensures SepC(c, s + {n})
  {
    if !c.Top? {
      SepAdd(c.up, s + {c.node} + Nodes(c.side), n);
      assert s + {c.node} + Nodes(c.side) + {n} == s + {n} + {c.node} + Nodes(c.side);
    }
  }

  /** Every node of a value tree at hand is an allocated object. */
  lemma {:induction false} TreeAllocated(t: T)
    ensures forall n | n in Nodes(t) :: allocated(n)
  {
    if t.Br? { TreeAllocated(t.l); TreeAllocated(t.r); }
  }

  lemma {:induction false} CtxAllocated(c: Ctx)
    ensures forall n | n in CNodes(c) :: allocated(n)
  {
    if !c.Top? { TreeAllocated(c.side); CtxAllocated(c.up); }
  }

  // ------------------------------------------------------- the heap relation

  ghost function Own(t: T): set<Node> { if t.Leaf? then {} else {t.node} }
  ghost function Kids(t: T): set<Node> { if t.Leaf? then {} else Nodes(t.l) + Nodes(t.r) }

  /** The heap below `Root(t)` is the tree `t`, hanging below `p`. */
  ghost predicate Rep(t: T, p: Node?)
    reads Nodes(t)
    decreases t, 1
  {
    t.Br? ==> t.node.parent == p && Below(t)
  }

  /** The same but for the root's parent pointer. */
  ghost predicate Below(t: T)
    reads Own(t)`left, Own(t)`right, Own(t)`red, Kids(t)
    decreases t, 0
  {
    t.Br? ==>
      && t.node.left == Root(t.l) && t.node.right == Root(t.r) && t.node.red == t.red
      && Rep(t.l, t.node) && Rep(t.r, t.node)
  }

  /** The heap along the context: `hole` is the pointer in its hole, `top` the
      pointer that leads to its top node from `p`. */
  ghost predicate CRep(c: Ctx, hole: Node?, top: Node?, p: Node?)
    reads CNodes(c)
  {
    match c
    case Top => hole == top
    case InL(n, red, up, r) =>
      && n.left == hole && n.right == Root(r) && n.red == red && Rep(r, n)
      && n.parent == (if up.Top? then p else up.node) && CRep(up, n, top, p)
    case InR(n, red, up, l) =>
      && n.right == hole && n.left == Root(l) && n.red == red && Rep(l, n)
      && n.parent == (if up.Top? then p else up.node) && CRep(up, n, top, p)
  }

  ghost function COwn(c: Ctx): set<Node> { if c.Top? then {} else {c.node} }

  ghost function LeftRotated(t: T): T
    requires t.Br? && t.r.Br?
  {
    Br(t.r.node, t.r.red, Br(t.node, t.red, t.l, t.r.l), t.r.r)
  }

  ghost function RightRotated(t: T): T
    requires t.Br? && t.l.Br?
  {
    Br(t.l.node, t.l.red, t.l.l, Br(t.node, t.red, t.l.r, t.r))
  }

  lemma SepRight(t: T)
    requires Sep(t) && t.Br? && t.r.Br?
    ensures Sep(LeftRotated(t)) && Nodes(LeftRotated(t)) == Nodes(t)
    ensures Nodes(t) == {t.node, t.r.node} + Nodes(t.l) + Nodes(t.r.l) + Nodes(t.r.r)
    ensures t.node != t.r.node && {t.node, t.r.node} !! (Nodes(t.l) + Nodes(t.r.l) + Nodes(t.r.r))
    ensures Nodes(t.l) !! Nodes(t.r.l) && Nodes(t.l) !! Nodes(t.r.r) && Nodes(t.r.l) !! Nodes(t.r.r)
    ensures Own(t.r.l) <= Nodes(t.r.l) && Own(t.r.l) !! Kids(t.r.l)
  {
    assert Nodes(t.r) == {t.r.node} + Nodes(t.r.l) + Nodes(t.r.r);
    assert Sep(t.r) && Sep(t.r.l);
  }

  lemma SepLeft(t: T)
    requires Sep(t) && t.Br? && t.l.Br?
    ensures Sep(RightRotated(t)) && Nodes(RightRotated(t)) == Nodes(t)
    ensures Nodes(t) == {t.node, t.l.node} + Nodes(t.r) + Nodes(t.l.l) + Nodes(t.l.r)
    ensures t.node != t.l.node && {t.node, t.l.node} !! (Nodes(t.r) + Nodes(t.l.l) + Nodes(t.l.r))
    ensures Nodes(t.r) !! Nodes(t.l.r) && Nodes(t.r) !! Nodes(t.l.l) && Nodes(t.l.r) !! Nodes(t.l.l)
    ensures Own(t.l.r) <= Nodes(t.l.r) && Own(t.l.r) !! Kids(t.l.r)
  {
    assert Nodes(t.l) == {t.l.node} + Nodes(t.l.l) + Nodes(t.l.r);
    assert Sep(t.l) && Sep(t.l.r);
  }

  /** The tree `Plug(c, t)` is in the heap below `top`. */
  ghost predicate ZipDef(c: Ctx, t: T, top: Node?)
    reads CNodes(c), Nodes(t)
  {
    && Sep(t) && SepC(c, Nodes(t))
    && Rep(t, Above(c)) && CRep(c, Root(t), top, null)
  }

  /** `ZipDef`, sealed: its definition is available only where `Open` is mentioned. */
  ghost predicate Zip(c: Ctx, t: T, top: Node?)
    reads CNodes(c), Nodes(t)
  {
    assert SealZip(ZipDef(c, t, top), c, t, top);
    var b: bool :| SealZip(b, c, t, top);
    b
  }

  ghost predicate SealZip(b: bool, c: Ctx, t: T, top: Node?)
    reads CNodes(c), Nodes(t)
  {
    forall u {:trigger Open(u)} :: Open(u) ==> b == ZipDef(c, t, top)
  }

  /** The in-order sequence of the whole tree (sealed). */
  ghost function Whole(c: Ctx, t: T): seq<Node> {
    assert SealWhole(Before(c) + Flat(t) + After(c), c, t);
    var s: seq<Node> :| SealWhole(s, c, t);
    s
  }

  ghost predicate SealWhole(s: seq<Node>, c: Ctx, t: T) {
    forall u {:trigger Open(u)} :: Open(u) ==> s == Before(c) + Flat(t) + After(c)
  }

  /** All nodes of the tree (sealed). */
  ghost function All(c: Ctx, t: T): set<Node> {
    assert SealAll(CNodes(c) + Nodes(t), c, t);
    var s: set<Node> :| SealAll(s, c, t);
    s
  }

  ghost predicate SealAll(s: set<Node>, c: Ctx, t: T) {
    forall u {:trigger Open(u)} :: Open(u) ==> s == CNodes(c) + Nodes(t)
  }

  lemma AllIs(c: Ctx, t: T)
    ensures All(c, t) == CNodes(c) + Nodes(t)
  {
    assert Open(0);
  }

  lemma WholeIs(c: Ctx, t: T)
    ensures Whole(c, t) == Before(c) + Flat(t) + After(c)
  {
    assert Open(0);
  }

  lemma Unzip(c: Ctx, t: T, top: Node?)
    ensures Zip(c, t, top) <==> ZipDef(c, t, top)
  {
    assert Open(0);
  }

  /** What the node in focus and the one above it look like in memory. */
  lemma Peek(c: Ctx, t: T, top: Node?)
    requires Zip(c, t, top)
    ensures c.Top? ==> top == Root(t)
    ensures t.Br? ==> t.node.left == Root(t.l) && t.node.right == Root(t.r) && t.node.red == t.red
    ensures t.Br? ==> t.node.parent == Above(c) && t.node != Above(c)
    ensures !c.Top? ==> c.node.red == c.red && c.node.parent == Above(c.up)
    ensures c.InL? ==> c.node.left == Root(t) && c.node.right == Root(c.side)
    ensures c.InR? ==> c.node.right == Root(t) && c.node.left == Root(c.side)
    ensures !c.Top? && t.Br? ==> Root(c.side) != t.node
    ensures t.Br? && t.l.Br? ==> Root(t.l) != Root(t.r)
  {
    Unzip(c, t, top);
    if t.Br? { assert Below(t); }
  }

  // ------------------------------------------------- red-black invariants

  ghost predicate Red(t: T) { t.Br? && t.red }

  ghost function Painted(t: T, red: bool): T
    requires t.Br?
  {
    Br(t.node, red, t.l, t.r)
  }

  /** No red node has a red child and every path holds `h` black nodes. */
  ghost predicate IsRB(t: T, h: nat) {
    match t
    case Leaf => h == 0
    case Br(_, red, l, r) =>
      if red then !Red(l) && !Red(r) && IsRB(l, h) && IsRB(r, h)
      else h > 0 && IsRB(l, h - 1) && IsRB(r, h - 1)
  }

  /** The context takes a tree of black height `h`; a red node never tops it. */
  ghost predicate COk(c: Ctx, h: nat) {
    c.Top? ||
    (&& IsRB(c.side, h)
     && if c.red then !Red(c.side) && !c.up.Top? && !c.up.red && COk(c.up, h) else COk(c.up, h + 1))
  }

  ghost function Depth(c: Ctx): nat { if c.Top? then 0 else 1 + Depth(c.up) }

  lemma {:induction false} PlugRB(c: Ctx, t: T, h: nat) returns (h': nat)
    requires IsRB(t, h) && COk(c, h) && (Red(t) ==> c.Top? || !c.red)
    ensures IsRB(Plug(c, t), h') && (!(c.Top? && Red(t)) ==> !Red(Plug(c, t)))
  {
    match c
    case Top => h' := h;
    case InL(n, red, up, r) => h' := PlugRB(up, Br(n, red, t, r), if red then h else h + 1);
    case InR(n, red, up, l) => h' := PlugRB(up, Br(n, red, l, t), if red then h else h + 1);
  }

  ghost function Size(t: T): nat { if t.Leaf? then 0 else Size(t.l) + 1 + Size(t.r) }

  ghost function ChildPainted(t: T, n: Node, red: bool): T
    requires t.Br? && (n == Root(t.l) || n == Root(t.r))
  {
    if n == Root(t.l) then t.(l := Painted(t.l, red)) else t.(r := Painted(t.r, red))
  }

  /** The insertion loop: a red node in focus, at most in conflict with its parent. */
  ghost predicate InsertState(c: Ctx, t: T, h: nat) {
    Red(t) && IsRB(t, h) && COk(c, h)
  }

  /** Moving the focus between a node and its children. */
  lemma FocusL(c: Ctx, t: T, top: Node?)
    requires c.InL?
    ensures Zip(c, t, top) <==> Zip(c.up, Br(c.node, c.red, t, c.side), top)
    ensures All(c, t) == All(c.up, Br(c.node, c.red, t, c.side))
    ensures Whole(c, t) == Whole(c.up, Br(c.node, c.red, t, c.side))
  {
    assert Open(0);
    var t' := Br(c.node, c.red, t, c.side);
    assert Nodes(t) + {c.node} + Nodes(c.side) == Nodes(t');
    assert Rep(t', Above(c.up)) <==> t'.node.parent == Above(c.up) && Below(t');
    Regroup(Before(c.up), Flat(t), [c.node] + Flat(c.side), After(c.up));
    assert Flat(t') == Flat(t) + ([c.node] + Flat(c.side));
  }

  lemma FocusR(c: Ctx, t: T, top: Node?)
    requires c.InR?
    ensures Zip(c, t, top) <==> Zip(c.up, Br(c.node, c.red, c.side, t), top)
    ensures All(c, t) == All(c.up, Br(c.node, c.red, c.side, t))
    ensures Whole(c, t) == Whole(c.up, Br(c.node, c.red, c.side, t))
  {
    assert Open(0);
    var t' := Br(c.node, c.red, c.side, t);
    assert Nodes(t) + {c.node} + Nodes(c.side) == Nodes(t');
    assert Rep(t', Above(c.up)) <==> t'.node.parent == Above(c.up) && Below(t');
    Regroup(Before(c.up), Flat(c.side) + [c.node], Flat(t), After(c.up));
    assert Before(c) == Before(c.up) + (Flat(c.side) + [c.node]);
  }

  lemma FlatRotated(t: T)
    requires t.Br?
    ensures t.r.Br? ==> Flat(LeftRotated(t)) == Flat(t)
    ensures t.l.Br? ==> Flat(RightRotated(t)) == Flat(t)
  {
    if t.r.Br? {
      Assoc(Flat(t.l), [t.node], Flat(t.r.l), [t.r.node], Flat(t.r.r));
      assert Flat(LeftRotated(t).l) == Flat(t.l) + [t.node] + Flat(t.r.l);
    }
    if t.l.Br? {
      Assoc(Flat(t.l.l), [t.l.node], Flat(t.l.r), [t.node], Flat(t.r));
      assert Flat(RightRotated(t).r) == Flat(t.l.r) + [t.node] + Flat(t.r);
    }
  }

  lemma NodesRotated(t: T)
    requires t.Br?
    ensures t.r.Br? ==> Nodes(LeftRotated(t)) == Nodes(t)
    ensures t.l.Br? ==> Nodes(RightRotated(t)) == Nodes(t)
  {
  }

  /** Equal subtrees, as far as the in-order sequence goes, in the same place. */
  lemma FocusWhole(c: Ctx, t: T, t': T)
    requires Flat(t) == Flat(t') && Nodes(t) == Nodes(t')
    ensures Whole(c, t) == Whole(c, t') && All(c, t) == All(c, t')
  {
    assert Open(0);
  }

  lemma Rotated(c: Ctx, t: T)
    requires t.Br?
    ensures t.r.Br? ==> Whole(c, LeftRotated(t)) == Whole(c, t) && All(c, LeftRotated(t)) == All(c, t)
    ensures t.l.Br? ==> Whole(c, RightRotated(t)) == Whole(c, t) && All(c, RightRotated(t)) == All(c, t)
  {
    FlatRotated(t);
    NodesRotated(t);
    if t.r.Br? { FocusWhole(c, t, LeftRotated(t)); }
    if t.l.Br? { FocusWhole(c, t, RightRotated(t)); }
  }

  ghost function LiftedLeft(t: T): T
    requires t.Br? && t.l.Br?
  {
    Br(t.l.node, false, t.l.l, Br(t.node, true, t.l.r, t.r))
  }

  lemma Own2Left(t: T)
    requires t.Br? && t.l.Br?
    ensures t.node in Nodes(t) && t.l.node in Nodes(t) && Own(t.l.r) <= Nodes(t)
  {
    assert t.l.node in Nodes(t.l) && Own(t.l.r) <= Nodes(t.l.r) <= Nodes(t.l);
  }

  /** The red node moves below a black parent with nothing lost. */
  lemma SettledLeft(c: Ctx, t: T, c': Ctx, t': T, h: nat)
    requires InsertState(c, t, h) && !c.Top? && c.red && c.up.InL? && !Red(c.up.side)
    requires || (c.InL? && t' == t
                 && c' == InL(c.node, false, c.up.up, Br(c.up.node, true, c.side, c.up.side)))
             || (c.InR? && t' == Br(c.node, true, c.side, t.l)
                 && c' == InL(t.node, false, c.up.up, Br(c.up.node, true, t.r, c.up.side)))
    ensures InsertState(c', t', h) && Depth(c') < Depth(c)
    ensures Whole(c', t') == Whole(c, t) && All(c', t') == All(c, t)
  {
    assert COk(c.up, h) && IsRB(t', h);
    var (g, u) := (c.up.node, c.up.side);
    var k: T;
    if c.InL? {
      FocusL(c, t, null);
      k := Br(c.node, true, t, c.side);
    } else {
      FocusR(c, t, null);
      Rotated(c.up, Br(c.node, true, c.side, t));
      k := LeftRotated(Br(c.node, true, c.side, t));
    }
    FocusL(c.up, k, null);
    Rotated(c.up.up, Br(g, true, Painted(k, false), u));
    FocusWhole(c.up.up, Br(g, false, k, u), Br(g, true, Painted(k, false), u));
    FocusL(c', t', null);
  }

  ghost function LiftedRight(t: T): T
    requires t.Br? && t.r.Br?
  {
    Br(t.r.node, false, Br(t.node, true, t.l, t.r.l), t.r.r)
  }

  lemma Own2Right(t: T)
    requires t.Br? && t.r.Br?
    ensures t.node in Nodes(t) && t.r.node in Nodes(t) && Own(t.r.l) <= Nodes(t)
  {
    assert t.r.node in Nodes(t.r) && Own(t.r.l) <= Nodes(t.r.l) <= Nodes(t.r);
  }

  /** The red node moves below a black parent with nothing lost. */
  lemma SettledRight(c: Ctx, t: T, c': Ctx, t': T, h: nat)
    requires InsertState(c, t, h) && !c.Top? && c.red && c.up.InR? && !Red(c.up.side)
    requires || (c.InR? && t' == t
                 && c' == InR(c.node, false, c.up.up, Br(c.up.node, true, c.up.side, c.side)))
             || (c.InL? && t' == Br(c.node, true, t.r, c.side)
                 && c' == InR(t.node, false, c.up.up, Br(c.up.node, true, c.up.side, t.l)))
    ensures InsertState(c', t', h) && Depth(c') < Depth(c)
    ensures Whole(c', t') == Whole(c, t) && All(c', t') == All(c, t)
  {
    assert COk(c.up, h) && IsRB(t', h);
    var (g, u) := (c.up.node, c.up.side);
    var k: T;
    if c.InR? {
      FocusR(c, t, null);
      k := Br(c.node, true, c.side, t);
    } else {
      FocusL(c, t, null);
      Rotated(c.up, Br(c.node, true, t, c.side));
      k := RightRotated(Br(c.node, true, t, c.side));
    }
    FocusR(c.up, k, null);
    Rotated(c.up.up, Br(g, true, u, Painted(k, false)));
    FocusWhole(c.up.up, Br(g, false, u, k), Br(g, true, u, Painted(k, false)));
    FocusR(c', t', null);
  }

  /** The subtree one level up. */
  ghost function Up(c: Ctx, t: T): T
    requires !c.Top?
  {
    if c.InL? then Br(c.node, c.red, t, c.side) else Br(c.node, c.red, c.side, t)
  }

  lemma Focus(c: Ctx, t: T, top: Node?)
    requires !c.Top?
    ensures Zip(c, t, top) <==> Zip(c.up, Up(c, t), top)
    ensures All(c, t) == All(c.up, Up(c, t)) && Whole(c, t) == Whole(c.up, Up(c, t))
  {
    if c.InL? { FocusL(c, t, top); } else { FocusR(c, t, top); }
  }

  /** The colour bit read from the uncle is the one in the context. */
  lemma UncleRed(c: Ctx, t: T, top: Node?)
    requires Zip(c, t, top) && !c.Top? && !c.up.Top?
    ensures c.up.side.Br? ==> c.up.side.node.red == c.up.side.red
  {
    Unzip(c, t, top);
    assert CRep(c.up, c.node, top, null);
    if c.up.side.Br? { assert Below(c.up.side); }
  }

  ghost predicate RB(t: T) { !Red(t) && exists h: nat :: IsRB(t, h) }

  lemma Blackened(t: T, h: nat)
    requires t.Br? && IsRB(t, h)
    ensures RB(Painted(t, false)) && Flat(Painted(t, false)) == Flat(t) && Nodes(Painted(t, false)) == Nodes(t)
  {
    assert IsRB(Painted(t, false), if t.red then h + 1 else h);
  }

  lemma {:induction false} RootOfPlug(c: Ctx, t: T)
    requires t.Br?
    ensures Plug(c, t).Br?
  {
    if !c.Top? { RootOfPlug(c.up, Up(c, t)); }
  }

  lemma {:induction false} ZipIsPlug(c: Ctx, t: T, top: Node?)
    ensures Nodes(Plug(c, t)) == All(c, t)
    ensures Flat(Plug(c, t)) == Whole(c, t)
    ensures Zip(c, t, top) <==> Zip(Top, Plug(c, t), top)
  {
    match c
    case Top => AllIs(c, t); WholeIs(c, t);
    case InL(n, red, up, r) =>
      FocusL(c, t, top);
      ZipIsPlug(up, Br(n, red, t, r), top);
    case InR(n, red, up, l) =>
      FocusR(c, t, top);
      ZipIsPlug(up, Br(n, red, l, t), top);
  }

  lemma FlatPainted(t: T, red: bool)
    requires t.Br?
    ensures Flat(Painted(t, red)) == Flat(t) && Nodes(Painted(t, red)) == Nodes(t)
  {
  }

  /** The deletion loop: the context expects one black node more than the tree in
      focus has, unless that tree is red, when painting it black supplies it. */
  ghost predicate EraseState(c: Ctx, t: T, h: nat) {
    COk(c, h + 1) && if Red(t) then IsRB(Painted(t, false), h + 1) else IsRB(t, h)
  }

  ghost predicate Settled(c: Ctx, t: T, h: nat) {
    IsRB(t, h) && COk(c, h) && (Red(t) ==> !c.Top? && !c.red)
  }

  /** The sibling and its children as they are in memory. */
  lemma SideRep(c: Ctx, t: T, top: Node?)
    requires Zip(c, t, top) && !c.Top? && c.side.Br?
    ensures var s := c.side;
            && s.node.left == Root(s.l) && s.node.right == Root(s.r) && s.node.red == s.red
            && (s.l.Br? ==> s.l.node.red == s.l.red) && (s.r.Br? ==> s.r.node.red == s.r.red)
  {
    Unzip(c, t, top);
    assert Below(c.side) && Rep(c.side.l, c.side.node) && Rep(c.side.r, c.side.node);
    if c.side.l.Br? { assert Below(c.side.l); }
    if c.side.r.Br? { assert Below(c.side.r); }
  }

  /** Red sibling: rotated above the parent, which turns red. */
  ghost function SiblingUpLeft(c: Ctx): Ctx
    requires c.InL? && c.side.Br?
  {
    InL(c.node, true, InL(c.side.node, false, c.up, c.side.r), c.side.l)
  }

  lemma RedSiblingLeft(c: Ctx, t: T, h: nat)
    requires EraseState(c, t, h) && c.InL? && Red(c.side)
    ensures EraseState(SiblingUpLeft(c), t, h) && Depth(SiblingUpLeft(c)) == Depth(c) + 1
    ensures Whole(SiblingUpLeft(c), t) == Whole(c, t) && All(SiblingUpLeft(c), t) == All(c, t)
    ensures !Red(c.side.l) && c.side.l.Br?
  {
    var c1, g := SiblingUpLeft(c), Br(c.node, true, t, Painted(c.side, false));
    assert COk(c1.up, h + 1) && IsRB(c.side.l, h + 1);
    Focus(c, t, null);
    FocusWhole(c.up, Up(c, t), g);
    Rotated(c.up, g);
    Focus(c1, t, null);
    Focus(c1.up, Up(c1, t), null);
  }

  /** Black sibling, black nephews: the sibling turns red and the deficit moves up. */
  lemma BlackNephewsLeft(c: Ctx, t: T, h: nat)
    requires EraseState(c, t, h) && !Red(t) && c.InL? && c.side.Br? && !c.side.red && !Red(c.side.l) && !Red(c.side.r)
    ensures var t' := Br(c.node, c.red, t, Painted(c.side, true));
            && EraseState(c.up, t', if c.red then h else h + 1)
            && Whole(c.up, t') == Whole(c, t) && All(c.up, t') == All(c, t)
  {
    var t' := Br(c.node, c.red, t, Painted(c.side, true));
    assert IsRB(Painted(c.side, true), h);
    Focus(c, t, null);
    FocusWhole(c.up, Up(c, t), t');
  }

  /** Far nephew black, near nephew red: the near one becomes the sibling. */
  lemma NearNephewLeft(c: Ctx, t: T, h: nat)
    requires EraseState(c, t, h) && !Red(t) && c.InL? && c.side.Br? && !c.side.red
    requires Red(c.side.l) && !Red(c.side.r)
    ensures var c' := InL(c.node, c.red, c.up, Br(c.side.l.node, false, c.side.l.l, Br(c.side.node, true, c.side.l.r, c.side.r)));
            && EraseState(c', t, h) && Red(c'.side.r)
            && Whole(c', t) == Whole(c, t) && All(c', t) == All(c, t)
  {
    var k := Br(c.side.node, true, Painted(c.side.l, false), c.side.r);
    var c' := InL(c.node, c.red, c.up, RightRotated(k));
    assert IsRB(c.side.l, h);
    assert IsRB(c'.side.r, h) && IsRB(c'.side, h + 1);
    FlatPainted(c.side.l, false);
    FlatRotated(k);
    NodesRotated(k);
    Focus(c, t, null);
    Focus(c', t, null);
    FocusWhole(c.up, Up(c, t), Up(c', t));
  }

  /** Far nephew red: one rotation pays the deficit off. */
  ghost function PaidLeft(c: Ctx, t: T): T
    requires c.InL? && c.side.Br? && c.side.r.Br?
  {
    Br(c.side.node, c.red, Br(c.node, false, t, c.side.l), Painted(c.side.r, false))
  }

  lemma FarNephewLeft(c: Ctx, t: T, h: nat)
    requires EraseState(c, t, h) && !Red(t) && c.InL? && c.side.Br? && !c.side.red && Red(c.side.r)
    ensures var h' := if c.red then h + 1 else h + 2;
            IsRB(PaidLeft(c, t), h') && COk(c.up, h')
    ensures Red(PaidLeft(c, t)) ==> !c.up.Top? && !c.up.red
    ensures Whole(c.up, PaidLeft(c, t)) == Whole(c, t) && All(c.up, PaidLeft(c, t)) == All(c, t)
  {
    var k := Br(c.node, false, t, Br(c.side.node, c.red, c.side.l, Painted(c.side.r, false)));
    assert IsRB(c.side.l, h) && IsRB(c.side.r, h);
    assert IsRB(Painted(c.side.r, false), h + 1);
    FlatPainted(c.side.r, false);
    assert Flat(Br(c.side.node, c.red, c.side.l, Painted(c.side.r, false))) == Flat(c.side);
    assert Nodes(Br(c.side.node, c.red, c.side.l, Painted(c.side.r, false))) == Nodes(c.side);
    assert IsRB(Br(c.node, false, t, c.side.l), h + 1);
    assert PaidLeft(c, t) == LeftRotated(k);
    Focus(c, t, null);
    FocusWhole(c.up, Up(c, t), k);
    Rotated(c.up, k);
  }

  /** Red sibling: rotated above the parent, which turns red. */
  ghost function SiblingUpRight(c: Ctx): Ctx
    requires c.InR? && c.side.Br?
  {
    InR(c.node, true, InR(c.side.node, false, c.up, c.side.l), c.side.r)
  }

  lemma RedSiblingRight(c: Ctx, t: T, h: nat)
    requires EraseState(c, t, h) && c.InR? && Red(c.side)
    ensures EraseState(SiblingUpRight(c), t, h) && Depth(SiblingUpRight(c)) == Depth(c) + 1
    ensures Whole(SiblingUpRight(c), t) == Whole(c, t) && All(SiblingUpRight(c), t) == All(c, t)
    ensures !Red(c.side.r) && c.side.r.Br?
  {
    var c1, g := SiblingUpRight(c), Br(c.node, true, Painted(c.side, false), t);
    assert COk(c1.up, h + 1) && IsRB(c.side.r, h + 1);
    Focus(c, t, null);
    FocusWhole(c.up, Up(c, t), g);
    Rotated(c.up, g);
    Focus(c1, t, null);
    Focus(c1.up, Up(c1, t), null);
  }

  /** Black sibling, black nephews: the sibling turns red and the deficit moves up. */
  lemma BlackNephewsRight(c: Ctx, t: T, h: nat)
    requires EraseState(c, t, h) && !Red(t) && c.InR? && c.side.Br? && !c.side.red && !Red(c.side.l) && !Red(c.side.r)
    ensures var t' := Br(c.node, c.red, Painted(c.side, true), t);
            && EraseState(c.up, t', if c.red then h else h + 1)
            && Whole(c.up, t') == Whole(c, t) && All(c.up, t') == All(c, t)
  {
    var t' := Br(c.node, c.red, Painted(c.side, true), t);
    assert IsRB(Painted(c.side, true), h);
    Focus(c, t, null);
    FocusWhole(c.up, Up(c, t), t');
  }

  /** Far nephew black, near nephew red: the near one becomes the sibling. */
  lemma NearNephewRight(c: Ctx, t: T, h: nat)
    requires EraseState(c, t, h) && !Red(t) && c.InR? && c.side.Br? && !c.side.red
    requires Red(c.side.r) && !Red(c.side.l)
    ensures var c' := InR(c.node, c.red, c.up, Br(c.side.r.node, false, Br(c.side.node, true, c.side.l, c.side.r.l), c.side.r.r));
            && EraseState(c', t, h) && Red(c'.side.l)
            && Whole(c', t) == Whole(c, t) && All(c', t) == All(c, t)
  {
    var k := Br(c.side.node, true, c.side.l, Painted(c.side.r, false));
    var c' := InR(c.node, c.red, c.up, LeftRotated(k));
    assert IsRB(c.side.r, h);
    assert IsRB(c'.side.l, h) && IsRB(c'.side, h + 1);
    FlatPainted(c.side.r, false);
    FlatRotated(k);
    NodesRotated(k);
    Focus(c, t, null);
    Focus(c', t, null);
    FocusWhole(c.up, Up(c, t), Up(c', t));
  }

  /** Far nephew red: one rotation pays the deficit off. */
  ghost function PaidRight(c: Ctx, t: T): T
    requires c.InR? && c.side.Br? && c.side.l.Br?
  {
    Br(c.side.node, c.red, Painted(c.side.l, false), Br(c.node, false, c.side.r, t))
  }

  lemma FarNephewRight(c: Ctx, t: T, h: nat)
    requires EraseState(c, t, h) && !Red(t) && c.InR? && c.side.Br? && !c.side.red && Red(c.side.l)
    ensures var h' := if c.red then h + 1 else h + 2;
            IsRB(PaidRight(c, t), h') && COk(c.up, h')
    ensures Red(PaidRight(c, t)) ==> !c.up.Top? && !c.up.red
    ensures Whole(c.up, PaidRight(c, t)) == Whole(c, t) && All(c.up, PaidRight(c, t)) == All(c, t)
  {
    var k := Br(c.node, false, Br(c.side.node, c.red, Painted(c.side.l, false), c.side.r), t);
    assert IsRB(c.side.r, h) && IsRB(c.side.l, h);
    assert IsRB(Painted(c.side.l, false), h + 1);
    FlatPainted(c.side.l, false);
    assert Flat(Br(c.side.node, c.red, Painted(c.side.l, false), c.side.r)) == Flat(c.side);
    assert Nodes(Br(c.side.node, c.red, Painted(c.side.l, false), c.side.r)) == Nodes(c.side);
    assert IsRB(Br(c.node, false, c.side.r, t), h + 1);
    assert PaidRight(c, t) == RightRotated(k);
    Focus(c, t, null);
    FocusWhole(c.up, Up(c, t), k);
    Rotated(c.up, k);
  }

  // ---------------------------------------------------------- rb_erase itself

  /** The context `q` continued above by `b`. */
  ghost function Append(q: Ctx, b: Ctx): Ctx {
    match q
    case Top => b
    case InL(n, red, up, r) => InL(n, red, Append(up, b), r)
    case InR(n, red, up, l) => InR(n, red, Append(up, b), l)
  }

  ghost function Bottom(q: Ctx): Node
    requires !q.Top?
  {
    if q.up.Top? then q.node else Bottom(q.up)
  }

  lemma {:induction false} BottomIs(q: Ctx, hole: Node?)
    requires !q.Top?
    ensures TopOf(q, hole) == Bottom(q) && Bottom(q) in CNodes(q)
  {
    if !q.up.Top? { BottomIs(q.up, q.node); }
  }

  /** Moving the lower end of a spine to another parent disturbs nothing else. */
  twostate lemma {:induction false} SpineMoved(q: Ctx, new s: set<Node>)
    requires !q.Top? && Spine(q) && SepC(q, s)
    requires old(CRep(q, q.node.left, Bottom(q), Bottom(q).parent))
    requires forall n | n in CNodes(q) :: old(allocated(n)) && (n != Bottom(q) ==> unchanged(n))
    requires unchanged(Bottom(q)`left) && unchanged(Bottom(q)`right) && unchanged(Bottom(q)`red)
    ensures CRep(q, q.node.left, Bottom(q), Bottom(q).parent)
  {
    SepDisjoint(q.up, s + {q.node} + Nodes(q.side));
    BottomIs(q, null);
    if !q.up.Top? {
      BottomIs(q.up, q.node);
      SpineMoved(q.up, s + {q.node} + Nodes(q.side));
    }
    assert Bottom(q) !in Nodes(q.side);
  }

  ghost function TopOf(q: Ctx, hole: Node?): Node? { if q.Top? then hole else TopOf(q.up, q.node) }

  lemma {:induction false} CRepAppend(q: Ctx, b: Ctx, hole: Node?, top: Node?)
    requires !b.Top?
    ensures CRep(Append(q, b), hole, top, null)
            <==> CRep(q, hole, TopOf(q, hole), b.node) && CRep(b, TopOf(q, hole), top, null)
  {
    if !q.Top? { CRepAppend(q.up, b, q.node, top); }
  }

  lemma {:induction false} SepAppend(q: Ctx, b: Ctx, s: set<Node>)
    ensures SepC(Append(q, b), s) <==> SepC(q, s) && SepC(b, s + CNodes(q))
  {
    if q.Top? {
      assert s + CNodes(q) == s;
    } else {
      var s' := s + {q.node} + Nodes(q.side);
      SepAppend(q.up, b, s');
      assert s' + CNodes(q.up) == s + CNodes(q);
    }
  }

  lemma {:induction false} CNodesAppend(q: Ctx, b: Ctx)
    ensures CNodes(Append(q, b)) == CNodes(q) + CNodes(b)
  {
    if !q.Top? { CNodesAppend(q.up, b); }
  }

  /** Only left turns: the way down to the leftmost node. */
  ghost predicate Spine(q: Ctx) { q.Top? || (q.InL? && Spine(q.up)) }

  lemma {:induction false} SpineOrder(q: Ctx, b: Ctx)
    requires Spine(q)
    ensures Before(Append(q, b)) == Before(b)
  {
    if !q.Top? { SpineOrder(q.up, b); }
  }

  lemma {:induction false} AfterAppend(q: Ctx, b: Ctx)
    ensures After(Append(q, b)) == After(q) + After(b)
  {
    if !q.Top? {
      AfterAppend(q.up, b);
      if q.InL? { Regroup([q.node] + Flat(q.side), After(q.up), After(b), []); }
    }
  }

  /** Swapping the node a path hangs from keeps the context as good as it was. */
  lemma {:induction false} COkAppend(q: Ctx, b: Ctx, b': Ctx, h: nat)
    requires !b.Top? && !b'.Top? && b.red == b'.red && COk(Append(q, b), h)
    requires forall k: nat | COk(b, k) :: COk(b', k)
    ensures COk(Append(q, b'), h)
  {
    if !q.Top? {
      COkAppend(q.up, b, b', if q.red then h else h + 1);
      assert !Append(q.up, b).Top? && !Append(q.up, b').Top?;
      assert q.up.Top? ==> Append(q.up, b) == b && Append(q.up, b') == b';
    }
  }

  /** A context that continues the spine `q` with the right side of `n`, piece by piece. */
  ghost predicate Parts(q: Ctx, n: Node, red: bool, c: Ctx, l: T, k: T, top: Node?)
    reads CNodes(q), n, Nodes(l), CNodes(c), Nodes(k)
  {
    var b := InR(n, red, c, l);
    && Sep(k) && SepC(q, Nodes(k)) && SepC(b, Nodes(k) + CNodes(q))
    && Rep(k, if q.Top? then n else q.node) && CRep(q, Root(k), TopOf(q, Root(k)), n)
    && n.right == TopOf(q, Root(k)) && n.left == Root(l) && n.red == red && Rep(l, n)
    && n.parent == Above(c) && CRep(c, n, top, null)
  }

  lemma PartsIsZip(q: Ctx, n: Node, red: bool, c: Ctx, l: T, k: T, top: Node?)
    ensures Zip(Append(q, InR(n, red, c, l)), k, top) <==> Parts(q, n, red, c, l, k, top)
  {
    var b := InR(n, red, c, l);
    Unzip(Append(q, b), k, top);
    CRepAppend(q, b, Root(k), top);
    SepAppend(q, b, Nodes(k));
  }

  /** The pieces are pairwise apart, before and after the exchange. */
  lemma PartsApart(q: Ctx, n: Node, red: bool, c: Ctx, l: T, k: T)
    requires Sep(k) && SepC(q, Nodes(k)) && SepC(InR(n, red, c, l), Nodes(k) + CNodes(q)) && k.Br?
    ensures Nodes(k) !! CNodes(q) && n !in Nodes(k) + CNodes(q) && Nodes(l) !! Nodes(k) + CNodes(q) && n !in Nodes(l)
    ensures CNodes(c) !! Nodes(k) + CNodes(q) + {n} + Nodes(l)
    ensures Sep(k.r) && SepC(q, Nodes(k.r)) && SepC(InR(k.node, red, c, l), Nodes(k.r) + CNodes(q))
    ensures k.node !in Nodes(k.r) && Nodes(k.r) <= Nodes(k) && Sep(l)
    ensures Own(k.r) <= Nodes(k.r) && Own(l) <= Nodes(l) && COwn(c) <= CNodes(c)
  {
    SepDisjoint(q, Nodes(k));
    SepDisjoint(InR(n, red, c, l), Nodes(k) + CNodes(q));
    SepDisjoint(c, Nodes(k) + CNodes(q) + {n} + Nodes(l));
    SepSub(q, Nodes(k), Nodes(k.r));
    assert Nodes(k.r) + CNodes(q) + {k.node} + Nodes(l) <= Nodes(k) + CNodes(q) + {n} + Nodes(l);
    SepSub(c, Nodes(k) + CNodes(q) + {n} + Nodes(l), Nodes(k.r) + CNodes(q) + {k.node} + Nodes(l));
  }

  /** One level down, the state of a settled place is that of its children's. */
  lemma StepDown(c: Ctx, t: T, h: nat) returns (h': nat)
    requires Settled(c, t, h) && t.Br?
    ensures Settled(InL(t.node, t.red, c, t.r), t.l, h') && Settled(InR(t.node, t.red, c, t.l), t.r, h')
  {
    h' := if t.red then h else h - 1;
  }

  /** The way from the root to a node of the tree. */
  lemma {:induction false} Locate(c: Ctx, t: T, n: Node, h: nat) returns (c': Ctx, k: T, h': nat)
    requires n in Nodes(t) && Settled(c, t, h)
    ensures Plug(c', k) == Plug(c, t) && k.Br? && k.node == n && Settled(c', k, h')
    decreases t
  {
    if t.node == n {
      c', k, h' := c, t, h;
    } else {
      var h1 := StepDown(c, t, h);
      if n in Nodes(t.l) {
        c', k, h' := Locate(InL(t.node, t.red, c, t.r), t.l, n, h1);
      } else {
        c', k, h' := Locate(InR(t.node, t.red, c, t.l), t.r, n, h1);
      }
    }
  }

  /** `s` is `w` without its one occurrence of `n` at some position. */
  ghost predicate LessOne(w: seq<Node>, n: Node, s: seq<Node>) {
    exists i: nat :: i < |w| && w[i] == n && s == w[..i] + w[i + 1..]
  }

  lemma LessOneIs(a: seq<Node>, n: Node, b: seq<Node>)
    ensures LessOne(a + [n] + b, n, a + b)
  {
    var w := a + [n] + b;
    assert w[|a|] == n && w[..|a|] == a && w[|a| + 1..] == b;
  }

  lemma SeqSpliced(a: seq<Node>, l: seq<Node>, n: Node, r: seq<Node>, b: seq<Node>)
    ensures LessOne(a + (l + [n] + r) + b, n, a + (l + r) + b)
  {
    LessOneIs(a + l, n, r + b);
    assert a + (l + [n] + r) + b == a + l + [n] + (r + b);
    assert a + (l + r) + b == a + l + (r + b);
  }

  lemma SeqReplaced(a: seq<Node>, l: seq<Node>, n: Node, y: Node, r: seq<Node>, b: seq<Node>)
    ensures LessOne(a + l + [n] + ([] + [y] + r) + b, n, a + l + [y] + r + b)
  {
    LessOneIs(a + l, n, [y] + r + b);
    assert a + l + [n] + ([] + [y] + r) + b == a + l + [n] + ([y] + r + b);
    assert a + l + [y] + r + b == a + l + ([y] + r + b);
  }

  /** What is left to do after a node with at most one child is spliced out. */
  lemma SplicedState(c: Ctx, k: T, kid: T, h: nat)
    requires Settled(c, k, h) && k.Br? && ((k.l.Leaf? && kid == k.r) || (k.r.Leaf? && kid == k.l))
    ensures k.red ==> Settled(c, kid, h)
    ensures !k.red ==> EraseState(c, kid, h - 1)
    ensures LessOne(Whole(c, k), k.node, Whole(c, kid))
  {
    WholeIs(c, k);
    WholeIs(c, kid);
    var h' := if k.red then h else h - 1;
    assert IsRB(kid, h');
    if !k.red && Red(kid) { assert IsRB(kid.l, h') && IsRB(kid.r, h'); }
    SeqSpliced(Before(c), Flat(k.l), k.node, Flat(k.r), After(c));
    assert Flat(kid) == Flat(k.l) + Flat(k.r);
  }

  /** The same after the successor has taken the node's place. */
  lemma ReplacedState(q: Ctx, n: Node, red: bool, c: Ctx, l: T, k: T, h: nat)
    requires Spine(q) && k.Br? && k.l.Leaf? && Settled(Append(q, InR(n, red, c, l)), k, h)
    ensures var d' := Append(q, InR(k.node, red, c, l));
            && (k.red ==> Settled(d', k.r, h)) && (!k.red ==> EraseState(d', k.r, h - 1))
            && LessOne(Whole(Append(q, InR(n, red, c, l)), k), n, Whole(d', k.r))
  {
    var b, b' := InR(n, red, c, l), InR(k.node, red, c, l);
    COkAppend(q, b, b', h);
    assert IsRB(k.r, if k.red then h else h - 1);
    if !k.red && Red(k.r) { assert IsRB(k.r.l, h - 1) && IsRB(k.r.r, h - 1); }
    ReplacedWhole(q, n, red, c, l, k);
    assert !Append(q, b').Top?;
  }

  lemma ReplacedWhole(q: Ctx, n: Node, red: bool, c: Ctx, l: T, k: T)
    requires Spine(q) && k.Br? && k.l.Leaf?
    ensures LessOne(Whole(Append(q, InR(n, red, c, l)), k), n, Whole(Append(q, InR(k.node, red, c, l)), k.r))
  {
    var b, b' := InR(n, red, c, l), InR(k.node, red, c, l);
    SpineOrder(q, b); SpineOrder(q, b'); AfterAppend(q, b); AfterAppend(q, b');
    WholeIs(Append(q, b), k);
    WholeIs(Append(q, b'), k.r);
    SeqReplaced(Before(c), Flat(l), n, k.node, Flat(k.r), After(q) + After(c));
  }

  lemma SplicedNodes(c: Ctx, k: T, kid: T, top: Node?)
    requires Zip(c, k, top) && k.Br? && ((k.l.Leaf? && kid == k.r) || (k.r.Leaf? && kid == k.l))
    ensures All(c, kid) == All(c, k) - {k.node}
    ensures Own(kid) <= All(c, k) && COwn(c) <= All(c, k)
  {
    Unzip(c, k, top);
    AllIs(c, k);
    AllIs(c, kid);
    SepDisjoint(c, Nodes(k));
  }

  lemma ReplacedNodes(q: Ctx, n: Node, red: bool, c: Ctx, l: T, k: T)
    requires k.Br? && k.l.Leaf?
    requires Sep(k) && SepC(q, Nodes(k)) && SepC(InR(n, red, c, l), Nodes(k) + CNodes(q))
    ensures All(Append(q, InR(k.node, red, c, l)), k.r) == All(Append(q, InR(n, red, c, l)), k) - {n}
  {
    var b, b' := InR(n, red, c, l), InR(k.node, red, c, l);
    PartsApart(q, n, red, c, l, k);
    AllIs(Append(q, b), k);
    AllIs(Append(q, b'), k.r);
    CNodesAppend(q, b);
    CNodesAppend(q, b');
    assert Nodes(k) == {k.node} + Nodes(k.r) && CNodes(b) == {n} + Nodes(l) + CNodes(c);
    assert CNodes(b') == {k.node} + Nodes(l) + CNodes(c);
    SetReplaced(CNodes(q), n, k.node, Nodes(l), CNodes(c), Nodes(k.r));
  }

  lemma ReplacedWithin(q: Ctx, n: Node, red: bool, c: Ctx, l: T, k: T)
    ensures COwn(c) + Nodes(k) + Nodes(l) + CNodes(q) <= All(Append(q, InR(n, red, c, l)), k)
  {
    AllIs(Append(q, InR(n, red, c, l)), k);
    CNodesAppend(q, InR(n, red, c, l));
    assert COwn(c) <= CNodes(c);
  }

  lemma SetReplaced(q: set<Node>, n: Node, y: Node, l: set<Node>, c: set<Node>, r: set<Node>)
    requires n !in q && n != y && n !in l && n !in c && n !in r
    ensures q + ({y} + l + c) + r == q + ({n} + l + c) + ({y} + r) - {n}
  {
  }

  // ------------------------------------------------------------- the height

  ghost function Max(a: nat, b: nat): nat { if a > b then a else b }
  ghost function Height(t: T): nat { if t.Leaf? then 0 else 1 + Max(Height(t.l), Height(t.r)) }

  lemma {:induction false} HeightOfRB(t: T, h: nat)
    requires IsRB(t, h)
    ensures Height(t) <= 2 * h + (if Red(t) then 1 else 0)
    ensures Pow2(h) <= |Flat(t)| + 1
  {
    if t.Br? {
      var h' := if t.red then h else h - 1;
      HeightOfRB(t.l, h');
      HeightOfRB(t.r, h');
    }
  }

  /** height <= 2 * log2(n + 1), with the logarithm on the other side. */
  lemma HeightBound(t: T)
    requires RB(t)
    ensures Pow2(Height(t)) <= (|Flat(t)| + 1) * (|Flat(t)| + 1)
  {
    var h: nat :| IsRB(t, h);
    HeightOfRB(t, h);
    Pow2Mono(Height(t), h + h);
    Pow2Adds(h, h);
    SquareMono(Pow2(h), |Flat(t)| + 1);
  }

  lemma SquareMono(a: nat, b: nat)
    requires a <= b
    ensures a * a <= b * b
  {
    assert b * b - a * a == (b - a) * (b + a);
  }

  // ------------------------------------------------------------ first and next

  /** `s` without its first element, or nothing. */
  ghost function HeadOf(s: seq<Node>): Node? { if s == [] then null else s[0] }

  /** The root is in focus exactly when the context is empty. */
  lemma RootOutside(c: Ctx, t: T, top: Node?)
    requires Zip(c, t, top)
    ensures c.Top? <==> top == Root(t)
    ensures t.Br? ==> top != null
  {
    Unzip(c, t, top);
    if !c.Top? {
      TopInside(c, Root(t), top);
      SepDisjoint(c, Nodes(t));
    }
  }

  lemma {:induction false} TopInside(c: Ctx, hole: Node?, top: Node?)
    requires CRep(c, hole, top, null) && !c.Top?
    ensures top != null && top in CNodes(c)
  {
    if !c.up.Top? { TopInside(c.up, c.node, top); }
  }

  /** `parent->rb_left == node` tells the sides apart even when node is null. */
  lemma WhichSide(c: Ctx, t: T, top: Node?, h: nat)
    requires Zip(c, t, top) && EraseState(c, t, h) && !c.Top?
    ensures c.InL? <==> c.node.left == Root(t)
    ensures c.side.Br?
  {
    Peek(c, t, top);
  }

  class Tree {
    var root: Node?
    ghost var t: T

    /** The heap holds the value tree `t`. */
    ghost predicate Valid()
      reads this, Nodes(t)
    {
      Zip(Top, t, root)
    }

    constructor ()
      ensures Valid() && t == Leaf && root == null
    {
      root, t := null, Leaf;
      new;
      Unzip(Top, t, root);
    }

    /** The tail of both rotations and of rb_erase: the pointer that led to `x`,
        in its parent or in the root, now leads to `y`. */
    method Redirect(parent: Node?, x: Node, y: Node?, ghost up: Ctx, ghost s: set<Node>)
      requires SepC(up, s) && x in s && parent == Above(up) && CRep(up, x, root, null)
      modifies this`root, COwn(up)`left, COwn(up)`right
      ensures CRep(up, y, root, null)
    {
      if !up.Top? { SepDisjoint(up.up, s + {up.node} + Nodes(up.side)); }
      if parent != null {
        if x == parent.left {
          parent.left := y;
        } else {
          parent.right := y;
        }
      } else {
        root := y;
      }
    }

    /** __rb_rotate_left: x(a, y(b, c)) becomes y(x(a, b), c). */
    method RotateLeft(x: Node, ghost up: Ctx, ghost t: T)
      requires Zip(up, t, root) && t.Br? && t.r.Br? && x == t.node
      modifies this`root, {x, t.r.node}, Own(t.r.l)`parent, COwn(up)`left, COwn(up)`right
      ensures Zip(up, LeftRotated(t), root)
    {
      var parent := x.parent;
      Unzip(up, t, root);
      SepRight(t);
      SepDisjoint(up, Nodes(t));
      CtxAllocated(up);
      TreeAllocated(t);
      var right := TurnLeft(x, Above(up), t);
      Redirect(parent, x, right, up, Nodes(t));
      Unzip(up, LeftRotated(t), root);
    }

    /** __rb_rotate_right: x(y(a, b), c) becomes y(a, x(b, c)). */
    method RotateRight(x: Node, ghost up: Ctx, ghost t: T)
      requires Zip(up, t, root) && t.Br? && t.l.Br? && x == t.node
      modifies this`root, {x, t.l.node}, Own(t.l.r)`parent, COwn(up)`left, COwn(up)`right
      ensures Zip(up, RightRotated(t), root)
    {
      var parent := x.parent;
      Unzip(up, t, root);
      SepLeft(t);
      SepDisjoint(up, Nodes(t));
      CtxAllocated(up);
      TreeAllocated(t);
      var left := TurnRight(x, Above(up), t);
      Redirect(parent, x, left, up, Nodes(t));
      Unzip(up, RightRotated(t), root);
    }

    /** rb_set_black / rb_set_red on the node in focus. */
    method Paint(n: Node, red: bool, ghost c: Ctx, ghost t: T)
      requires Zip(c, t, root) && t.Br? && t.node == n
      modifies n`red
      ensures Zip(c, Painted(t, red), root)
    {
      Unzip(c, t, root);
      SepDisjoint(c, Nodes(t));
      CtxAllocated(c);
      TreeAllocated(t);
      assert Below(t);
      n.red := red;
      assert Rep(t.l, n) && Rep(t.r, n);
      assert Below(Painted(t, red));
      Unzip(c, Painted(t, red), root);
    }

    /** Paint a child of the node in focus. */
    method PaintChild(n: Node, red: bool, ghost up: Ctx, ghost t: T)
      requires Zip(up, t, root) && t.Br? && (n == Root(t.l) || n == Root(t.r))
      modifies n`red
      ensures Zip(up, ChildPainted(t, n, red), root)
    {
      ghost var isL := n == Root(t.l);
      ghost var c, k := if isL then InL(t.node, t.red, up, t.r) else InR(t.node, t.red, up, t.l), if isL then t.l else t.r;
      if isL { FocusL(c, k, root); } else { FocusR(c, k, root); }
      Paint(n, red, c, k);
      if isL { FocusL(c, Painted(k, red), root); } else { FocusR(c, Painted(k, red), root); }
    }

    /** rb_insert_color, uncle red: black goes down from the grandparent to its children. */
    method PushBlack(uncle: Node, parent: Node, gparent: Node, ghost up: Ctx, ghost t: T)
      requires Zip(up, t, root) && t.Br? && t.l.Br? && t.r.Br? && gparent == t.node
      requires {uncle, parent} == {t.l.node, t.r.node} && uncle != parent
      modifies {t.node, t.l.node, t.r.node}`red
      ensures Zip(up, Br(t.node, true, Painted(t.l, false), Painted(t.r, false)), root)
    {
      PaintChild(uncle, false, up, t);
      PaintChild(parent, false, up, ChildPainted(t, uncle, false));
      Paint(gparent, true, up, t.(l := Painted(t.l, false), r := Painted(t.r, false)));
    }

    /** rb_insert_color: parent black, grandparent red, and the parent rotated above it. */
    method LiftLeft(parent: Node, gparent: Node, ghost up: Ctx, ghost t: T)
      requires Zip(up, t, root) && t.Br? && t.l.Br? && parent == t.l.node && gparent == t.node
      modifies this`root, Nodes(t), COwn(up)
      ensures Zip(up, LiftedLeft(t), root)
    {
      Own2Left(t);
      Peek(up, t, root);
      PaintChild(parent, false, up, t);
      Paint(gparent, true, up, t.(l := Painted(t.l, false)));
      RotateRight(gparent, up, t.(l := Painted(t.l, false), red := true));
    }

    /** rb_insert_color, uncle black, parent the left child: at most two rotations settle it. */
    method SettleLeft(node: Node, parent: Node, gparent: Node, ghost c: Ctx, ghost t: T, ghost h: nat)
      returns (node': Node, ghost c': Ctx, ghost t': T)
      requires InsertState(c, t, h) && Zip(c, t, root)
      requires !c.Top? && c.red && c.up.InL? && !Red(c.up.side)
      requires t.node == node && c.node == parent && c.up.node == gparent
      modifies this`root, All(c, t)
      ensures InsertState(c', t', h) && Zip(c', t', root) && !c'.Top? && !c'.red && t'.node == node'
      ensures Whole(c', t') == Whole(c, t) && All(c', t') == All(c, t)
      ensures Depth(c') < Depth(c)
    {
      Peek(c, t, root);
      AllIs(c, t);
      var p: Node;
      ghost var y: T;
      if parent.right == node {
        FocusR(c, t, root);
        Own2Right(Br(parent, true, c.side, t));
        RotateLeft(parent, c.up, Br(parent, true, c.side, t));
        Rotated(c.up, Br(parent, true, c.side, t));
        p, node', t', y := node, parent, Br(parent, true, c.side, t.l), t.r;
      } else {
        FocusL(c, t, root);
        p, node', t', y := parent, node, t, c.side;
      }
      ghost var k := Br(p, true, t', y);
      FocusL(c.up, k, root);
      AllIs(c.up.up, Br(gparent, false, k, c.up.side));
      LiftLeft(p, gparent, c.up.up, Br(gparent, false, k, c.up.side));
      c' := InL(p, false, c.up.up, Br(gparent, true, y, c.up.side));
      FocusL(c', t', root);
      SettledLeft(c, t, c', t', h);
    }

    /** rb_insert_color: parent black, grandparent red, and the parent rotated above it. */
    method LiftRight(parent: Node, gparent: Node, ghost up: Ctx, ghost t: T)
      requires Zip(up, t, root) && t.Br? && t.r.Br? && parent == t.r.node && gparent == t.node
      modifies this`root, Nodes(t), COwn(up)
      ensures Zip(up, LiftedRight(t), root)
    {
      Own2Right(t);
      Peek(up, t, root);
      PaintChild(parent, false, up, t);
      Paint(gparent, true, up, t.(r := Painted(t.r, false)));
      RotateLeft(gparent, up, t.(r := Painted(t.r, false), red := true));
    }

    /** rb_insert_color, uncle black, parent the right child: at most two rotations settle it. */
    method SettleRight(node: Node, parent: Node, gparent: Node, ghost c: Ctx, ghost t: T, ghost h: nat)
      returns (node': Node, ghost c': Ctx, ghost t': T)
      requires InsertState(c, t, h) && Zip(c, t, root)
      requires !c.Top? && c.red && c.up.InR? && !Red(c.up.side)
      requires t.node == node && c.node == parent && c.up.node == gparent
      modifies this`root, All(c, t)
      ensures InsertState(c', t', h) && Zip(c', t', root) && !c'.Top? && !c'.red && t'.node == node'
      ensures Whole(c', t') == Whole(c, t) && All(c', t') == All(c, t)
      ensures Depth(c') < Depth(c)
    {
      Peek(c, t, root);
      AllIs(c, t);
      var p: Node;
      ghost var y: T;
      if parent.left == node {
        FocusL(c, t, root);
        Own2Left(Br(parent, true, t, c.side));
        RotateRight(parent, c.up, Br(parent, true, t, c.side));
        Rotated(c.up, Br(parent, true, t, c.side));
        p, node', t', y := node, parent, Br(parent, true, t.r, c.side), t.l;
      } else {
        FocusR(c, t, root);
        p, node', t', y := parent, node, t, c.side;
      }
      ghost var k := Br(p, true, y, t');
      FocusR(c.up, k, root);
      AllIs(c.up.up, Br(gparent, false, c.up.side, k));
      LiftRight(p, gparent, c.up.up, Br(gparent, false, c.up.side, k));
      c' := InR(p, false, c.up.up, Br(gparent, true, c.up.side, y));
      FocusR(c', t', root);
      SettledRight(c, t, c', t', h);
    }

    /** rb_insert_color, uncle red: the conflict moves two levels up. */
    method Recolor(uncle: Node, parent: Node, gparent: Node, ghost c: Ctx, ghost t: T, ghost h: nat) returns (ghost t': T)
      requires InsertState(c, t, h) && Zip(c, t, root) && !c.Top? && c.red && Red(c.up.side)
      requires uncle == Root(c.up.side) && c.node == parent && c.up.node == gparent
      modifies All(c, t)
      ensures InsertState(c.up.up, t', h + 1) && Zip(c.up.up, t', root) && t'.node == gparent
      ensures Whole(c.up.up, t') == Whole(c, t) && All(c.up.up, t') == All(c, t)
    {
      ghost var k := Up(c, t);
      ghost var g := Up(c.up, k);
      Focus(c, t, root);
      Focus(c.up, k, root);
      AllIs(c.up.up, g);
      Own2Left(g);
      Own2Right(g);
      Peek(c.up, k, root);
      PushBlack(uncle, parent, gparent, c.up.up, g);
      t' := Br(g.node, true, Painted(g.l, false), Painted(g.r, false));
      FocusWhole(c.up.up, g, t');
      assert COk(c.up, h);
    }

    /** rb_insert_color: the whole loop.  The in-order sequence is kept, and the
        result is a red-black tree whatever conflict the new red leaf caused. */
    method InsertColor(node0: Node, ghost c0: Ctx, ghost t0: T, ghost h0: nat)
      requires InsertState(c0, t0, h0) && Zip(c0, t0, root) && t0.node == node0
      modifies this, All(c0, t0)
      ensures Valid() && RB(t) && Flat(t) == Whole(c0, t0) && Nodes(t) == All(c0, t0)
    {
      var node := node0;
      ghost var c, k, h := c0, t0, h0;
      Peek(c, k, root);
      while node.parent != null && node.parent.red
        invariant InsertState(c, k, h) && Zip(c, k, root) && k.node == node
        invariant node.parent == Above(c) && (!c.Top? ==> c.node.red == c.red)
        invariant Whole(c, k) == Whole(c0, t0) && All(c, k) == All(c0, t0)
        decreases Depth(c)
      {
        node, c, k, h := InsertTurn(node, c, k, h);
        Peek(c, k, root);
      }
      BlackenRoot(c, k, h);
    }

    /** One turn of the loop. */
    method InsertTurn(node: Node, ghost c: Ctx, ghost t: T, ghost h: nat)
      returns (node': Node, ghost c': Ctx, ghost t': T, ghost h': nat)
      requires InsertState(c, t, h) && Zip(c, t, root) && t.node == node && !c.Top? && c.red
      requires node.parent == c.node
      modifies this`root, All(c, t)
      ensures InsertState(c', t', h') && Zip(c', t', root) && t'.node == node'
      ensures Whole(c', t') == Whole(c, t) && All(c', t') == All(c, t) && Depth(c') < Depth(c)
    {
      var parent := node.parent;
      Focus(c, t, root);
      Peek(c.up, Up(c, t), root);
      UncleRed(c, t, root);
      assert Depth(c.up.up) < Depth(c.up) < Depth(c);
      var gparent := parent.parent;
      if parent == gparent.left {
        var uncle := gparent.right;
        if uncle != null && uncle.red {
          t' := Recolor(uncle, parent, gparent, c, t, h);
          node', c', h' := gparent, c.up.up, h + 1;
        } else {
          node', c', t' := SettleLeft(node, parent, gparent, c, t, h);
          h' := h;
        }
      } else {
        var uncle := gparent.left;
        if uncle != null && uncle.red {
          t' := Recolor(uncle, parent, gparent, c, t, h);
          node', c', h' := gparent, c.up.up, h + 1;
        } else {
          node', c', t' := SettleRight(node, parent, gparent, c, t, h);
          h' := h;
        }
      }
    }

    /** rb_set_black(root->rb_node) */
    method BlackenRoot(ghost c: Ctx, ghost k: T, ghost h: nat)
      requires InsertState(c, k, h) && Zip(c, k, root) && (c.Top? || !c.red)
      modifies this`t, All(c, k)`red
      ensures Valid() && RB(t) && Flat(t) == Whole(c, k) && Nodes(t) == All(c, k)
    {
      ghost var h' := PlugRB(c, k, h);
      ZipIsPlug(c, k, root);
      RootOfPlug(c, k);
      ghost var p := Plug(c, k);
      Peek(Top, p, root);
      Blackened(p, h');
      Paint(root, false, Top, p);
      Install(Painted(p, false));
    }

    /** __rb_erase_color, red sibling, hole on the left. */
    method LiftSiblingLeft(parent: Node, other: Node, ghost c: Ctx, ghost t: T, ghost h: nat)
      requires EraseState(c, t, h) && Zip(c, t, root) && c.InL? && Red(c.side)
      requires parent == c.node && other == c.side.node
      modifies this`root, All(c, t)
      ensures Zip(SiblingUpLeft(c), t, root)
    {
      ghost var k := Up(c, t);
      Focus(c, t, root);
      AllIs(c.up, k);
      AllIs(c, t);
      Own2Right(k);
      Peek(c.up, k, root);
      PaintChild(other, false, c.up, k);
      Paint(parent, true, c.up, Br(parent, false, t, Painted(c.side, false)));
      RotateLeft(parent, c.up, Br(parent, true, t, Painted(c.side, false)));
      ghost var c1 := SiblingUpLeft(c);
      Focus(c1, t, root);
      Focus(c1.up, Up(c1, t), root);
    }

    /** __rb_erase_color, near nephew red, far nephew black, hole on the left. */
    method LiftNephewLeft(other: Node, nephew: Node, ghost c: Ctx, ghost t: T)
      requires Zip(c, t, root) && c.InL? && c.side.Br? && c.side.l.Br?
      requires other == c.side.node && nephew == c.side.l.node
      modifies this`root, All(c, t)
      ensures Zip(InL(c.node, c.red, c.up, Br(c.side.l.node, false, c.side.l.l, Br(c.side.node, true, c.side.l.r, c.side.r))), t, root)
    {
      ghost var d := InR(c.node, c.red, c.up, t);
      Focus(c, t, root);
      Focus(d, c.side, root);
      AllIs(d, c.side);
      Own2Left(c.side);
      Peek(d, c.side, root);
      PaintChild(nephew, false, d, c.side);
      Paint(other, true, d, Br(c.side.node, c.side.red, Painted(c.side.l, false), c.side.r));
      ghost var k := Br(c.side.node, true, Painted(c.side.l, false), c.side.r);
      RotateRight(other, d, k);
      Focus(d, RightRotated(k), root);
      Focus(InL(c.node, c.red, c.up, RightRotated(k)), t, root);
    }

    /** __rb_erase_color, far nephew red, hole on the left: the loop ends here. */
    method PayLeft(parent: Node, other: Node, nephew: Node, ghost c: Ctx, ghost t: T)
      requires Zip(c, t, root) && c.InL? && c.side.Br? && c.side.r.Br?
      requires parent == c.node && other == c.side.node && nephew == c.side.r.node
      modifies this`root, All(c, t)
      ensures Zip(c.up, PaidLeft(c, t), root)
    {
      ghost var k, d := Up(c, t), InR(c.node, false, c.up, t);
      Focus(c, t, root);
      Peek(c, t, root);
      AllIs(c.up, k);
      AllIs(c, t);
      Own2Right(k);
      Own2Right(c.side);
      Peek(c.up, k, root);
      PaintChild(other, parent.red, c.up, k);
      ghost var s1 := Painted(c.side, c.red);
      Paint(parent, false, c.up, Br(parent, c.red, t, s1));
      Focus(d, s1, root);
      Peek(d, s1, root);
      PaintChild(nephew, false, d, s1);
      ghost var s2 := s1.(r := Painted(c.side.r, false));
      Focus(d, s2, root);
      RotateLeft(parent, c.up, Br(parent, false, t, s2));
    }

    /** __rb_erase_color: after this the sibling is black. */
    method BlackSiblingLeft(parent: Node, ghost c: Ctx, ghost t: T, ghost h: nat) returns (other: Node, ghost d: Ctx)
      requires EraseState(c, t, h) && Zip(c, t, root) && !Red(t) && c.InL? && parent == c.node
      modifies this`root, All(c, t)
      ensures EraseState(d, t, h) && Zip(d, t, root) && d.InL? && parent == d.node
      ensures d.side.Br? && !d.side.red && other == d.side.node
      ensures Whole(d, t) == Whole(c, t) && All(d, t) == All(c, t)
      ensures Depth(d.up) < Depth(c) || (Depth(d.up) == Depth(c) && d.red)
    {
      d := c;
      Peek(c, t, root);
      SideRep(c, t, root);
      other := parent.right;
      if other.red {
        RedSiblingLeft(c, t, h);
        LiftSiblingLeft(parent, other, c, t, h);
        d := SiblingUpLeft(c);
        Peek(d, t, root);
        other := parent.right;
      }
    }

    /** __rb_erase_color: after this the far nephew is red. */
    method RedFarNephewLeft(parent: Node, other0: Node, ghost c: Ctx, ghost t: T, ghost h: nat)
      returns (other: Node, ghost d: Ctx)
      requires EraseState(c, t, h) && Zip(c, t, root) && !Red(t) && c.InL? && parent == c.node
      requires c.side.Br? && !c.side.red && other0 == c.side.node && (Red(c.side.l) || Red(c.side.r))
      modifies this`root, All(c, t)
      ensures EraseState(d, t, h) && Zip(d, t, root) && d.InL? && parent == d.node && d.up == c.up && d.red == c.red
      ensures d.side.Br? && !d.side.red && other == d.side.node && Red(d.side.r)
      ensures Whole(d, t) == Whole(c, t) && All(d, t) == All(c, t)
    {
      other, d := other0, c;
      SideRep(c, t, root);
      if other.right == null || !other.right.red {
        NearNephewLeft(c, t, h);
        LiftNephewLeft(other, other.left, c, t);
        d := InL(c.node, c.red, c.up, Br(c.side.l.node, false, c.side.l.l, Br(c.side.node, true, c.side.l.r, c.side.r)));
        Peek(d, t, root);
        other := parent.right;
      }
    }

    /** One turn of __rb_erase_color with the hole on the left. */
    method EraseTurnLeft(parent: Node, ghost c: Ctx, ghost t: T, ghost h: nat)
      returns (done: bool, ghost c': Ctx, ghost t': T, ghost h': nat)
      requires EraseState(c, t, h) && Zip(c, t, root) && !Red(t) && c.InL? && parent == c.node
      modifies this`root, All(c, t)
      ensures Zip(c', t', root) && Whole(c', t') == Whole(c, t) && All(c', t') == All(c, t)
      ensures !done ==> EraseState(c', t', h') && Root(t') == parent
      ensures !done ==> Depth(c') < Depth(c) || (Depth(c') == Depth(c) && Red(t'))
      ensures done ==> Settled(c', t', h') && t'.Br?
    {
      var other, d := BlackSiblingLeft(parent, c, t, h);
      SideRep(d, t, root);
      if (other.left == null || !other.left.red) && (other.right == null || !other.right.red) {
        BlackNephewsLeft(d, t, h);
        AllIs(d, t);
        BlackNephewsHeapLeft(other, d, t);
        c', t', h' := d.up, Br(d.node, d.red, t, Painted(d.side, true)), if d.red then h else h + 1;
        return false, c', t', h';
      }
      other, d := RedFarNephewLeft(parent, other, d, t, h);
      SideRep(d, t, root);
      FarNephewLeft(d, t, h);
      PayLeft(parent, other, other.right, d, t);
      c', t', h' := d.up, PaidLeft(d, t), if d.red then h + 1 else h + 2;
      return true, c', t', h';
    }

    method BlackNephewsHeapLeft(other: Node, ghost c: Ctx, ghost t: T)
      requires Zip(c, t, root) && c.InL? && c.side.Br? && other == c.side.node
      modifies other`red
      ensures Zip(c.up, Br(c.node, c.red, t, Painted(c.side, true)), root)
    {
      Focus(c, t, root);
      Peek(c.up, Up(c, t), root);
      PaintChild(other, true, c.up, Up(c, t));
    }

    /** __rb_erase_color, red sibling, hole on the right. */
    method LiftSiblingRight(parent: Node, other: Node, ghost c: Ctx, ghost t: T, ghost h: nat)
      requires EraseState(c, t, h) && Zip(c, t, root) && c.InR? && Red(c.side)
      requires parent == c.node && other == c.side.node
      modifies this`root, All(c, t)
      ensures Zip(SiblingUpRight(c), t, root)
    {
      ghost var k := Up(c, t);
      Focus(c, t, root);
      AllIs(c.up, k);
      AllIs(c, t);
      Own2Left(k);
      Peek(c.up, k, root);
      PaintChild(other, false, c.up, k);
      Paint(parent, true, c.up, Br(parent, false, Painted(c.side, false), t));
      RotateRight(parent, c.up, Br(parent, true, Painted(c.side, false), t));
      ghost var c1 := SiblingUpRight(c);
      Focus(c1, t, root);
      Focus(c1.up, Up(c1, t), root);
    }

    /** __rb_erase_color, near nephew red, far nephew black, hole on the right. */
    method LiftNephewRight(other: Node, nephew: Node, ghost c: Ctx, ghost t: T)
      requires Zip(c, t, root) && c.InR? && c.side.Br? && c.side.r.Br?
      requires other == c.side.node && nephew == c.side.r.node
      modifies this`root, All(c, t)
      ensures Zip(InR(c.node, c.red, c.up, Br(c.side.r.node, false, Br(c.side.node, true, c.side.l, c.side.r.l), c.side.r.r)), t, root)
    {
      ghost var d := InL(c.node, c.red, c.up, t);
      Focus(c, t, root);
      Focus(d, c.side, root);
      AllIs(d, c.side);
      Own2Right(c.side);
      Peek(d, c.side, root);
      PaintChild(nephew, false, d, c.side);
      Paint(other, true, d, Br(c.side.node, c.side.red, c.side.l, Painted(c.side.r, false)));
      ghost var k := Br(c.side.node, true, c.side.l, Painted(c.side.r, false));
      RotateLeft(other, d, k);
      Focus(d, LeftRotated(k), root);
      Focus(InR(c.node, c.red, c.up, LeftRotated(k)), t, root);
    }

    /** __rb_erase_color, far nephew red, hole on the right: the loop ends here. */
    method PayRight(parent: Node, other: Node, nephew: Node, ghost c: Ctx, ghost t: T)
      requires Zip(c, t, root) && c.InR? && c.side.Br? && c.side.l.Br?
      requires parent == c.node && other == c.side.node && nephew == c.side.l.node
      modifies this`root, All(c, t)
      ensures Zip(c.up, PaidRight(c, t), root)
    {
      ghost var k, d := Up(c, t), InL(c.node, false, c.up, t);
      Focus(c, t, root);
      Peek(c, t, root);
      AllIs(c.up, k);
      AllIs(c, t);
      Own2Left(k);
      Own2Left(c.side);
      Peek(c.up, k, root);
      PaintChild(other, parent.red, c.up, k);
      ghost var s1 := Painted(c.side, c.red);
      Paint(parent, false, c.up, Br(parent, c.red, s1, t));
      Focus(d, s1, root);
      Peek(d, s1, root);
      PaintChild(nephew, false, d, s1);
      ghost var s2 := s1.(l := Painted(c.side.l, false));
      Focus(d, s2, root);
      RotateRight(parent, c.up, Br(parent, false, s2, t));
    }

    /** __rb_erase_color: after this the sibling is black. */
    method BlackSiblingRight(parent: Node, ghost c: Ctx, ghost t: T, ghost h: nat) returns (other: Node, ghost d: Ctx)
      requires EraseState(c, t, h) && Zip(c, t, root) && !Red(t) && c.InR? && parent == c.node
      modifies this`root, All(c, t)
      ensures EraseState(d, t, h) && Zip(d, t, root) && d.InR? && parent == d.node
      ensures d.side.Br? && !d.side.red && other == d.side.node
      ensures Whole(d, t) == Whole(c, t) && All(d, t) == All(c, t)
      ensures Depth(d.up) < Depth(c) || (Depth(d.up) == Depth(c) && d.red)
    {
      d := c;
      Peek(c, t, root);
      SideRep(c, t, root);
      other := parent.left;
      if other.red {
        RedSiblingRight(c, t, h);
        LiftSiblingRight(parent, other, c, t, h);
        d := SiblingUpRight(c);
        Peek(d, t, root);
        other := parent.left;
      }
    }

    /** __rb_erase_color: after this the far nephew is red. */
    method RedFarNephewRight(parent: Node, other0: Node, ghost c: Ctx, ghost t: T, ghost h: nat)
      returns (other: Node, ghost d: Ctx)
      requires EraseState(c, t, h) && Zip(c, t, root) && !Red(t) && c.InR? && parent == c.node
      requires c.side.Br? && !c.side.red && other0 == c.side.node && (Red(c.side.l) || Red(c.side.r))
      modifies this`root, All(c, t)
      ensures EraseState(d, t, h) && Zip(d, t, root) && d.InR? && parent == d.node && d.up == c.up && d.red == c.red
      ensures d.side.Br? && !d.side.red && other == d.side.node && Red(d.side.l)
      ensures Whole(d, t) == Whole(c, t) && All(d, t) == All(c, t)
    {
      other, d := other0, c;
      SideRep(c, t, root);
      if other.left == null || !other.left.red {
        NearNephewRight(c, t, h);
        LiftNephewRight(other, other.right, c, t);
        d := InR(c.node, c.red, c.up, Br(c.side.r.node, false, Br(c.side.node, true, c.side.l, c.side.r.l), c.side.r.r));
        Peek(d, t, root);
        other := parent.left;
      }
    }

    /** One turn of __rb_erase_color with the hole on the right. */
    method EraseTurnRight(parent: Node, ghost c: Ctx, ghost t: T, ghost h: nat)
      returns (done: bool, ghost c': Ctx, ghost t': T, ghost h': nat)
      requires EraseState(c, t, h) && Zip(c, t, root) && !Red(t) && c.InR? && parent == c.node
      modifies this`root, All(c, t)
      ensures Zip(c', t', root) && Whole(c', t') == Whole(c, t) && All(c', t') == All(c, t)
      ensures !done ==> EraseState(c', t', h') && Root(t') == parent
      ensures !done ==> Depth(c') < Depth(c) || (Depth(c') == Depth(c) && Red(t'))
      ensures done ==> Settled(c', t', h') && t'.Br?
    {
      var other, d := BlackSiblingRight(parent, c, t, h);
      SideRep(d, t, root);
      if (other.left == null || !other.left.red) && (other.right == null || !other.right.red) {
        BlackNephewsRight(d, t, h);
        AllIs(d, t);
        BlackNephewsHeapRight(other, d, t);
        c', t', h' := d.up, Br(d.node, d.red, Painted(d.side, true), t), if d.red then h else h + 1;
        return false, c', t', h';
      }
      other, d := RedFarNephewRight(parent, other, d, t, h);
      SideRep(d, t, root);
      FarNephewRight(d, t, h);
      PayRight(parent, other, other.left, d, t);
      c', t', h' := d.up, PaidRight(d, t), if d.red then h + 1 else h + 2;
      return true, c', t', h';
    }

    method BlackNephewsHeapRight(other: Node, ghost c: Ctx, ghost t: T)
      requires Zip(c, t, root) && c.InR? && c.side.Br? && other == c.side.node
      modifies other`red
      ensures Zip(c.up, Br(c.node, c.red, Painted(c.side, true), t), root)
    {
      Focus(c, t, root);
      Peek(c.up, Up(c, t), root);
      PaintChild(other, true, c.up, Up(c, t));
    }

    /** __rb_erase_color */
    method EraseColor(node0: Node?, parent0: Node?, ghost c0: Ctx, ghost t0: T, ghost h0: nat)
      requires EraseState(c0, t0, h0) && Zip(c0, t0, root) && node0 == Root(t0) && parent0 == Above(c0)
      modifies this, All(c0, t0)
      ensures Valid() && RB(t) && Flat(t) == Whole(c0, t0) && Nodes(t) == All(c0, t0)
    {
      var node, parent, done := node0, parent0, false;
      ghost var c, k, h := c0, t0, h0;
      Peek(c, k, root);
      RootOutside(c, k, root);
      while (node == null || !node.red) && node != root
        invariant Zip(c, k, root) && Whole(c, k) == Whole(c0, t0) && All(c, k) == All(c0, t0)
        invariant !done ==> EraseState(c, k, h) && node == Root(k) && parent == Above(c)
        invariant !done ==> (k.Br? ==> node.red == k.red) && (c.Top? <==> node == root)
        invariant done ==> Settled(c, k, h) && node == root && root != null
        decreases Depth(c), if Red(k) then 0 else 1
      {
        WhichSide(c, k, root, h);
        if parent.left == node {
          done, c, k, h := EraseTurnLeft(parent, c, k, h);
        } else {
          done, c, k, h := EraseTurnRight(parent, c, k, h);
        }
        Peek(c, k, root);
        RootOutside(c, k, root);
        if done {
          node := root;
          break;
        }
        node := parent;
        parent := node.parent;
      }
      if done {
        Conclude(c, k, h);
      } else {
        PayAtEnd(node, c, k, h);
      }
    }

    /** The loop ran into a red node or the root: painting it black is all that is left. */
    method PayAtEnd(node: Node?, ghost c: Ctx, ghost k: T, ghost h: nat)
      requires EraseState(c, k, h) && Zip(c, k, root) && node == Root(k) && (Red(k) || c.Top?)
      modifies this`t, All(c, k)`red
      ensures Valid() && RB(t) && Flat(t) == Whole(c, k) && Nodes(t) == All(c, k)
    {
      ghost var k', h' := k, h;
      if node != null {
        AllIs(c, k);
        Paint(node, false, c, k);
        k' := Painted(k, false);
        FocusWhole(c, k, k');
        if k.red { h' := h + 1; }
      }
      assert Settled(c, k', h');
      Conclude2(c, k', h');
    }

    /** After the `break` the root is painted black, which it is already. */
    method Conclude(ghost c: Ctx, ghost k: T, ghost h: nat)
      requires Settled(c, k, h) && Zip(c, k, root) && root != null
      modifies this`t, All(c, k)`red
      ensures Valid() && RB(t) && Flat(t) == Whole(c, k) && Nodes(t) == All(c, k)
    {
      ghost var h' := PlugRB(c, k, h);
      ZipIsPlug(c, k, root);
      ghost var p := Plug(c, k);
      Peek(Top, p, root);
      Paint(root, false, Top, p);
      assert Painted(p, false) == p && RB(p);
      AllIs(Top, p);
      WholeIs(Top, p);
      Install(p);
    }

    ghost method Conclude2(c: Ctx, k: T, h: nat)
      requires Settled(c, k, h) && Zip(c, k, root)
      modifies this`t
      ensures Valid() && RB(t) && Flat(t) == Whole(c, k) && Nodes(t) == All(c, k)
    {
      var h' := PlugRB(c, k, h);
      ZipIsPlug(c, k, root);
      assert RB(Plug(c, k));
      Install(Plug(c, k));
    }

    ghost method Install(p: T)
      requires Zip(Top, p, root)
      modifies this`t
      ensures t == p && Valid()
    {
      Unzip(Top, p, root);
      t := p;
      assert Rep(p, null);
      Unzip(Top, p, root);
    }

    /** rb_erase, at most one child: the child takes the node's place. */
    method SpliceOut(node: Node, child: Node?, ghost c: Ctx, ghost k: T, ghost kid: T)
      requires Zip(c, k, root) && k.Br? && node == k.node && child == Root(kid)
      requires (k.l.Leaf? && kid == k.r) || (k.r.Leaf? && kid == k.l)
      modifies this`root, Own(kid)`parent, COwn(c)`left, COwn(c)`right
      ensures Zip(c, kid, root)
    {
      Unzip(c, k, root);
      SepDisjoint(c, Nodes(k));
      CtxAllocated(c);
      TreeAllocated(kid);
      assert Below(k) && Rep(kid, node) && Below(kid) && Sep(kid);
      assert Own(kid) <= Nodes(kid) <= Nodes(k) && COwn(c) <= CNodes(c);
      var parent := node.parent;
      Reparent(child, parent, c, k, kid);
      Redirect(parent, node, child, c, Nodes(k));
      assert Rep(kid, parent);
      SepSub(c, Nodes(k), Nodes(kid));
      assert Sep(kid);
      assert SepC(c, Nodes(kid));
      assert CRep(c, Root(kid), root, null);
      assert Rep(kid, Above(c));
      Unzip(c, kid, root);
    }

    /** The child gets its parent's parent. */
    method Reparent(child: Node?, parent: Node?, ghost c: Ctx, ghost k: T, ghost kid: T)
      requires k.Br? && child == Root(kid) && Sep(kid) && Rep(kid, k.node) && Own(kid) <= Nodes(kid) && k.node !in Nodes(kid)
      requires Nodes(kid) !! CNodes(c) && CRep(c, k.node, root, null)
      modifies Own(kid)`parent
      ensures Rep(kid, parent) && CRep(c, k.node, root, null)
    {
      CtxAllocated(c);
      TreeAllocated(kid);
      assert Below(kid);
      if child != null { child.parent := parent; }
      assert Below(kid);
    }

    /** rb_erase, two children: the successor `y`, found at the end of the spine `q`,
        takes the place of `node`, and its right child takes its own. */
    method ReplaceBySuccessor(node: Node, y: Node, ghost c: Ctx, ghost red: bool, ghost l: T, ghost q: Ctx, ghost k: T)
      returns (parent: Node)
      requires Spine(q) && k.Br? && k.l.Leaf? && y == k.node && l.Br? && Parts(q, node, red, c, l, k, root)
      modifies this`root, COwn(c), Nodes(k), Nodes(l), CNodes(q)
      ensures Parts(q, y, red, c, l, k.r, root)
      ensures parent == if q.Top? then y else q.node
    {
      PartsApart(q, node, red, c, l, k);
      TreeAllocated(l);
      parent := Unhook(node, y, c, red, l, q, k);
      TakeOver(node, y, c, red, l, q, k);
    }

    /** The second half: `y` takes over the left child, parent and colour of `node`. */
    method TakeOver(node: Node, y: Node, ghost c: Ctx, ghost red: bool, ghost l: T, ghost q: Ctx, ghost k: T)
      requires l.Br? && k.Br? && y == k.node && node.left == Root(l) && node.parent == Above(c) && node.red == red && Sep(l)
      requires Nodes(k) !! CNodes(q) && node !in Nodes(k) + CNodes(q) && Nodes(l) !! Nodes(k) + CNodes(q) && node !in Nodes(l)
      requires CNodes(c) !! Nodes(k) + CNodes(q) + {node} + Nodes(l) && y !in Nodes(k.r) && Nodes(k.r) <= Nodes(k)
      requires CRep(c, y, root, null) && Rep(l, node)
      requires Rep(k.r, if q.Top? then y else q.node) && y.right == TopOf(q, Root(k.r))
      requires CRep(q, Root(k.r), TopOf(q, Root(k.r)), y)
      modifies y`parent, y`red, y`left, Own(l)`parent
      ensures y.parent == Above(c) && y.red == red && y.left == Root(l) && Rep(l, y) && CRep(c, y, root, null)
      ensures Rep(k.r, if q.Top? then y else q.node) && y.right == TopOf(q, Root(k.r))
      ensures CRep(q, Root(k.r), TopOf(q, Root(k.r)), y)
    {
      CtxAllocated(c); CtxAllocated(q); TreeAllocated(k.r); TreeAllocated(l);
      assert Own(l) <= Nodes(l);
      Inherit(node, y, l);
    }

    /** The first half: `y` leaves its place and the pointer to `node` leads to it. */
    method Unhook(node: Node, y: Node, ghost c: Ctx, ghost red: bool, ghost l: T, ghost q: Ctx, ghost k: T)
      returns (parent: Node)
      requires Spine(q) && k.Br? && y == k.node && Parts(q, node, red, c, l, k, root)
      modifies this`root, COwn(c)`left, COwn(c)`right, Nodes(k.r)`parent, CNodes(q)`left, CNodes(q)`parent, y`right
      ensures CRep(c, y, root, null) && Rep(l, node)
      ensures Rep(k.r, if q.Top? then y else q.node) && y.right == TopOf(q, Root(k.r))
      ensures CRep(q, Root(k.r), TopOf(q, Root(k.r)), y)
      ensures parent == if q.Top? then y else q.node
    {
      PartsApart(q, node, red, c, l, k);
      CtxAllocated(c); CtxAllocated(q); TreeAllocated(k.r); TreeAllocated(l);
      assert Below(k) && Rep(k.r, y);
      Redirect(node.parent, node, y, c, Nodes(k) + CNodes(q) + {node} + Nodes(l));
      parent := Detach(node, y, q, k);
    }

    /** rb_erase: exactly the given node leaves the in-order sequence, and the rest
        is a red-black tree again. */
    method Erase(node: Node)
      requires Valid() && RB(t) && node in Nodes(t)
      modifies this, Nodes(t)
      ensures Valid() && RB(t)
      ensures Nodes(t) == old(Nodes(t)) - {node} && LessOne(old(Flat(t)), node, Flat(t))
    {
      ghost var h0: nat :| IsRB(t, h0);
      ghost var c, k, h := Locate(Top, t, node, h0);
      ZipIsPlug(c, k, root);
      Peek(c, k, root);
      if node.left == null {
        EraseSpliced(node, node.right, c, k, k.r, h);
      } else if node.right == null {
        EraseSpliced(node, node.left, c, k, k.l, h);
      } else {
        EraseReplaced(node, c, k, h);
      }
    }

    method EraseSpliced(node: Node, child: Node?, ghost c: Ctx, ghost k: T, ghost kid: T, ghost h: nat)
      requires Zip(c, k, root) && Settled(c, k, h) && k.Br? && node == k.node && child == Root(kid)
      requires (k.l.Leaf? && kid == k.r) || (k.r.Leaf? && kid == k.l)
      modifies this, All(c, k)
      ensures Valid() && RB(t)
      ensures Nodes(t) == All(c, k) - {node} && LessOne(Whole(c, k), node, Flat(t))
    {
      Peek(c, k, root);
      var parent, red := node.parent, node.red;
      SplicedState(c, k, kid, h);
      SplicedNodes(c, k, kid, root);
      SpliceOut(node, child, c, k, kid);
      if !red {
        EraseColor(child, parent, c, kid, h - 1);
      } else {
        Conclude2(c, kid, h);
      }
    }

    method EraseReplaced(node: Node, ghost c: Ctx, ghost k0: T, ghost h0: nat)
      requires Zip(c, k0, root) && Settled(c, k0, h0) && k0.Br? && node == k0.node && k0.l.Br? && k0.r.Br?
      modifies this, All(c, k0)
      ensures Valid() && RB(t)
      ensures Nodes(t) == All(c, k0) - {node} && LessOne(Whole(c, k0), node, Flat(t))
    {
      var y;
      ghost var q, k, h;
      y, q, k, h := Leftmost(node, c, k0, h0);
      ghost var d, d' := Append(q, InR(node, k0.red, c, k0.l)), Append(q, InR(y, k0.red, c, k0.l));
      Peek(d, k, root);
      var child, red := y.right, y.red;
      ReplacedState(q, node, k0.red, c, k0.l, k, h);
      PartsIsZip(q, node, k0.red, c, k0.l, k, root);
      ReplacedNodes(q, node, k0.red, c, k0.l, k);
      ReplacedWithin(q, node, k0.red, c, k0.l, k);
      var parent := ReplaceBySuccessor(node, y, c, k0.red, k0.l, q, k);
      PartsIsZip(q, y, k0.red, c, k0.l, k.r, root);
      if !red {
        EraseColor(child, parent, d', k.r, h - 1);
      } else {
        Conclude2(d', k.r, h);
      }
    }

    /** The successor of a node that has a right child: the left end of that subtree. */
    method Leftmost(node: Node, ghost c: Ctx, ghost k0: T, ghost h0: nat) returns (y: Node, ghost q: Ctx, ghost k: T, ghost h: nat)
      requires Zip(c, k0, root) && Settled(c, k0, h0) && k0.Br? && node == k0.node && k0.r.Br?
      ensures Spine(q) && k.Br? && k.l.Leaf? && y == k.node
      ensures var d := Append(q, InR(node, k0.red, c, k0.l));
              && Zip(d, k, root) && Settled(d, k, h) && Whole(d, k) == Whole(c, k0) && All(d, k) == All(c, k0)
    {
      ghost var b := InR(node, k0.red, c, k0.l);
      Focus(b, k0.r, root);
      Peek(c, k0, root);
      y := node.right;
      q, k := Top, k0.r;
      h := StepDown(c, k0, h0);
      Peek(b, k, root);
      while y.left != null
        invariant Spine(q) && k.Br? && y == k.node && y.left == Root(k.l)
        invariant Zip(Append(q, b), k, root) && Settled(Append(q, b), k, h)
        invariant Whole(Append(q, b), k) == Whole(c, k0) && All(Append(q, b), k) == All(c, k0)
        decreases k
      {
        h := StepDown(Append(q, b), k, h);
        q, k := InL(k.node, k.red, q, k.r), k.l;
        Focus(Append(q, b), k, root);
        Peek(Append(q, b), k, root);
        y := y.left;
      }
    }

    /** rb_link_node: a red leaf at the hole of the context. */
    method LinkNode(node: Node, parent: Node?, isLeft: bool, ghost c: Ctx)
      requires Zip(c, Leaf, root) && node !in CNodes(c) && parent == Above(c) && (!c.Top? ==> isLeft == c.InL?)
      modifies this`root, node, COwn(c)`left, COwn(c)`right
      ensures Zip(c, Br(node, true, Leaf, Leaf), root)
    {
      ghost var k := Br(node, true, Leaf, Leaf);
      Unzip(c, Leaf, root);
      CtxAllocated(c);
      SepAdd(c, {}, node);
      assert {} + {node} == {node} == Nodes(k);
      node.parent, node.red, node.left, node.right := parent, true, null, null;
      FillHole(node, parent, isLeft, c);
      assert Below(k);
      Unzip(c, k, root);
    }

    /** *rb_link = node */
    method FillHole(node: Node, parent: Node?, isLeft: bool, ghost c: Ctx)
      requires SepC(c, {node}) && CRep(c, null, root, null) && parent == Above(c) && (!c.Top? ==> isLeft == c.InL?)
      modifies this`root, COwn(c)`left, COwn(c)`right
      ensures CRep(c, node, root, null)
    {
      if !c.Top? { SepDisjoint(c.up, {node} + {c.node} + Nodes(c.side)); }
      if parent == null {
        root := node;
      } else if isLeft {
        parent.left := node;
      } else {
        parent.right := node;
      }
    }

    /** rb_first */
    method First() returns (n: Node?)
      requires Valid()
      ensures n == HeadOf(Flat(t))
    {
      Peek(Top, t, root);
      WholeIs(Top, t);
      n := root;
      if n == null { return; }
      ghost var c, k := Top, t;
      while n.left != null
        invariant Zip(c, k, root) && k.Br? && n == k.node && n.left == Root(k.l)
        invariant Before(c) == [] && Whole(c, k) == Flat(t)
        decreases k
      {
        c, k := InL(k.node, k.red, c, k.r), k.l;
        Focus(c, k, root);
        Peek(c, k, root);
        n := n.left;
      }
      WholeIs(c, k);
      assert Flat(k) == [k.node] + Flat(k.r);
    }

    /** rb_next: the node after `node` in the in-order sequence, or null at its end; null also for a
        node marked as outside any tree by being its own parent */
    method Next(node: Node) returns (n: Node?)
      requires Valid() && RB(t) && (node in Nodes(t) || node.parent == node)
      ensures node !in Nodes(t) ==> n == null
      ensures node in Nodes(t) ==> exists i: nat :: FollowsAt(Flat(t), i, node, n)
    {
      ghost var c, k := Top, Leaf;
      if node in Nodes(t) {
        ghost var h0: nat :| IsRB(t, h0);
        ghost var h;
        c, k, h := Locate(Top, t, node, h0);
        ZipIsPlug(c, k, root);
        Peek(c, k, root);
        NextPlace(c, k);
      }
      if node.parent == node { return null; }
      n := NextAt(node, c, k);
      ghost var i := |Before(c)| + |Flat(k.l)|;
      assert FollowsAt(Flat(t), i, node, n);
    }

    /** The walk of rb_next from a node at a known place. */
    method NextAt(node: Node, ghost c: Ctx, ghost k: T) returns (n: Node?)
      requires Zip(c, k, root) && k.Br? && node == k.node
      ensures n == HeadOf(Flat(k.r) + After(c))
    {
      Peek(c, k, root);
      if node.right != null {
        Focus(InR(k.node, k.red, c, k.l), k.r, root);
        n := LeftEnd(node.right, InR(k.node, k.red, c, k.l), k.r, After(c));
      } else {
        assert Flat(k.r) + After(c) == After(c);
        n := FirstRightTurn(node, c, k);
      }
    }

    /** Down and then left as far as possible. */
    method LeftEnd(n0: Node, ghost c: Ctx, ghost k: T, ghost rest0: seq<Node>) returns (n: Node)
      requires Zip(c, k, root) && k.Br? && n0 == k.node
      ensures n == HeadOf(Flat(k) + rest0)
    {
      n := n0;
      ghost var d, m, rest := c, k, rest0;
      Peek(d, m, root);
      while n.left != null
        invariant Zip(d, m, root) && m.Br? && n == m.node && n.left == Root(m.l)
        invariant Flat(m) + rest == Flat(k) + rest0
        decreases m
      {
        Assoc(Flat(m.l), [m.node], Flat(m.r), rest, []);
        d, m, rest := InL(m.node, m.red, d, m.r), m.l, [m.node] + Flat(m.r) + rest;
        Focus(d, m, root);
        Peek(d, m, root);
        n := n.left;
      }
      assert Flat(m) == [m.node] + Flat(m.r);
    }

    /** Up as long as we come from the right. */
    method FirstRightTurn(node: Node, ghost c: Ctx, ghost k: T) returns (n: Node?)
      requires Zip(c, k, root) && k.Br? && node == k.node
      ensures n == HeadOf(After(c))
    {
      Peek(c, k, root);
      n := node.parent;
      var from := node;
      ghost var d, m := c, k;
      while n != null && from == n.right
        invariant Zip(d, m, root) && m.Br? && from == m.node && n == Above(d)
        invariant n != null ==> (d.InR? <==> from == n.right)
        invariant After(d) == After(c)
        decreases d
      {
        Focus(d, m, root);
        d, m := d.up, Up(d, m);
        Peek(d, m, root);
        from := n;
        n := from.parent;
      }
    }
  }

  /** `node` is at place `i`, and `n` is what comes next, or null at the end. */
  ghost predicate FollowsAt(s: seq<Node>, i: nat, node: Node, n: Node?) {
    i < |s| && s[i] == node && n == if i + 1 < |s| then s[i + 1] else null
  }

  /** What follows a node in the whole sequence. */
  lemma NextPlace(c: Ctx, k: T)
    requires k.Br?
    ensures FollowsAt(Whole(c, k), |Before(c)| + |Flat(k.l)|, k.node, HeadOf(Flat(k.r) + After(c)))
  {
    WholeIs(c, k);
  }

  /** `y` and its right child part ways, unless `y` is the right child of `node`. */
  method Detach(node: Node, y: Node, ghost q: Ctx, ghost k: T) returns (parent: Node)
    requires Spine(q) && k.Br? && y == k.node && Sep(k) && SepC(q, Nodes(k)) && SepC(q, Nodes(k.r))
    requires node !in Nodes(k) + CNodes(q)
    requires Rep(k.r, y) && y.right == Root(k.r) && y.parent == (if q.Top? then node else q.node)
    requires CRep(q, y, TopOf(q, y), node) && node.right == TopOf(q, y)
    modifies Nodes(k.r)`parent, CNodes(q)`left, CNodes(q)`parent, y`right
    ensures Rep(k.r, if q.Top? then y else q.node) && y.right == TopOf(q, Root(k.r))
    ensures CRep(q, Root(k.r), TopOf(q, Root(k.r)), y)
    ensures parent == if q.Top? then y else q.node
  {
    var child := y.right;
    parent := y.parent;
    if parent == node {
      assert q.Top?;
      parent := y;
    } else {
      SepDisjoint(q, Nodes(k));
      CtxAllocated(q); TreeAllocated(k.r);
      BottomIs(q, y);
      BottomIs(q, child);
      assert y in Nodes(k) && y !in Nodes(k.r) && Own(k.r) <= Nodes(k.r) <= Nodes(k);
      DetachMin(child, parent, y, node, q, k);
      y.right := node.right;
      assert Rep(k.r, q.node) && CRep(q, child, Bottom(q), node);
      Rehang(node.right, y, node, child, q, Nodes(k.r));
      assert Rep(k.r, q.node);
    }
  }

  /** `y` takes over the parent, the colour and the left child of `node`. */
  method Inherit(node: Node, y: Node, ghost l: T)
    requires l.Br? && Sep(l) && Rep(l, node) && node.left == Root(l) && y !in Nodes(l) && node !in Nodes(l) && y != node
    modifies y`parent, y`red, y`left, Own(l)`parent
    ensures y.parent == node.parent && y.red == node.red && y.left == Root(l) && Rep(l, y)
  {
    TreeAllocated(l);
    assert Own(l) <= Nodes(l);
    y.parent, y.red := node.parent, node.red;
    y.left := node.left;
    assert Rep(l, node);
    Adopt(node.left, y, node, l);
  }

  /** The leftmost node leaves the spine, its right child takes its place. */
  method DetachMin(child: Node?, parent: Node, ghost y: Node, ghost node: Node, ghost q: Ctx, ghost k: T)
    requires Spine(q) && !q.Top? && parent == q.node && k.Br? && y == k.node && child == Root(k.r)
    requires Sep(k) && SepC(q, Nodes(k)) && Rep(k.r, y) && CRep(q, y, Bottom(q), node)
    modifies Own(k.r)`parent, {q.node}`left
    ensures Rep(k.r, q.node) && CRep(q, Root(k.r), Bottom(q), node)
  {
    SepDisjoint(q, Nodes(k));
    SepDisjoint(q.up, Nodes(k) + {q.node} + Nodes(q.side));
    CtxAllocated(q); TreeAllocated(k.r);
    assert Below(k.r) && Own(k.r) <= Nodes(k.r);
    if child != null { child.parent := parent; }
    parent.left := child;
    assert Below(k.r);
  }

  /** The lower end of the spine hangs from `y` now. */
  method Rehang(x: Node?, y: Node, ghost node: Node, ghost hole: Node?, ghost q: Ctx, ghost s: set<Node>)
    requires Spine(q) && !q.Top? && SepC(q, s) && CRep(q, hole, Bottom(q), node) && x == Bottom(q)
    modifies Bottom(q)`parent
    ensures CRep(q, hole, Bottom(q), y)
  {
    CtxAllocated(q);
    SpineParent(q, hole, node);
    x.parent := y;
    SpineMoved(q, s);
  }

  method Adopt(x: Node?, y: Node, ghost node: Node, ghost l: T)
    requires Sep(l) && l.Br? && Rep(l, node) && x == l.node
    modifies Own(l)`parent
    ensures Rep(l, y)
  {
    TreeAllocated(l);
    assert Below(l);
    x.parent := y;
    assert Below(l);
  }

  lemma {:induction false} SpineParent(q: Ctx, hole: Node?, p: Node)
    requires Spine(q) && !q.Top? && CRep(q, hole, Bottom(q), p)
    ensures q.node.left == hole && Bottom(q).parent == p
  {
    if !q.up.Top? { SpineParent(q.up, q.node, p); }
  }

  /** The links among x, its right child and that child's left subtree. */
  method TurnLeft(x: Node, ghost p: Node?, ghost t: T) returns (right: Node)
    requires Sep(t) && Rep(t, p) && t.Br? && t.r.Br? && x == t.node
    modifies {x, t.r.node}, Own(t.r.l)`parent
    ensures right == t.r.node && Rep(LeftRotated(t), p)
  {
    SepRight(t);
    assert Below(t) && Rep(t.r, x) && Below(t.r);
    assert Rep(t.r.l, t.r.node) && Below(t.r.l);
    right := x.right;
    var parent := x.parent;
    x.right := right.left;
    if right.left != null {
      right.left.parent := x;
    }
    right.left := x;
    right.parent := parent;
    x.parent := right;
    assert Rep(t.r.l, x);
    assert Rep(t.l, x);
    assert Rep(t.r.r, right);
    assert Below(LeftRotated(t).l) && Below(LeftRotated(t));
  }

  /** The links among x, its left child and that child's right subtree. */
  method TurnRight(x: Node, ghost p: Node?, ghost t: T) returns (left: Node)
    requires Sep(t) && Rep(t, p) && t.Br? && t.l.Br? && x == t.node
    modifies {x, t.l.node}, Own(t.l.r)`parent
    ensures left == t.l.node && Rep(RightRotated(t), p)
  {
    SepLeft(t);
    assert Below(t) && Rep(t.l, x) && Below(t.l);
    assert Rep(t.l.r, t.l.node) && Below(t.l.r);
    left := x.left;
    var parent := x.parent;
    x.left := left.right;
    if left.right != null {
      left.right.parent := x;
    }
    left.right := x;
    left.parent := parent;
    x.parent := left;
    assert Rep(t.l.r, x);
    assert Rep(t.r, x);
    assert Rep(t.l.l, left);
    assert Below(RightRotated(t).r) && Below(RightRotated(t));
  }
}
