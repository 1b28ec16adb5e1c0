/** Unlinking a node: __rb_erase and _rb_erase of src/common/rbtree.c, and what erase
    promises. */
module RedBlackDetaching {
  import opened RedBlackShape
  import opened RedBlackTrees
  import opened RedBlackErasing

  // ---------- values ----------

  /** Where a node is in a tree. */
  lemma Locate(t: Tree, x: Node, acc: Path) returns (p: Path, l: Tree, c: bool, r: Tree)
    requires x in Nodes(t)
    ensures Plug(p, T(l, x, c, r)) == Plug(acc, t)
    decreases t
  {
    if t.n == x {
      p, l, c, r := acc, t.l, t.red, t.r;
    } else if x in Nodes(t.l) {
      p, l, c, r := Locate(t.l, x, InLeft(t.n, t.red, t.r, acc));
    } else {
      p, l, c, r := Locate(t.r, x, InRight(t.l, t.n, t.red, acc));
    }
  }

  ghost function Black(t: Tree): (r: Tree) {
    if t.Leaf? then Leaf else t.(red := false)
  }

  lemma {:induction false} BlackSame(t: Tree)
    ensures Inorder(Black(t)) == Inorder(t) && Nodes(Black(t)) == Nodes(t) && RootOf(Black(t)) == RootOf(t)
    ensures SepT(t) ==> SepT(Black(t))
  {
  }

  lemma SortedRemove(a: seq<Node>, n: Node, b: seq<Node>)
    requires Sorted(a + [n] + b)
    ensures Sorted(a + b)
  {
    SortedParts(a + [n], b);
    SortedParts(a, [n]);
    forall x, y | x in a && y in b ensures x.key < y.key {
      assert x in a + [n];
    }
    SortedJoin(a, b);
  }

  lemma SortedWithout(a: seq<Node>, b: seq<Node>, n: Node, c: seq<Node>, d: seq<Node>)
    requires Sorted(a + (b + [n] + c) + d)
    ensures Sorted(a + b + c + d)
  {
    assert a + (b + [n] + c) + d == (a + b) + [n] + (c + d);
    SortedRemove(a + b, n, c + d);
    assert (a + b) + (c + d) == a + b + c + d;
  }

  /** A node without left child has at most one red leaf below it. */
  lemma LoneChild(n: Node, c: bool, r: Tree, left: bool)
    requires Balanced(if left then T(Leaf, n, c, r) else T(r, n, c, Leaf))
    ensures r.T? ==> r.red && !c && r.l == Leaf && r.r == Leaf
    ensures Balanced(Black(r)) && Balanced(r)
    ensures BH(T(Leaf, n, c, r)) == if c then 0 else 1
    ensures r.T? ==> BH(Black(r)) == 1
  {
    if r.T? {
      assert BH(r) == 0 && r.red && BH(r.l) == 0 && BH(r.r) == 0;
    }
  }

  /** The order without the node at the position. */
  ghost function Rest(p: Path, l: Tree, r: Tree): (s: seq<Node>) {
    Before(p) + Inorder(l) + Inorder(r) + After(p)
  }

  lemma {:induction false} RestSorted(p: Path, l: Tree, n: Node, c: bool, r: Tree)
    requires Sorted(Inorder(Plug(p, T(l, n, c, r))))
    ensures Sorted(Rest(p, l, r))
  {
    PlugInorder(p, T(l, n, c, r));
    SortedWithout(Before(p), Inorder(l), n, Inorder(r), After(p));
  }

  /** What __rb_erase leaves: a red-black tree, or one black node too few at a hole. */
  ghost predicate Removed(p: Path, t: Tree, rebalance: Node?) {
    if rebalance == null then Fine(p, t)
    else t == Leaf && Short(p, Leaf) && p.n == rebalance
  }

  /** Its only child takes the place of the node. */
  lemma {:induction false} OneChildValue(p: Path, n: Node, c: bool, r: Tree, left: bool)
    requires var t := if left then T(Leaf, n, c, r) else T(r, n, c, Leaf);
      RedBlack(Plug(p, t)) && Sorted(Inorder(Plug(p, t)))
    ensures Inorder(Plug(p, Black(r))) == Rest(p, Leaf, r) == Rest(p, r, Leaf)
    ensures Removed(p, Black(r), if r.Leaf? && !c then ParentOf(p) else null)
    ensures r.T? ==> r.red && !c
  {
    var t := if left then T(Leaf, n, c, r) else T(r, n, c, Leaf);
    PlugBalancedInv(p, t);
    LoneChild(n, c, r, left);
    BlackSame(r);
    PlugInorder(p, Black(r));
    RestSorted(p, t.l, n, c, t.r);
    assert Before(p) + Inorder(r) + After(p) == Rest(p, Leaf, r) == Rest(p, r, Leaf);
  }

  // ---------- no or one child ----------

  /** The subtree `r` of the removed node moves up and takes its parent and colour. */
  method MoveUp(tr: RBTree, node: Node, child: Node?, parent: Node?, ghost p: Path, ghost q: Node, ghost r: Tree)
    requires SepP(p) && SepT(r) && node !in PathNodes(p) && Nodes(r) !! PathNodes(p) && node !in Nodes(r)
    requires RepPath(p, node, tr.root) && Rep(r, child, q) && parent == ParentOf(p) && node.parent == parent
    requires r.T? ==> !node.red
    modifies tr`root, TopNode(p)`left, TopNode(p)`right, RootSet(r)
    ensures At(p, Black(r), RootOf(r), tr.root)
  {
    TopInside(p);
    RootInside(r);
    BlackSame(r);
    assert allocated(Nodes(r));
    if child != null {
      assert Rep(r.l, child.left, child) && Rep(r.r, child.right, child);
      SepNode(r.l, r.n, r.red, r.r);
      hide Rep, Nodes, PathNodes, RepPath, SepT, SepP;
      tr.ChangeChild(node, child, parent, p);
      child.parent, child.red := node.parent, node.red;
      RepNode(r.l, child, false, r.r, ParentOf(p));
    } else {
      tr.ChangeChild(node, child, parent, p);
    }
  }

  /** __rb_erase for a node with at most one child. */
  method DetachSimple(tr: RBTree, node: Node, ghost p: Path, ghost c: bool, ghost r: Tree, ghost left: bool)
    returns (rebalance: Node?)
    requires var t := if left then T(Leaf, node, c, r) else T(r, node, c, Leaf);
      RedBlack(Plug(p, t)) && Sorted(Inorder(Plug(p, t))) && At(p, t, node, tr.root)
    requires !left ==> r.T?
    modifies tr`root, PathNodes(p), Nodes(r)
    ensures At(p, Black(r), RootOf(Black(r)), tr.root) && Removed(p, Black(r), rebalance)
    ensures Inorder(Plug(p, Black(r))) == Rest(p, Leaf, r) == Rest(p, r, Leaf)
  {
    ghost var t := if left then T(Leaf, node, c, r) else T(r, node, c, Leaf);
    OneChildValue(p, node, c, r, left);
    SeparateAt(p, t);
    SepNode(t.l, node, c, t.r);
    SepParts(p, t);
    BlackSame(r);
    TopInside(p);
    RootInside(r);
    assert Rep(t.l, node.left, node) && Rep(t.r, node.right, node);
    hide Nodes, PathNodes, SepT, SepP, RepPath, Inorder, Plug, Sorted, Balanced, RedBlack, Removed, Rest;
    var child, tmp := node.right, node.left;
    var parent, red := node.parent, node.red;
    if tmp == null {
      MoveUp(tr, node, child, parent, p, node, r);
      rebalance := if child == null && !red then parent else null;
    } else {
      MoveUp(tr, node, tmp, parent, p, node, r);
      rebalance := null;
    }
  }

  // ---------- two children: the successor takes the place ----------

  /** A path inside a subtree, continued above it. */
  ghost function Graft(q: Path, base: Path): (r: Path) {
    match q
    case Top => base
    case InLeft(n, c, sib, up) => InLeft(n, c, sib, Graft(up, base))
    case InRight(sib, n, c, up) => InRight(sib, n, c, Graft(up, base))
  }

  lemma {:induction false} GraftPlug(q: Path, base: Path, t: Tree)
    ensures Plug(Graft(q, base), t) == Plug(base, Plug(q, t))
    decreases q
  {
    match q
    case Top =>
    case InLeft(n, c, sib, up) => GraftPlug(up, base, T(t, n, c, sib));
    case InRight(sib, n, c, up) => GraftPlug(up, base, T(sib, n, c, t));
  }

  lemma {:induction false} GraftRight(q: Path, l: Tree, n: Node, c: bool, p: Path, t: Tree)
    ensures Plug(Graft(q, InRight(l, n, c, p)), t) == Plug(p, T(l, n, c, Plug(q, t)))
  {
    GraftPlug(q, InRight(l, n, c, p), t);
  }

  /** Only leftward steps: the position of the least node. */
  ghost predicate Leftmost(q: Path) {
    q.Top? || (q.InLeft? && Leftmost(q.up))
  }

  lemma {:induction false} LeftmostOrder(q: Path, t: Tree)
    requires Leftmost(q)
    ensures Inorder(Plug(q, t)) == Inorder(t) + After(q)
    decreases q
  {
    if q.InLeft? {
      LeftmostOrder(q.up, T(t, q.n, q.red, q.sib));
      assert Inorder(t) + [q.n] + Inorder(q.sib) + After(q.up) == Inorder(t) + ([q.n] + Inorder(q.sib) + After(q.up));
    }
  }

  /** Exchanging one node for another above a position changes neither colours nor
      heights. */
  lemma {:induction false} GraftFits(q: Path, l: Tree, n: Node, n': Node, c: bool, p: Path, h: nat)
    ensures Fits(Graft(q, InRight(l, n, c, p)), h) == Fits(Graft(q, InRight(l, n', c, p)), h)
    ensures TopRed(Graft(q, InRight(l, n, c, p))) == TopRed(Graft(q, InRight(l, n', c, p)))
    ensures !Graft(q, InRight(l, n', c, p)).Top?
    decreases q
  {
    match q
    case Top =>
    case InLeft(m, d, sib, up) => GraftFits(up, l, n, n', c, p, if d then h else h + 1);
    case InRight(sib, m, d, up) => GraftFits(up, l, n, n', c, p, if d then h else h + 1);
  }

  /** The successor `s`, at the leftmost position of the right subtree, gives its place to
      its right child and takes that of the removed node. */
  lemma {:induction false} SuccessorValue(p: Path, l: Tree, n: Node, c: bool, q: Path, s: Node, d: bool, r2: Tree,
      q': Path)
    requires Leftmost(q) && q' == Graft(q, InRight(l, s, c, p))
    requires var t := Plug(p, T(l, n, c, Plug(q, T(Leaf, s, d, r2))));
      RedBlack(t) && Sorted(Inorder(t))
    ensures Removed(q', Black(r2), if r2.Leaf? && !d then ParentOf(q') else null)
    ensures Inorder(Plug(q', Black(r2))) == Rest(p, l, Plug(q, T(Leaf, s, d, r2)))
    ensures r2.T? ==> !d && r2.red
  {
    hide Plug, Inorder, Graft, Rest, Sorted;
    var t, was := T(Leaf, s, d, r2), Graft(q, InRight(l, n, c, p));
    SuccessorOrder(p, l, n, c, q, s, d, r2);
    assert Balanced(t) && Fits(q', BH(t)) && (d ==> !TopRed(q')) && !q'.Top? by {
      GraftRight(q, l, n, c, p, t);
      PlugBalancedInv(was, t);
      GraftFits(q, l, n, s, c, p, BH(t));
    }
    RemovedAt(q', s, d, r2);
  }

  lemma {:induction false} RemovedAt(p: Path, s: Node, d: bool, r2: Tree)
    requires Balanced(T(Leaf, s, d, r2)) && Fits(p, BH(T(Leaf, s, d, r2))) && (d ==> !TopRed(p)) && !p.Top?
    requires Sorted(Inorder(Plug(p, Black(r2))))
    ensures Removed(p, Black(r2), if r2.Leaf? && !d then ParentOf(p) else null)
    ensures r2.T? ==> !d && r2.red
  {
    LoneChild(s, d, r2, true);
  }

  lemma SuccessorSeq(a: seq<Node>, b: seq<Node>, s: Node, c: seq<Node>, d: seq<Node>)
    ensures a + (b + [s] + c) + d == a + b + ([s] + c) + d
  {
  }

  lemma {:induction false} SuccessorOrder(p: Path, l: Tree, n: Node, c: bool, q: Path, s: Node, d: bool, r2: Tree)
    requires Leftmost(q)
    requires Sorted(Inorder(Plug(p, T(l, n, c, Plug(q, T(Leaf, s, d, r2))))))
    ensures var q' := Graft(q, InRight(l, s, c, p));
      && Inorder(Plug(q', Black(r2))) == Rest(p, l, Plug(q, T(Leaf, s, d, r2)))
      && Sorted(Inorder(Plug(q', Black(r2))))
  {
    hide Plug, Inorder, Sorted, Graft, Before, After;
    RestSorted(p, l, n, c, Plug(q, T(Leaf, s, d, r2)));
    MinOrder(q, s, d, r2);
    OrderAt(p, l, s, c, q, Black(r2));
    SuccessorSeq(Before(p), Inorder(l), s, Inorder(Plug(q, Black(r2))), After(p));
  }

  lemma {:induction false} MinOrder(q: Path, s: Node, d: bool, r2: Tree)
    requires Leftmost(q)
    ensures Inorder(Plug(q, T(Leaf, s, d, r2))) == [s] + Inorder(Plug(q, Black(r2)))
  {
    LeftmostOrder(q, T(Leaf, s, d, r2));
    LeftmostOrder(q, Black(r2));
    BlackSame(r2);
    assert Inorder(T(Leaf, s, d, r2)) == [s] + Inorder(r2);
    assert ([s] + Inorder(r2)) + After(q) == [s] + (Inorder(r2) + After(q));
  }

  lemma {:induction false} OrderAt(p: Path, l: Tree, s: Node, c: bool, q: Path, t: Tree)
    ensures Inorder(Plug(Graft(q, InRight(l, s, c, p)), t)) ==
            Before(p) + (Inorder(l) + [s] + Inorder(Plug(q, t))) + After(p)
  {
    GraftRight(q, l, s, c, p, t);
    PlugInorder(p, T(l, s, c, Plug(q, t)));
  }

  // ---------- the same on the heap ----------

  /** `s`, which has both subtrees of `node` already, takes its place and colour. */
  method TakePlace(tr: RBTree, node: Node, s: Node, ghost p: Path, ghost l: Tree, ghost c: bool, ghost R: Tree)
    requires SepP(p) && node != s && node !in PathNodes(p) && s !in PathNodes(p) && s !in Nodes(l) && s !in Nodes(R)
    requires Nodes(l) !! PathNodes(p) && Nodes(R) !! PathNodes(p)
    requires Rep(l, s.left, s) && Rep(R, s.right, s) && RepPath(p, node, tr.root)
    requires node.parent == ParentOf(p) && node.red == c
    modifies tr`root, TopNode(p)`left, TopNode(p)`right, s`parent, s`red
    ensures At(p, T(l, s, c, R), s, tr.root)
  {
    TopInside(p);
    assert allocated(Nodes(l)) && allocated(Nodes(R)) && allocated(PathNodes(p));
    hide Rep, Nodes, PathNodes, RepPath, SepT, SepP;
    var above := node.parent;
    tr.ChangeChild(node, s, above, p);
    s.parent, s.red := node.parent, node.red;
    RepNode(l, s, c, R, ParentOf(p));
  }

  /** `s`, whose right subtree is ready, takes the place of `node`. */
  method Supplant(tr: RBTree, node: Node, s: Node, ghost p: Path, ghost l: Tree, ghost c: bool, ghost R: Tree)
    requires SepP(p) && SepT(l) && SepT(R) && node != s && l.T?
    requires node !in PathNodes(p) && s !in PathNodes(p) && node !in Nodes(l) && s !in Nodes(l) && s !in Nodes(R)
      && node !in Nodes(R)
    requires Nodes(l) !! PathNodes(p) && Nodes(R) !! PathNodes(p) && Nodes(l) !! Nodes(R)
    requires Rep(l, node.left, node) && Rep(R, s.right, s) && RepPath(p, node, tr.root)
    requires node.parent == ParentOf(p) && node.red == c
    modifies tr`root, TopNode(p)`left, TopNode(p)`right, s`left, s`parent, s`red, RootSet(l)`parent, RootSet(l)`red
    ensures At(p, T(l, s, c, R), s, tr.root)
  {
    TopInside(p);
    RootInside(l);
    assert allocated(Nodes(l)) && allocated(Nodes(R)) && allocated(PathNodes(p));
    hide Rep, Nodes, PathNodes, RepPath, SepT, SepP;
    var tmp := node.left;
    s.left := tmp;
    Adopt(tmp, s, false, node, l);
    TakePlace(tr, node, s, p, l, c, R);
  }

  /** `s`, which is linked nowhere, takes both subtrees and the place of `node`. */
  method SupplantFar(tr: RBTree, node: Node, s: Node, ghost p: Path, ghost l: Tree, ghost c: bool, ghost R: Tree)
    requires At(p, T(l, node, c, R), node, tr.root) && Sep(p, T(l, node, c, R)) && l.T?
    requires s != node && s !in Nodes(l) && s !in Nodes(R) && s !in PathNodes(p)
    modifies tr`root, TopNode(p)`left, TopNode(p)`right, s
    modifies RootSet(l)`parent, RootSet(l)`red, RootSet(R)`parent, RootSet(R)`red
    ensures At(p, T(l, s, c, R), s, tr.root)
  {
    SepParts(p, T(l, node, c, R));
    SepNode(l, node, c, R);
    RootInside(R);
    assert Rep(l, node.left, node) && Rep(R, node.right, node);
    assert allocated(Nodes(l)) && allocated(PathNodes(p));
    hide Nodes, PathNodes, RepPath, SepT, SepP, Rep;
    s.right := node.right;
    Adopt(s.right, s, false, node, R);
    Supplant(tr, node, s, p, l, c, R);
  }

  /** The right child of a node whose left link is to be reused becomes black, if it is
      there, with `x` as its parent. */
  method BlackenChild(child: Node?, x: Node, ghost q: Node, ghost b: Tree)
    requires SepT(b) && Rep(b, child, q)
    modifies RootSet(b)`parent, RootSet(b)`red
    ensures Rep(Black(b), child, x)
  {
    if child != null {
      assert Rep(b.l, child.left, child) && Rep(b.r, child.right, child);
      child.parent, child.red := x, false;
    }
  }

  /** __rb_erase, the right child being the successor. */
  method DetachNear(tr: RBTree, node: Node, s: Node, ghost p: Path, ghost l: Tree, ghost c: bool, ghost d: bool,
      ghost r2: Tree)
    returns (rebalance: Node?)
    requires var t := T(l, node, c, T(Leaf, s, d, r2));
      Sorted(Inorder(Plug(p, t))) && RedBlack(Plug(p, t)) && At(p, t, node, tr.root) && l.T?
    modifies tr`root, PathNodes(p), Nodes(l), s, Nodes(r2)
    ensures var p' := InRight(l, s, c, p);
      && At(p', Black(r2), RootOf(r2), tr.root) && Removed(p', Black(r2), rebalance)
      && Inorder(Plug(p', Black(r2))) == Rest(p, l, T(Leaf, s, d, r2))
  {
    ghost var r, p' := T(Leaf, s, d, r2), InRight(l, s, c, p);
    SuccessorValue(p, l, node, c, Top, s, d, r2, p');
    SeparateAt(p, T(l, node, c, r));
    SepParts(p, T(l, node, c, r));
    SepNode(l, node, c, r);
    SepNode(Leaf, s, d, r2);
    BlackSame(r2);
    TopInside(p);
    RootInside(l);
    RootInside(r2);
    assert Rep(l, node.left, node) && Rep(r, node.right, node);
    assert Rep(r2, s.right, s) && s.red == d && (s.right == null <==> r2.Leaf?);
    assert allocated(Nodes(l)) && allocated(Nodes(r2)) && allocated(PathNodes(p));
    hide Nodes, PathNodes, SepT, SepP, RepPath, Inorder, Plug, Sorted, RedBlack, Rest, Balanced, Fits, BH;
    var child2, red := s.right, s.red;
    BlackenChild(child2, s, s, r2);
    Supplant(tr, node, s, p, l, c, Black(r2));
    AtDown(p', Black(r2), tr.root);
    rebalance := if child2 == null && !red then s else null;
  }

  /** The walk to the least node of a right subtree that has a left child. */
  method Successor(child: Node, ghost base: Path, ghost R: Tree, ghost root: Node?)
    returns (s: Node, parent: Node, ghost q: Path, ghost d: bool, ghost r2: Tree)
    requires R.T? && R.l.T? && At(base, R, child, root)
    ensures Leftmost(q) && q.InLeft? && q.n == parent && Plug(q, T(Leaf, s, d, r2)) == R
    ensures At(Graft(q, base), T(Leaf, s, d, r2), s, root)
  {
    parent := child;
    assert Rep(R.l, child.left, child);
    s := child.left;
    q := InLeft(R.n, R.red, R.r, Top);
    ghost var t := R.l;
    assert Graft(q, base) == InLeft(R.n, R.red, R.r, base) && Plug(q, t) == Plug(Top, R) == R;
    var tmp := s.left;
    while tmp != null
      invariant t.T? && At(Graft(q, base), t, s, root) && tmp == s.left
      invariant Leftmost(q) && q.InLeft? && q.n == parent && Plug(q, t) == R
      decreases t
    {
      parent := s;
      assert Rep(t.l, s.left, s);
      q, t := InLeft(t.n, t.red, t.r, q), t.l;
      s := tmp;
      tmp := tmp.left;
    }
    assert Rep(t.l, s.left, s);
    d, r2 := t.red, t.r;
    assert t.l == Leaf && t.n == s;
    assert t == T(Leaf, s, d, r2);
  }

  /** The least node gives its place to its right child. */
  method UnlinkLeast(s: Node, parent: Node, ghost p: Path, ghost d: bool, ghost r2: Tree, ghost root: Node?)
    requires At(p, T(Leaf, s, d, r2), s, root) && Sep(p, T(Leaf, s, d, r2)) && p.InLeft? && p.n == parent
    modifies parent`left, RootSet(r2)`parent, RootSet(r2)`red
    ensures At(p, Black(r2), RootOf(r2), root)
  {
    SepParts(p, T(Leaf, s, d, r2));
    SepNode(Leaf, s, d, r2);
    SepUp(p, T(Leaf, s, d, r2));
    BlackSame(r2);
    RootInside(r2);
    AtUp(p, T(Leaf, s, d, r2), s, root);
    assert Rep(r2, s.right, s) && s.right == RootOf(r2);
    assert allocated(Nodes(r2)) && allocated(PathNodes(p.up)) && allocated(Nodes(p.sib));
    hide Nodes, PathNodes, SepT, SepP;
    var child2 := s.right;
    parent.left := child2;
    BlackenChild(child2, parent, s, r2);
  }

  /** After the least node is unlinked, seen from the node to be removed. */
  lemma {:induction false} SeenFromNode(p: Path, l: Tree, n: Node, c: bool, q: Path, s: Node, d: bool, r2: Tree,
      root: Node?)
    requires Sorted(Inorder(Plug(p, T(l, n, c, Plug(q, T(Leaf, s, d, r2)))))) && Leftmost(q) && q.InLeft?
    requires At(Graft(q, InRight(l, n, c, p)), Black(r2), RootOf(r2), root)
    ensures var R' := Plug(q, Black(r2));
      && At(p, T(l, n, c, R'), n, root)
      && Sep(p, T(l, n, c, R'))
      && s != n && s !in Nodes(l) && s !in Nodes(R') && s !in PathNodes(p)
  {
    var R, R', t := Plug(q, T(Leaf, s, d, r2)), Plug(q, Black(r2)), T(Leaf, s, d, r2);
    BlackSame(r2);
    AtPlug(Graft(q, InRight(l, n, c, p)), Black(r2), RootOf(r2), root);
    GraftRight(q, l, n, c, p, Black(r2));
    PlugAt(p, T(l, n, c, R'), root);
    SeparateAt(p, T(l, n, c, R));
    SepParts(p, T(l, n, c, R));
    SepNode(l, n, c, R);
    SepPlug(q, t);
    SepNode(Leaf, s, d, r2);
    PlugNodes(q, t);
    PlugNodes(q, Black(r2));
    SepReplaced(q, t, Black(r2));
    SepNode(l, n, c, R');
  }

  lemma {:induction false} SepReplaced(q: Path, t: Tree, t': Tree)
    requires SepT(Plug(q, t)) && SepT(t') && Nodes(t') <= Nodes(t)
    ensures SepT(Plug(q, t')) && Nodes(Plug(q, t')) <= Nodes(Plug(q, t))
    decreases q
  {
    SepPlug(q, t);
    match q
    case Top =>
    case InLeft(n, c, sib, up) =>
      SepUp(q, t);
      SepNode(t, n, c, sib);
      SepNode(t', n, c, sib);
      SepReplaced(up, T(t, n, c, sib), T(t', n, c, sib));
    case InRight(sib, n, c, up) =>
      SepUp(q, t);
      SepNode(sib, n, c, t);
      SepNode(sib, n, c, t');
      SepReplaced(up, T(sib, n, c, t), T(sib, n, c, t'));
  }

  /** The successor leaves its place and takes that of the removed node, seen as before
      from the place it left. */
  method Transplant(tr: RBTree, node: Node, child: Node, s: Node, parent: Node,
                    ghost p: Path, ghost l: Tree, ghost c: bool, ghost q: Path, ghost d: bool, ghost r2: Tree)
    requires Sorted(Inorder(Plug(p, T(l, node, c, Plug(q, T(Leaf, s, d, r2)))))) && Leftmost(q) && l.T?
    requires q.InLeft? && q.n == parent && node.right == child
    requires At(Graft(q, InRight(l, node, c, p)), T(Leaf, s, d, r2), s, tr.root)
    modifies tr`root, PathNodes(p), Nodes(l), Nodes(Plug(q, T(Leaf, s, d, r2)))
    ensures At(Graft(q, InRight(l, s, c, p)), Black(r2), RootOf(r2), tr.root)
  {
    ghost var t, was, R' := T(Leaf, s, d, r2), Graft(q, InRight(l, node, c, p)), Plug(q, Black(r2));
    assert Sep(was, t) by {
      GraftRight(q, l, node, c, p, t);
      SeparateAt(was, t);
    }
    PlugNodes(q, t);
    PlugNodes(q, Black(r2));
    BlackSame(r2);
    RootInside(r2);
    RootInside(l);
    RootInside(R');
    TopInside(p);
    SepNode(Leaf, s, d, r2);
    assert was.InLeft? && was.n == parent && parent in PathNodes(q);
    assert RootSet(r2) <= Nodes(t);
    hide Nodes, PathNodes, SepT, SepP, RepPath, Inorder, Plug, Sorted, Graft;
    UnlinkLeast(s, parent, was, d, r2, tr.root);
    SeenFromNode(p, l, node, c, q, s, d, r2, tr.root);
    SupplantFar(tr, node, s, p, l, c, R');
    AtPlug(p, T(l, s, c, R'), s, tr.root);
    GraftRight(q, l, s, c, p, Black(r2));
    PlugAt(Graft(q, InRight(l, s, c, p)), Black(r2), tr.root);
  }

  /** __rb_erase, the successor lying further down. */
  method DetachFar(tr: RBTree, node: Node, child: Node, ghost p: Path, ghost l: Tree, ghost c: bool, ghost R: Tree)
    returns (rebalance: Node?, ghost p': Path, ghost t': Tree)
    requires var t := T(l, node, c, R);
      Sorted(Inorder(Plug(p, t))) && RedBlack(Plug(p, t)) && At(p, t, node, tr.root)
    requires l.T? && R.T? && R.l.T? && R.n == child
    modifies tr`root, PathNodes(p), Nodes(l), Nodes(R)
    ensures At(p', t', RootOf(t'), tr.root) && Removed(p', t', rebalance)
    ensures Inorder(Plug(p', t')) == Rest(p, l, R)
  {
    ghost var base := InRight(l, node, c, p);
    AtDown(base, R, tr.root);
    assert Rep(R, node.right, node);
    hide Plug, Inorder, Sorted, RedBlack, Nodes, PathNodes, Rest, SepT, SepP, Balanced, Fits, BH;
    var s, parent, q, d, r2 := Successor(child, base, R, tr.root);
    p', t' := Graft(q, InRight(l, s, c, p)), Black(r2);
    SuccessorValue(p, l, node, c, q, s, d, r2, p');
    assert Rep(T(Leaf, s, d, r2), s, ParentOf(Graft(q, base))) && Rep(r2, s.right, s);
    assert (s.right == null <==> r2.Leaf?) && s.red == d;
    assert p'.n == parent;
    var child2, red := s.right, s.red;
    BlackSame(r2);
    Transplant(tr, node, child, s, parent, p, l, c, q, d, r2);
    rebalance := if child2 == null && !red then parent else null;
  }

  /** __rb_erase. */
  method Detach(tr: RBTree, node: Node, ghost p: Path, ghost l: Tree, ghost c: bool, ghost r: Tree)
    returns (rebalance: Node?, ghost p': Path, ghost t': Tree)
    requires var t := T(l, node, c, r);
      Sorted(Inorder(Plug(p, t))) && RedBlack(Plug(p, t)) && At(p, t, node, tr.root)
    modifies tr`root, PathNodes(p), Nodes(l), Nodes(r)
    ensures At(p', t', RootOf(t'), tr.root) && Removed(p', t', rebalance)
    ensures Inorder(Plug(p', t')) == Rest(p, l, r)
  {
    assert Rep(T(l, node, c, r), node, ParentOf(p));
    assert Rep(l, node.left, node) && Rep(r, node.right, node);
    if node.left == null {
      rebalance := DetachSimple(tr, node, p, c, r, true);
      p', t' := p, Black(r);
    } else if node.right == null {
      rebalance := DetachSimple(tr, node, p, c, l, false);
      p', t' := p, Black(l);
    } else {
      var child := node.right;
      assert Rep(r.l, child.left, child);
      SepNode(r.l, r.n, r.red, r.r);
      if child.left == null {
        rebalance := DetachNear(tr, node, child, p, l, c, r.red, r.r);
        p', t' := InRight(l, child, c, p), Black(r.r);
        BlackSame(r.r);
      } else {
        rebalance, p', t' := DetachFar(tr, node, child, p, l, c, r);
      }
    }
  }

  /** The order around a node, and the order without it, as sets. */
  lemma {:induction false} RemovesOne(t: Tree, p: Path, l: Tree, n: Node, c: bool, r: Tree, t': Tree)
    requires Plug(p, T(l, n, c, r)) == t && Sorted(Inorder(t)) && Inorder(t') == Rest(p, l, r)
    ensures Nodes(t') == Nodes(t) - {n} && Sorted(Inorder(t'))
  {
    RestSorted(p, l, n, c, r);
    SeparateAt(p, T(l, n, c, r));
    SepParts(p, T(l, n, c, r));
    SepNode(l, n, c, r);
    NodesAre(t');
    PlugNodes(p, T(l, n, c, r));
    PathMembers(p);
    NodesAre(l);
    NodesAre(r);
    hide Inorder, Plug, Nodes, PathNodes, SepT, SepP, Sorted, Before, After;
    MembersConcat(Before(p) + Inorder(l) + Inorder(r), After(p));
    MembersConcat(Before(p) + Inorder(l), Inorder(r));
    MembersConcat(Before(p), Inorder(l));
  }

  lemma MembersConcat(a: seq<Node>, b: seq<Node>)
    ensures Members(a + b) == Members(a) + Members(b)
  {
  }

  lemma {:induction false} PathMembers(p: Path)
    ensures PathNodes(p) == Members(Before(p)) + Members(After(p))
  {
    match p
    case Top =>
    case InLeft(n, c, sib, up) =>
      PathMembers(up);
      NodesAre(sib);
      assert Members(After(p)) == {n} + Members(Inorder(sib)) + Members(After(up));
    case InRight(sib, n, c, up) =>
      PathMembers(up);
      NodesAre(sib);
      assert Members(Before(p)) == Members(Before(up)) + Members(Inorder(sib)) + {n};
  }

  /** _rb_erase: removes exactly the given node, and keeps search order, colours, black
      heights and links. */
  method Erase(tr: RBTree, node: Node)
    requires tr.Valid() && node in Nodes(tr.t)
    modifies tr, Nodes(tr.t)
    ensures tr.Valid()
    ensures Nodes(tr.t) == old(Nodes(tr.t)) - {node}
  {
    ghost var t0 := tr.t;
    ghost var p, l, c, r := Locate(t0, node, Top);
    assert Plug(Top, t0) == t0;
    PlugAt(p, T(l, node, c, r), tr.root);
    PlugNodes(p, T(l, node, c, r));
    SepNode(l, node, c, r);
    hide Plug, Inorder, Sorted, RedBlack, Nodes, PathNodes, Rest, SepT, SepP, Balanced, Fits, BH, Rep, RepPath;
    var rebalance, p', t' := Detach(tr, node, p, l, c, r);
    RemovesOne(t0, p, l, node, c, r, Plug(p', t'));
    PlugNodes(p', t');
    if rebalance != null {
      tr.t := EraseFix(tr, rebalance, p');
    } else {
      AtPlug(p', t', RootOf(t'), tr.root);
      PlugBalanced(p', t');
      tr.t := Plug(p', t');
    }
    RemovesOne(t0, p, l, node, c, r, tr.t);
  }
}
