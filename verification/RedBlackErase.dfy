/** Removing a node from a red-black tree on the heap (src/common/rbtree.c, __rb_erase,
    __rb_erase_fix and _rb_erase). */
module RedBlackErasing {
  import opened RedBlackShape
  import opened RedBlackTrees

  // ---------- values ----------

  /** A subtree one black node short for its position. */
  ghost predicate Short(p: Path, t: Tree) {
    !p.Top? && Balanced(t) && !Red(t) && Fits(p, BH(t) + 1) && Sorted(Inorder(Plug(p, t)))
  }

  /** A subtree that completes a red-black tree. */
  ghost predicate Fine(p: Path, t: Tree) {
    Balanced(t) && Fits(p, BH(t)) && (Red(t) ==> !TopRed(p) && !p.Top?) && Sorted(Inorder(Plug(p, t)))
  }

  ghost predicate SameAs(p: Path, t: Tree, p': Path, t': Tree) {
    Inorder(Plug(p, t)) == Inorder(Plug(p', t'))
  }

  /** The sibling of a short subtree is there, and what its colour says. */
  lemma {:induction false} ShortSibling(p: Path, t: Tree)
    requires Short(p, t)
    ensures p.sib.T? && Balanced(p.sib) && BH(p.sib) == BH(t) + 1
    ensures p.sib.red ==> !p.red && p.sib.l.T? && p.sib.r.T? && !p.sib.l.red && !p.sib.r.red
    ensures Fits(p.up, BH(t) + 1 + if p.red then 0 else 1)
    ensures p.red ==> !TopRed(p.up) && !p.up.Top?
    ensures Plug(p, t) == Plug(p.up, Join(p, t))
  {
    assert BH(p.sib) >= 1;
    if p.sib.red {
      assert BH(p.sib.l) >= 1 && BH(p.sib.r) >= 1;
    }
  }

  /** Case 1, hole on the left: the red sibling goes up. */
  lemma RedSiblingLeft(g: Node, m: Tree, s: Node, r: Tree, up: Path, t: Tree)
    requires Short(InLeft(g, false, T(m, s, true, r), up), t)
    ensures var p' := InLeft(g, true, m, InLeft(s, false, r, up));
      Short(p', t) && SameAs(p', t, InLeft(g, false, T(m, s, true, r), up), t)
  {
    var p, q := InLeft(g, false, T(m, s, true, r), up), InLeft(s, false, r, up);
    var p' := InLeft(g, true, m, q);
    ShortSibling(p, t);
    assert Plug(p', t) == Plug(q, T(t, g, true, m)) == Plug(up, T(T(t, g, true, m), s, false, r));
    RotateOrder(t, g, m, s, r, true, false, false, true);
    SameOrder(up, T(T(t, g, true, m), s, false, r), T(t, g, false, T(m, s, true, r)));
    assert Fits(q, BH(t) + 1);
  }

  lemma RedSiblingRight(g: Node, m: Tree, s: Node, l: Tree, up: Path, t: Tree)
    requires Short(InRight(T(l, s, true, m), g, false, up), t)
    ensures var p' := InRight(m, g, true, InRight(l, s, false, up));
      Short(p', t) && SameAs(p', t, InRight(T(l, s, true, m), g, false, up), t)
  {
    var p, q := InRight(T(l, s, true, m), g, false, up), InRight(l, s, false, up);
    var p' := InRight(m, g, true, q);
    ShortSibling(p, t);
    assert Plug(p', t) == Plug(q, T(m, g, true, t)) == Plug(up, T(l, s, false, T(m, g, true, t)));
    RotateOrder(l, s, m, g, t, true, false, false, true);
    SameOrder(up, T(l, s, false, T(m, g, true, t)), T(T(l, s, true, m), g, false, t));
    assert Fits(q, BH(t) + 1);
  }

  /** Case 2: the black sibling with black children becomes red. */
  lemma RedderSibling(p: Path, t: Tree)
    requires Short(p, t) && !Red(p.sib) && !Red(p.sib.l) && !Red(p.sib.r)
    ensures var j := Reddened(p, t);
      && SameAs(p.up, j, p, t)
      && (if p.red || p.up.Top? then Fine(p.up, j) else Short(p.up, j))
  {
    ShortSibling(p, t);
    var sib, j := p.sib.(red := true), Reddened(p, t);
    assert Inorder(sib) == Inorder(p.sib);
    assert Inorder(j) == Inorder(Join(p, t));
    SameOrder(p.up, j, Join(p, t));
  }

  /** Case 4, hole on the left: the sibling's right child is red. */
  lemma RedNephewLeft(g: Node, c: bool, m: Tree, s: Node, r: Tree, up: Path, t: Tree)
    requires Short(InLeft(g, c, T(m, s, false, r), up), t) && Red(r)
    ensures var j := T(T(t, g, false, m), s, c, r.(red := false));
      Fine(up, j) && SameAs(up, j, InLeft(g, c, T(m, s, false, r), up), t)
  {
    var p := InLeft(g, c, T(m, s, false, r), up);
    ShortSibling(p, t);
    var j := T(T(t, g, false, m), s, c, r.(red := false));
    assert Inorder(r.(red := false)) == Inorder(r);
    assert Inorder(j) == Inorder(T(T(t, g, false, m), s, c, r));
    RotateOrder(t, g, m, s, r, false, c, c, false);
    SameOrder(up, j, T(t, g, c, T(m, s, false, r)));
  }

  lemma RedNephewRight(g: Node, c: bool, m: Tree, s: Node, l: Tree, up: Path, t: Tree)
    requires Short(InRight(T(l, s, false, m), g, c, up), t) && Red(l)
    ensures var j := T(l.(red := false), s, c, T(m, g, false, t));
      Fine(up, j) && SameAs(up, j, InRight(T(l, s, false, m), g, c, up), t)
  {
    var p := InRight(T(l, s, false, m), g, c, up);
    ShortSibling(p, t);
    var j := T(l.(red := false), s, c, T(m, g, false, t));
    assert Inorder(l.(red := false)) == Inorder(l);
    assert Inorder(j) == Inorder(T(l, s, c, T(m, g, false, t)));
    RotateOrder(l, s, m, g, t, false, c, c, false);
    SameOrder(up, j, T(T(l, s, false, m), g, c, t));
  }

  /** Case 3, hole on the left: only the sibling's left child is red. */
  lemma InnerNephewLeft(g: Node, c: bool, a: Tree, x: Node, b: Tree, s: Node, r: Tree, up: Path, t: Tree)
    requires Short(InLeft(g, c, T(T(a, x, true, b), s, false, r), up), t) && !Red(r)
    ensures var j := T(T(t, g, false, a), x, c, T(b, s, false, r));
      Fine(up, j) && SameAs(up, j, InLeft(g, c, T(T(a, x, true, b), s, false, r), up), t) && !Red(b)
  {
    var sib := T(T(a, x, true, b), s, false, r);
    ShortSibling(InLeft(g, c, sib, up), t);
    var k := T(a, x, false, T(b, s, false, r));
    RotateOrder(a, x, b, s, r, true, false, false, false);
    assert Inorder(T(t, g, c, sib)) == Inorder(T(t, g, c, k));
    var j := T(T(t, g, false, a), x, c, T(b, s, false, r));
    RotateOrder(t, g, a, x, T(b, s, false, r), false, c, c, false);
    SameOrder(up, j, T(t, g, c, sib));
    assert Balanced(T(a, x, true, b));
  }

  lemma InnerNephewRight(g: Node, c: bool, a: Tree, x: Node, b: Tree, s: Node, l: Tree, up: Path, t: Tree)
    requires Short(InRight(T(l, s, false, T(a, x, true, b)), g, c, up), t) && !Red(l)
    ensures var j := T(T(l, s, false, a), x, c, T(b, g, false, t));
      Fine(up, j) && SameAs(up, j, InRight(T(l, s, false, T(a, x, true, b)), g, c, up), t) && !Red(a)
  {
    var sib := T(l, s, false, T(a, x, true, b));
    ShortSibling(InRight(sib, g, c, up), t);
    var k := T(T(l, s, false, a), x, false, b);
    RotateOrder(l, s, a, x, b, false, false, false, true);
    assert Inorder(T(sib, g, c, t)) == Inorder(T(k, g, c, t));
    var j := T(T(l, s, false, a), x, c, T(b, g, false, t));
    RotateOrder(T(l, s, false, a), x, b, g, t, false, c, c, false);
    SameOrder(up, j, T(sib, g, c, t));
    assert Balanced(T(a, x, true, b));
  }

  // ---------- the heap ----------

  ghost function RootOf(t: Tree): (x: Node?) {
    if t.Leaf? then null else t.n
  }

  /** Going down again. */
  lemma AtDown(p: Path, t: Tree, root: Node?)
    requires !p.Top? && At(p.up, Join(p, t), p.n, root)
    ensures At(p, t, RootOf(t), root)
  {
    assert Rep(Join(p, t), p.n, ParentOf(p.up));
    assert Rep(t, if p.InLeft? then p.n.left else p.n.right, p.n);
  }

  /** The hole, its parent, the sibling and the two nephews. */
  lemma {:induction false} SiblingApart(p: Path, t: Tree)
    requires !p.Top? && p.sib.T? && Sep(p, t)
    ensures if p.InLeft? then ApartUp(p.sib.n, p.n, t, p.sib.l, p.sib.r, p.up)
            else ApartUp(p.sib.n, p.n, p.sib.l, p.sib.r, t, p.up)
    ensures p.n !in Nodes(p.sib) && p.sib.n in PathNodes(p)
    ensures Nodes(p.sib.l) <= PathNodes(p) && Nodes(p.sib.r) <= PathNodes(p) && PathNodes(p.up) <= PathNodes(p)
  {
    SepUp(p, t);
    SepNode(p.sib.l, p.sib.n, p.sib.red, p.sib.r);
    hide Nodes, PathNodes, SepT, SepP;
  }

  /** What is linked around the hole. */
  lemma {:induction false} SiblingLinks(p: Path, t: Tree, root: Node?)
    requires !p.Top? && p.sib.T? && At(p, t, RootOf(t), root)
    ensures p.n.parent == ParentOf(p.up) && p.n.red == p.red && RepPath(p.up, p.n, root)
    ensures if p.InLeft? then Rep(t, p.n.left, p.n) && p.n.right == p.sib.n
            else Rep(t, p.n.right, p.n) && p.n.left == p.sib.n
    ensures p.sib.n.parent == p.n && p.sib.n.red == p.sib.red
    ensures Rep(p.sib.l, p.sib.n.left, p.sib.n) && Rep(p.sib.r, p.sib.n.right, p.sib.n)
  {
    AtUp(p, t, RootOf(t), root);
    assert Rep(p.sib, if p.InLeft? then p.n.right else p.n.left, p.n);
  }

  /** Case 1, hole on the left. */
  method RaiseSiblingLeft(tr: RBTree, sibling: Node, parent: Node, ghost p: Path, ghost t: Tree)
    returns (tmp: Node, ghost p': Path)
    requires Short(p, t) && At(p, t, RootOf(t), tr.root)
    requires p.InLeft? && p.n == parent && Red(p.sib) && p.sib.n == sibling
    modifies tr`root, Nodes(t), PathNodes(p)
    ensures Short(p', t) && At(p', t, RootOf(t), tr.root) && SameAs(p', t, p, t)
    ensures p'.InLeft? && p'.n == parent && p'.red && p'.sib.T? && !p'.sib.red && p'.sib.n == tmp
  {
    ShortSibling(p, t);
    SeparateAt(p, t);
    SiblingApart(p, t);
    SiblingLinks(p, t, tr.root);
    TopInside(p.up);
    RootInside(p.sib.l);
    ghost var m, r, up := p.sib.l, p.sib.r, p.up;
    RedSiblingLeft(parent, m, sibling, r, up, t);
    p' := InLeft(parent, true, m, InLeft(sibling, false, r, up));
    assert Rep(m, sibling.left, sibling);
    hide Nodes, PathNodes, SepT, SepP, RepPath, Inorder, Plug, Sorted, Short;
    tmp := sibling.left;
    tr.RaiseRight(sibling, parent, true, true, t, m, r, up);
    AtDown(p'.up, T(t, parent, true, m), tr.root);
    AtDown(p', t, tr.root);
  }

  method RaiseSiblingRight(tr: RBTree, sibling: Node, parent: Node, ghost p: Path, ghost t: Tree)
    returns (tmp: Node, ghost p': Path)
    requires Short(p, t) && At(p, t, RootOf(t), tr.root)
    requires p.InRight? && p.n == parent && Red(p.sib) && p.sib.n == sibling
    modifies tr`root, Nodes(t), PathNodes(p)
    ensures Short(p', t) && At(p', t, RootOf(t), tr.root) && SameAs(p', t, p, t)
    ensures p'.InRight? && p'.n == parent && p'.red && p'.sib.T? && !p'.sib.red && p'.sib.n == tmp
  {
    ShortSibling(p, t);
    SeparateAt(p, t);
    SiblingApart(p, t);
    SiblingLinks(p, t, tr.root);
    TopInside(p.up);
    RootInside(p.sib.r);
    ghost var m, l, up := p.sib.r, p.sib.l, p.up;
    RedSiblingRight(parent, m, sibling, l, up, t);
    p' := InRight(m, parent, true, InRight(l, sibling, false, up));
    assert Rep(m, sibling.right, sibling);
    hide Nodes, PathNodes, SepT, SepP, RepPath, Inorder, Plug, Sorted, Short;
    tmp := sibling.right;
    tr.RaiseLeft(sibling, parent, true, true, l, m, t, up);
    AtDown(p'.up, T(m, parent, true, t), tr.root);
    AtDown(p', t, tr.root);
  }

  /** The tree around the hole after case 2. */
  ghost function Reddened(p: Path, t: Tree): (r: Tree)
    requires !p.Top? && p.sib.T?
  {
    if p.InLeft? then T(t, p.n, false, p.sib.(red := true)) else T(p.sib.(red := true), p.n, false, t)
  }

  lemma {:induction false} RepJoined(p: Path, t: Tree)
    requires !p.Top? && p.sib.T? && p.n.parent == ParentOf(p.up) && !p.n.red
    requires if p.InLeft? then Rep(t, p.n.left, p.n) && Rep(p.sib.(red := true), p.n.right, p.n)
             else Rep(t, p.n.right, p.n) && Rep(p.sib.(red := true), p.n.left, p.n)
    ensures Rep(Reddened(p, t), p.n, ParentOf(p.up))
  {
  }

  /** rb_set_parent_color(x, p, RB_RED) on the root of a subtree. */
  method Paint(x: Node, p: Node, ghost b: Tree)
    requires b.T? && SepT(b) && Rep(b, x, p)
    modifies x`parent, x`red
    ensures Rep(b.(red := true), x, p)
  {
    assert Rep(b.l, x.left, x) && Rep(b.r, x.right, x);
    x.parent, x.red := p, true;
  }

  /** Case 2, either side: the sibling becomes red, the parent black. */
  method Repaint(tr: RBTree, sibling: Node, parent: Node, ghost p: Path, ghost t: Tree) returns (wasRed: bool)
    requires !p.Top? && p.sib.T? && p.n == parent && p.sib.n == sibling && At(p, t, RootOf(t), tr.root) && Sep(p, t)
    modifies parent`red, sibling`parent, sibling`red
    ensures wasRed == p.red && At(p.up, Reddened(p, t), parent, tr.root)
  {
    SepUp(p, t);
    SiblingLinks(p, t, tr.root);
    RootInside(p.sib);
    ghost var sib := p.sib.(red := true);
    assert Nodes(sib) == Nodes(p.sib);
    assert allocated(Nodes(t)) && allocated(PathNodes(p.up));
    assert Rep(p.sib, sibling, parent);
    hide Rep, Nodes, PathNodes, SepT, SepP, RepPath, Reddened, RootOf;
    Paint(sibling, parent, p.sib);
    wasRed := parent.red;
    if wasRed {
      parent.red := false;
    }
    RepJoined(p, t);
  }

  /** Case 2; says whether the shortage moves up. */
  method Redden(tr: RBTree, sibling: Node, parent: Node, ghost p: Path, ghost t: Tree)
    returns (more: bool, ghost t': Tree)
    requires Short(p, t) && At(p, t, RootOf(t), tr.root) && p.n == parent && p.sib.T? && p.sib.n == sibling
    requires !Red(p.sib) && !Red(p.sib.l) && !Red(p.sib.r)
    modifies parent`red, sibling`parent, sibling`red
    ensures SameAs(p.up, t', p, t) && At(p.up, t', RootOf(t'), tr.root) && RootOf(t') == parent
    ensures more ==> Short(p.up, t') && !p.red
    ensures !more ==> Fine(p.up, t')
  {
    RedderSibling(p, t);
    SeparateAt(p, t);
    t' := Reddened(p, t);
    assert RootOf(t') == parent && (p.up.Top? <==> ParentOf(p.up) == null);
    hide Nodes, PathNodes, SepT, SepP, RepPath, Inorder, Plug, Sorted, Short, Fine, Reddened, RootOf;
    var wasRed := Repaint(tr, sibling, parent, p, t);
    assert parent.parent == ParentOf(p.up);
    more := !wasRed && parent.parent != null;
  }

  /** Case 4, hole on the left. */
  method RotateOuterLeft(tr: RBTree, s: Node, g: Node, ghost c: bool, ghost m: Tree, ghost r: Tree, ghost up: Path,
      ghost t: Tree)
    requires Sep(InLeft(g, c, T(m, s, false, r), up), t) && r.T?
    requires At(InLeft(g, c, T(m, s, false, r), up), t, RootOf(t), tr.root)
    modifies tr`root, TopNode(up)`left, TopNode(up)`right, s, g, RootSet(m), RootSet(r)
    ensures At(up, T(T(t, g, false, m), s, c, r.(red := false)), s, tr.root)
  {
    ghost var p := InLeft(g, c, T(m, s, false, r), up);
    SiblingApart(p, t);
    SiblingLinks(p, t, tr.root);
    TopInside(up);
    RootInside(m);
    RootInside(r);
    SepBlack(r);
    assert Rep(r, s.right, s) && SepT(r.(red := false));
    assert allocated(Nodes(t)) && allocated(Nodes(m)) && allocated(Nodes(r)) && allocated(PathNodes(up));
    hide Nodes, PathNodes, SepT, SepP, RepPath;
    Blacken(s.right, s, r);
    tr.RaiseRight(s, g, false, false, t, m, r.(red := false), up);
  }

  /** The hole, its parent, the sibling, the red nephew and their subtrees. */
  lemma {:induction false} NephewApartLeft(g: Node, c: bool, a: Tree, x: Node, b: Tree, s: Node, r: Tree, up: Path,
      t: Tree)
    requires Sep(InLeft(g, c, T(T(a, x, true, b), s, false, r), up), t)
    ensures Apart(x, s, a, b, r) && ApartUp(x, g, t, a, T(b, s, false, r), up)
    ensures s != g && s !in Nodes(t) && s !in PathNodes(up) && Nodes(b) !! Nodes(t) && Nodes(b) !! PathNodes(up)
      && g !in Nodes(b)
  {
    hide Nodes, PathNodes, SepT, SepP, Sep;
    var sib := T(T(a, x, true, b), s, false, r);
    SepParts(InLeft(g, c, sib, up), t);
    SepUp(InLeft(g, c, sib, up), t);
    SepNode(T(a, x, true, b), s, false, r);
    SepNode(a, x, true, b);
    SepNode(b, s, false, r);
  }

  lemma {:induction false} NephewApartRight(g: Node, c: bool, a: Tree, x: Node, b: Tree, s: Node, l: Tree, up: Path,
      t: Tree)
    requires Sep(InRight(T(l, s, false, T(a, x, true, b)), g, c, up), t)
    ensures Apart(x, s, l, a, b) && ApartUp(x, g, T(l, s, false, a), b, t, up)
    ensures s != g && s !in Nodes(t) && s !in PathNodes(up) && Nodes(a) !! Nodes(t) && Nodes(a) !! PathNodes(up)
      && g !in Nodes(a)
  {
    hide Nodes, PathNodes, SepT, SepP, Sep;
    var sib := T(l, s, false, T(a, x, true, b));
    SepParts(InRight(sib, g, c, up), t);
    SepUp(InRight(sib, g, c, up), t);
    SepNode(l, s, false, T(a, x, true, b));
    SepNode(a, x, true, b);
    SepNode(l, s, false, a);
  }

  /** Case 3 and then 4, hole on the left. */
  method RotateInnerLeft(tr: RBTree, x: Node, s: Node, g: Node, ghost c: bool, ghost a: Tree, ghost b: Tree,
      ghost r: Tree, ghost up: Path, ghost t: Tree)
    requires Sep(InLeft(g, c, T(T(a, x, true, b), s, false, r), up), t) && !Red(b)
    requires At(InLeft(g, c, T(T(a, x, true, b), s, false, r), up), t, RootOf(t), tr.root)
    modifies tr`root, TopNode(up)`left, TopNode(up)`right, x, s, g, RootSet(a), RootSet(b)
    ensures At(up, T(T(t, g, false, a), x, c, T(b, s, false, r)), x, tr.root)
  {
    NephewApartLeft(g, c, a, x, b, s, r, up, t);
    TopInside(up);
    RootInside(a);
    RootInside(b);
    SiblingLinks(InLeft(g, c, T(T(a, x, true, b), s, false, r), up), t, tr.root);
    assert Rep(T(a, x, true, b), s.left, s);
    assert allocated(Nodes(t)) && allocated(Nodes(a)) && allocated(Nodes(b)) && allocated(Nodes(r))
      && allocated(PathNodes(up));
    hide Nodes, PathNodes, SepT, SepP, RepPath, Rep, RootOf;
    TurnRight(x, s, false, a, b, r);
    // the link from `g` is written by the rotation
    tr.RaiseRight(x, g, false, false, t, a, T(b, s, false, r), up);
  }

  /** The mirror images. */
  method RotateOuterRight(tr: RBTree, s: Node, g: Node, ghost c: bool, ghost m: Tree, ghost l: Tree, ghost up: Path,
      ghost t: Tree)
    requires Sep(InRight(T(l, s, false, m), g, c, up), t) && l.T?
    requires At(InRight(T(l, s, false, m), g, c, up), t, RootOf(t), tr.root)
    modifies tr`root, TopNode(up)`left, TopNode(up)`right, s, g, RootSet(m), RootSet(l)
    ensures At(up, T(l.(red := false), s, c, T(m, g, false, t)), s, tr.root)
  {
    ghost var p := InRight(T(l, s, false, m), g, c, up);
    SiblingApart(p, t);
    SiblingLinks(p, t, tr.root);
    TopInside(up);
    RootInside(m);
    RootInside(l);
    SepBlack(l);
    assert Rep(l, s.left, s) && SepT(l.(red := false));
    assert allocated(Nodes(t)) && allocated(Nodes(m)) && allocated(Nodes(l)) && allocated(PathNodes(up));
    hide Nodes, PathNodes, SepT, SepP, RepPath;
    Blacken(s.left, s, l);
    tr.RaiseLeft(s, g, false, false, l.(red := false), m, t, up);
  }

  method RotateInnerRight(tr: RBTree, x: Node, s: Node, g: Node, ghost c: bool, ghost a: Tree, ghost b: Tree,
      ghost l: Tree, ghost up: Path, ghost t: Tree)
    requires Sep(InRight(T(l, s, false, T(a, x, true, b)), g, c, up), t) && !Red(a)
    requires At(InRight(T(l, s, false, T(a, x, true, b)), g, c, up), t, RootOf(t), tr.root)
    modifies tr`root, TopNode(up)`left, TopNode(up)`right, x, s, g, RootSet(a), RootSet(b)
    ensures At(up, T(T(l, s, false, a), x, c, T(b, g, false, t)), x, tr.root)
  {
    NephewApartRight(g, c, a, x, b, s, l, up, t);
    TopInside(up);
    RootInside(a);
    RootInside(b);
    SiblingLinks(InRight(T(l, s, false, T(a, x, true, b)), g, c, up), t, tr.root);
    assert Rep(T(a, x, true, b), s.right, s);
    assert allocated(Nodes(t)) && allocated(Nodes(a)) && allocated(Nodes(b)) && allocated(Nodes(l))
      && allocated(PathNodes(up));
    hide Nodes, PathNodes, SepT, SepP, RepPath, Rep, RootOf;
    TurnLeft(x, s, false, l, a, b);
    tr.RaiseLeft(x, g, false, false, T(l, s, false, a), b, t, up);
  }

  /** Cases 2 to 4 of one turn of __rb_erase_fix, hole on the left, sibling black. */
  method BlackSiblingLeft(tr: RBTree, sibling: Node, parent: Node, ghost p: Path, ghost t: Tree)
    returns (more: bool, ghost t': Tree)
    requires Short(p, t) && At(p, t, RootOf(t), tr.root)
    requires p.InLeft? && p.n == parent && p.sib.T? && p.sib.n == sibling && !p.sib.red
    modifies tr`root, Nodes(t), PathNodes(p)
    ensures SameAs(p.up, t', p, t) && At(p.up, t', RootOf(t'), tr.root)
    ensures more ==> Short(p.up, t') && !p.red && RootOf(t') == parent
    ensures !more ==> Fine(p.up, t')
  {
    SeparateAt(p, t);
    SiblingApart(p, t);
    SiblingLinks(p, t, tr.root);
    TopInside(p.up);
    ghost var l, r, up := p.sib.l, p.sib.r, p.up;
    RootInside(l);
    RootInside(r);
    SepUp(p, t);
    SepNode(l, sibling, false, r);
    assert Rep(r, sibling.right, sibling) && Rep(l, sibling.left, sibling);
    assert l.T? ==> Nodes(l) == Nodes(l.l) + {l.n} + Nodes(l.r);
    hide Nodes, PathNodes, SepT, SepP, RepPath, Inorder, Plug, Sorted, Balanced, Fits, BH;
    var tmp1 := sibling.right;
    if tmp1 == null || !tmp1.red {
      var tmp2 := sibling.left;
      if tmp2 == null || !tmp2.red {
        more, t' := Redden(tr, sibling, parent, p, t);
      } else {
        InnerNephewLeft(parent, p.red, l.l, tmp2, l.r, sibling, r, up, t);
        RootInside(l.l);
        RootInside(l.r);
        RotateInnerLeft(tr, tmp2, sibling, parent, p.red, l.l, l.r, r, up, t);
        more, t' := false, T(T(t, parent, false, l.l), tmp2, p.red, T(l.r, sibling, false, r));
      }
    } else {
      RedNephewLeft(parent, p.red, l, sibling, r, up, t);
      RotateOuterLeft(tr, sibling, parent, p.red, l, r, up, t);
      more, t' := false, T(T(t, parent, false, l), sibling, p.red, r.(red := false));
    }
  }

  /** The mirror image. */
  method BlackSiblingRight(tr: RBTree, sibling: Node, parent: Node, ghost p: Path, ghost t: Tree)
    returns (more: bool, ghost t': Tree)
    requires Short(p, t) && At(p, t, RootOf(t), tr.root)
    requires p.InRight? && p.n == parent && p.sib.T? && p.sib.n == sibling && !p.sib.red
    modifies tr`root, Nodes(t), PathNodes(p)
    ensures SameAs(p.up, t', p, t) && At(p.up, t', RootOf(t'), tr.root)
    ensures more ==> Short(p.up, t') && !p.red && RootOf(t') == parent
    ensures !more ==> Fine(p.up, t')
  {
    SeparateAt(p, t);
    SiblingApart(p, t);
    SiblingLinks(p, t, tr.root);
    TopInside(p.up);
    ghost var l, r, up := p.sib.l, p.sib.r, p.up;
    RootInside(l);
    RootInside(r);
    SepUp(p, t);
    SepNode(l, sibling, false, r);
    assert Rep(r, sibling.right, sibling) && Rep(l, sibling.left, sibling);
    assert r.T? ==> Nodes(r) == Nodes(r.l) + {r.n} + Nodes(r.r);
    hide Nodes, PathNodes, SepT, SepP, RepPath, Inorder, Plug, Sorted, Balanced, Fits, BH;
    var tmp1 := sibling.left;
    if tmp1 == null || !tmp1.red {
      var tmp2 := sibling.right;
      if tmp2 == null || !tmp2.red {
        more, t' := Redden(tr, sibling, parent, p, t);
      } else {
        InnerNephewRight(parent, p.red, r.l, tmp2, r.r, sibling, l, up, t);
        RootInside(r.l);
        RootInside(r.r);
        RotateInnerRight(tr, tmp2, sibling, parent, p.red, r.l, r.r, l, up, t);
        more, t' := false, T(T(l, sibling, false, r.l), tmp2, p.red, T(r.r, parent, false, t));
      }
    } else {
      RedNephewRight(parent, p.red, r, sibling, l, up, t);
      RotateOuterRight(tr, sibling, parent, p.red, r, l, up, t);
      more, t' := false, T(l.(red := false), sibling, p.red, T(r, parent, false, t));
    }
  }

  /** Which side the hole is on can be read off its parent's right link. */
  lemma HoleSide(p: Path, t: Tree, root: Node?)
    requires Short(p, t) && At(p, t, RootOf(t), root)
    ensures p.sib.T?
    ensures p.InLeft? <==> p.n.right != RootOf(t)
    ensures p.sib.n == if p.InLeft? then p.n.right else p.n.left
    ensures p.sib.n.red == p.sib.red && p.n.parent == ParentOf(p.up)
  {
    ShortSibling(p, t);
    SeparateAt(p, t);
    SepUp(p, t);
    SiblingLinks(p, t, root);
    RootInside(p.sib);
    RootInside(t);
  }

  /** One turn of __rb_erase_fix. */
  method FixShort(tr: RBTree, node: Node?, parent: Node, ghost p: Path, ghost t: Tree)
    returns (more: bool, ghost p': Path, ghost t': Tree)
    requires Short(p, t) && At(p, t, node, tr.root) && node == RootOf(t) && p.n == parent
    modifies tr`root, Nodes(t), PathNodes(p)
    ensures SameAs(p', t', p, t) && At(p', t', RootOf(t'), tr.root)
    ensures more ==> Short(p', t') && p' == p.up && RootOf(t') == parent
    ensures !more ==> Fine(p', t')
  {
    HoleSide(p, t, tr.root);
    ghost var q := p;
    hide Nodes, PathNodes, SepT, SepP, RepPath, Inorder, Plug, Sorted, Balanced, Fits, BH;
    var sibling := parent.right;
    if node != sibling {
      if sibling.red {
        sibling, q := RaiseSiblingLeft(tr, sibling, parent, p, t);
        SameNodes(q, t, p, t);
      }
      more, t' := BlackSiblingLeft(tr, sibling, parent, q, t);
    } else {
      sibling := parent.left;
      if sibling.red {
        sibling, q := RaiseSiblingRight(tr, sibling, parent, p, t);
        SameNodes(q, t, p, t);
      }
      more, t' := BlackSiblingRight(tr, sibling, parent, q, t);
    }
    p' := q.up;
  }

  /** __rb_erase_fix. The loop ends because it climbs. */
  method EraseFix(tr: RBTree, parent0: Node, ghost p0: Path) returns (ghost r: Tree)
    requires Short(p0, Leaf) && At(p0, Leaf, null, tr.root) && p0.n == parent0
    modifies tr`root, PathNodes(p0)
    ensures Rep(r, tr.root, null) && RedBlack(r) && Inorder(r) == Inorder(Plug(p0, Leaf))
  {
    var node: Node?, parent: Node := null, parent0;
    ghost var p, t := p0, Leaf;
    assert Nodes(Leaf) == {};
    while true
      invariant Short(p, t) && At(p, t, node, tr.root) && node == RootOf(t) && p.n == parent
      invariant SameAs(p, t, p0, Leaf)
      invariant Nodes(t) + PathNodes(p) == PathNodes(p0)
      decreases p
    {
      ghost var p1, t1 := p, t;
      var more: bool;
      more, p, t := FixShort(tr, node, parent, p, t);
      if !more {
        AtPlug(p, t, RootOf(t), tr.root);
        PlugBalanced(p, t);
        r := Plug(p, t);
        return;
      }
      SameNodes(p, t, p1, t1);
      node := parent;
      parent := node.parent;
    }
  }
}
