/** Red-black trees on the heap, with parent pointers, and insertion into them
    (__rb_insert_fix and _rb_insert of src/common/rbtree.c). */
module RedBlackTrees {
  import opened RedBlackShape

  /** The nodes below `x`, whose parent is `p`, are linked as `t` says. */
  ghost predicate Rep(t: Tree, x: Node?, p: Node?)
    reads Nodes(t)
  {
    match t
    case Leaf => x == null
    case T(l, n, c, r) =>
      x == n && n.parent == p && n.red == c && Rep(l, n.left, n) && Rep(r, n.right, n)
  }

  ghost function ParentOf(p: Path): (n: Node?) {
    if p.Top? then null else p.n
  }

  /** The nodes above the position of `x` are linked as `p` says, up to the root. */
  ghost predicate RepPath(p: Path, x: Node?, root: Node?)
    reads PathNodes(p)
  {
    match p
    case Top => root == x
    case InLeft(n, c, sib, up) =>
      n.left == x && n.parent == ParentOf(up) && n.red == c && Rep(sib, n.right, n) && RepPath(up, n, root)
    case InRight(sib, n, c, up) =>
      n.right == x && n.parent == ParentOf(up) && n.red == c && Rep(sib, n.left, n) && RepPath(up, n, root)
  }

  /** One step up: the subtree of the node above. */
  ghost function Join(p: Path, t: Tree): (r: Tree)
    requires !p.Top?
  {
    if p.InLeft? then T(t, p.n, p.red, p.sib) else T(p.sib, p.n, p.red, t)
  }

  /** The node above, whose fields a change of child touches. */
  ghost function TopNode(p: Path): (s: set<Node>) {
    if p.Top? then {} else {p.n}
  }

  ghost function RootSet(t: Tree): (s: set<Node>) {
    if t.Leaf? then {} else {t.n}
  }

  lemma {:induction false} RepNode(l: Tree, n: Node, c: bool, r: Tree, p: Node?)
    requires n.parent == p && n.red == c && Rep(l, n.left, n) && Rep(r, n.right, n)
    ensures Rep(T(l, n, c, r), n, p)
  {
  }

  lemma {:induction false} TopInside(p: Path)
    ensures TopNode(p) <= PathNodes(p)
  {
  }

  lemma {:induction false} RootInside(t: Tree)
    ensures RootSet(t) <= Nodes(t)
  {
  }

  /** Two nodes and the three subtrees around them, all apart. */
  ghost predicate Apart(x: Node, y: Node, a: Tree, b: Tree, c: Tree) {
    && x != y && SepT(a) && SepT(b) && SepT(c)
    && x !in Nodes(a) && x !in Nodes(b) && x !in Nodes(c)
    && y !in Nodes(a) && y !in Nodes(b) && y !in Nodes(c)
    && Nodes(a) !! Nodes(b) && Nodes(a) !! Nodes(c) && Nodes(b) !! Nodes(c)
  }

  ghost predicate ApartUp(x: Node, y: Node, a: Tree, b: Tree, c: Tree, up: Path) {
    && Apart(x, y, a, b, c)
    && SepP(up) && x !in PathNodes(up) && y !in PathNodes(up)
    && Nodes(a) !! PathNodes(up) && Nodes(b) !! PathNodes(up) && Nodes(c) !! PathNodes(up)
  }

  /** rb_set_parent on the root of a subtree, if there is one; with `black`, also
      rb_set_black, where it is black already. */
  method Adopt(x: Node?, p: Node, black: bool, ghost q: Node?, ghost b: Tree)
    requires Rep(b, x, q) && SepT(b) && (black ==> !Red(b))
    modifies RootSet(b)`parent, RootSet(b)`red
    ensures Rep(b, x, p)
  {
    if x != null {
      x.parent := p;
      if black {
        x.red := false;
      }
    }
  }

  /** The right child of `p` takes its place, `p` becoming its left child. The link from
      above is left to the caller. */
  method TurnLeft(x: Node, p: Node, red: bool, ghost a: Tree, ghost b: Tree, ghost c: Tree)
    requires Apart(x, p, a, b, c) && !Red(b)
    requires Rep(a, p.left, p) && Rep(b, x.left, x) && Rep(c, x.right, x)
    modifies p`right, p`parent, p`red, x`left, RootSet(b)`parent, RootSet(b)`red
    ensures Rep(T(a, p, red, b), x.left, x) && Rep(c, x.right, x)
  {
    hide Rep, Nodes;
    RootInside(b);
    assert allocated(Nodes(a)) && allocated(Nodes(c));
    var tmp := x.left;
    p.right := tmp;
    Adopt(tmp, p, true, x, b);
    x.left := p;
    p.parent, p.red := x, red;
    RepNode(a, p, red, b, x);
  }

  method TurnRight(x: Node, p: Node, red: bool, ghost a: Tree, ghost b: Tree, ghost c: Tree)
    requires Apart(x, p, a, b, c) && !Red(b)
    requires Rep(a, x.left, x) && Rep(b, x.right, x) && Rep(c, p.right, p)
    modifies p`left, p`parent, p`red, x`right, RootSet(b)`parent, RootSet(b)`red
    ensures Rep(T(b, p, red, c), x.right, x) && Rep(a, x.left, x)
  {
    hide Rep, Nodes;
    RootInside(b);
    assert allocated(Nodes(a)) && allocated(Nodes(c));
    var tmp := x.right;
    p.left := tmp;
    Adopt(tmp, p, true, x, b);
    x.right := p;
    p.parent, p.red := x, red;
    RepNode(b, p, red, c, x);
  }

  /** The position `p` holds the subtree `t`, rooted at `x`, in the tree under `root`. */
  ghost predicate At(p: Path, t: Tree, x: Node?, root: Node?)
    reads Nodes(t), PathNodes(p)
  {
    Rep(t, x, ParentOf(p)) && RepPath(p, x, root)
  }

  /** Positions and whole trees. */
  lemma {:induction false} AtPlug(p: Path, t: Tree, x: Node?, root: Node?)
    requires At(p, t, x, root)
    ensures Rep(Plug(p, t), root, null)
    decreases p
  {
    if !p.Top? {
      AtPlug(p.up, Join(p, t), p.n, root);
    }
  }

  lemma {:induction false} PlugAt(p: Path, t: Tree, root: Node?)
    requires Rep(Plug(p, t), root, null)
    ensures At(p, t, if t.Leaf? then null else t.n, root)
    decreases p
  {
    if !p.Top? {
      PlugAt(p.up, Join(p, t), root);
      assert Rep(Join(p, t), p.n, ParentOf(p.up));
      assert Rep(t, if p.InLeft? then p.n.left else p.n.right, p.n);
    }
  }

  // ---------- separation, one step at a time ----------

  lemma {:induction false} SepNode(l: Tree, n: Node, c: bool, r: Tree)
    ensures Nodes(T(l, n, c, r)) == Nodes(l) + {n} + Nodes(r)
    ensures SepT(T(l, n, c, r)) <==>
      n !in Nodes(l) && n !in Nodes(r) && Nodes(l) !! Nodes(r) && SepT(l) && SepT(r)
  {
  }

  /** Going up one step; the other subtree is `sib` on either side. */
  lemma {:induction false} SepUp(p: Path, t: Tree)
    requires !p.Top? && Sep(p, t)
    ensures PathNodes(p) == {p.n} + Nodes(p.sib) + PathNodes(p.up)
    ensures SepT(p.sib) && SepP(p.up)
    ensures p.n !in Nodes(p.sib) && p.n !in PathNodes(p.up) && Nodes(p.sib) !! PathNodes(p.up)
    ensures p.n !in Nodes(t) && Nodes(t) !! Nodes(p.sib) && Nodes(t) !! PathNodes(p.up)
    ensures Sep(p.up, Join(p, t))
  {
  }

  lemma {:induction false} AtUp(p: Path, t: Tree, x: Node?, root: Node?)
    requires !p.Top? && At(p, t, x, root)
    ensures At(p.up, Join(p, t), p.n, root)
    ensures p.n.parent == ParentOf(p.up) && p.n.red == p.red && RepPath(p.up, p.n, root)
    ensures if p.InLeft? then p.n.left == x && Rep(p.sib, p.n.right, p.n)
            else p.n.right == x && Rep(p.sib, p.n.left, p.n)
  {
  }

  lemma {:induction false} InnerLeft(x: Node, p: Node, g: Node, a: Tree, b: Tree, c: Tree, u: Tree, up: Path)
    requires Sep(InRight(a, p, true, InLeft(g, false, u, up)), T(b, x, true, c))
    ensures Apart(x, p, a, b, c) && ApartUp(x, g, T(a, p, true, b), c, u, up)
    ensures p != g && p !in Nodes(u) && p !in PathNodes(up) && Nodes(b) !! Nodes(u) && Nodes(b) !! PathNodes(up)
  {
    hide Nodes, PathNodes, SepT, SepP, Sep;
    var q, t := InLeft(g, false, u, up), T(b, x, true, c);
    SepParts(InRight(a, p, true, q), t);
    SepNode(b, x, true, c);
    SepUp(InRight(a, p, true, q), t);
    SepParts(q, T(a, p, true, t));
    SepUp(q, T(a, p, true, t));
    SepNode(a, p, true, t);
    SepNode(a, p, true, b);
  }

  lemma {:induction false} SepParts(p: Path, t: Tree)
    requires Sep(p, t)
    ensures SepT(t) && SepP(p) && Nodes(t) !! PathNodes(p)
  {
  }

  lemma OuterLeft(p: Node, g: Node, s: Tree, c: Tree, u: Tree, up: Path)
    requires Sep(InLeft(p, true, c, InLeft(g, false, u, up)), s)
    ensures ApartUp(p, g, s, c, u, up)
  {
    var q := InLeft(g, false, u, up);
    assert SepP(q) && PathNodes(q) == {g} + Nodes(u) + PathNodes(up);
  }

  lemma {:induction false} InnerRight(x: Node, p: Node, g: Node, a: Tree, b: Tree, c: Tree, u: Tree, up: Path)
    requires Sep(InLeft(p, true, c, InRight(u, g, false, up)), T(a, x, true, b))
    ensures Apart(x, p, a, b, c) && ApartUp(x, g, u, a, T(b, p, true, c), up)
    ensures p != g && p !in Nodes(u) && p !in PathNodes(up) && Nodes(b) !! Nodes(u) && Nodes(b) !! PathNodes(up)
  {
    hide Nodes, PathNodes, SepT, SepP, Sep;
    var q, t := InRight(u, g, false, up), T(a, x, true, b);
    SepParts(InLeft(p, true, c, q), t);
    SepNode(a, x, true, b);
    SepUp(InLeft(p, true, c, q), t);
    SepParts(q, T(t, p, true, c));
    SepUp(q, T(t, p, true, c));
    SepNode(t, p, true, c);
    SepNode(b, p, true, c);
  }

  lemma OuterRight(p: Node, g: Node, s: Tree, c: Tree, u: Tree, up: Path)
    requires Sep(InRight(c, p, true, InRight(u, g, false, up)), s)
    ensures ApartUp(p, g, u, c, s, up)
  {
    var q := InRight(u, g, false, up);
    assert SepP(q) && PathNodes(q) == {g} + Nodes(u) + PathNodes(up);
  }

  // ---------- insertion, on values ----------

  /** A red node that may sit below a red parent; everything else is in order. */
  ghost predicate Inserting(p: Path, t: Tree) {
    t.T? && t.red && Balanced(t) && Fits(p, BH(t)) && Sorted(Inorder(Plug(p, t)))
  }

  /** A subtree put in order at a position. */
  ghost predicate Settled(p: Path, t: Tree) {
    t.T? && Balanced(t) && !Red(t) && Fits(p, BH(t)) && Sorted(Inorder(Plug(p, t)))
  }

  lemma {:induction false} SameOrder(p: Path, t: Tree, t': Tree)
    requires Inorder(t) == Inorder(t')
    ensures Inorder(Plug(p, t)) == Inorder(Plug(p, t'))
  {
    PlugInorder(p, t);
    PlugInorder(p, t');
  }

  lemma {:induction false} SameNodes(p: Path, t: Tree, p': Path, t': Tree)
    requires Inorder(Plug(p, t)) == Inorder(Plug(p', t'))
    ensures Nodes(t) + PathNodes(p) == Nodes(t') + PathNodes(p')
  {
    PlugNodes(p, t);
    PlugNodes(p', t');
    NodesAre(Plug(p, t));
    NodesAre(Plug(p', t'));
  }

  /** Which child a node is can be read off its parent's right link. */
  lemma WhichSide(p: Path, t: Tree, x: Node, root: Node?)
    requires !p.Top? && At(p, t, x, root) && Sep(p, t)
    ensures p.InRight? <==> p.n.right == x
  {
    SepUp(p, t);
  }

  lemma {:induction false} SeparateAt(p: Path, t: Tree)
    requires Sorted(Inorder(Plug(p, t)))
    ensures Sep(p, t)
  {
    SortedSepT(Plug(p, t));
    SepPlug(p, t);
  }

  /** Below a red parent there is a black grandparent. */
  lemma {:induction false} BelowRed(p: Path, t: Tree)
    requires Inserting(p, t) && TopRed(p)
    ensures !p.up.Top? && !p.up.red
    ensures Plug(p, t) == Plug(p.up.up, Join(p.up, Join(p, t)))
    ensures !Red(p.sib) && !Red(t.l) && !Red(t.r)
  {
  }

  lemma RecolourValue(p: Path, t: Tree)
    requires Inserting(p, t) && TopRed(p) && !p.up.Top? && Red(p.up.sib)
    ensures var q := p.up;
      var mine, other := Join(p, t).(red := false), q.sib.(red := false);
      var g := if q.InLeft? then T(mine, q.n, true, other) else T(other, q.n, true, mine);
      Inserting(q.up, g) && Inorder(Plug(q.up, g)) == Inorder(Plug(p, t))
  {
    BelowRed(p, t);
    var q := p.up;
    var mine, other := Join(p, t).(red := false), q.sib.(red := false);
    var g := if q.InLeft? then T(mine, q.n, true, other) else T(other, q.n, true, mine);
    assert Inorder(g) == Inorder(Join(q, Join(p, t)));
    SameOrder(q.up, g, Join(q, Join(p, t)));
    assert Fits(q, BH(Join(p, t)));
  }

  /** A rotation keeps the order. */
  lemma {:induction false} RotateOrder(l: Tree, x: Node, m: Tree, y: Node, r: Tree, c: bool, d: bool, e: bool, f: bool)
    ensures Inorder(T(T(l, x, c, m), y, d, r)) == Inorder(T(l, x, e, T(m, y, f, r)))
  {
    var s, t := T(l, x, c, m), T(m, y, f, r);
    assert Inorder(T(s, y, d, r)) == (Inorder(l) + [x] + Inorder(m)) + [y] + Inorder(r);
    assert Inorder(T(l, x, e, t)) == Inorder(l) + [x] + (Inorder(m) + [y] + Inorder(r));
  }

  lemma {:induction false} InnerLeftOrder(x: Node, p: Node, g: Node, a: Tree, b: Tree, c: Tree, u: Tree, up: Path)
    ensures Inorder(Plug(up, T(T(a, p, true, b), x, false, T(c, g, true, u)))) ==
            Inorder(Plug(InRight(a, p, true, InLeft(g, false, u, up)), T(b, x, true, c)))
  {
    var m := T(b, x, true, c);
    var n, k := T(a, p, true, m), T(T(a, p, true, b), x, true, c);
    var q := InLeft(g, false, u, up);
    assert Plug(InRight(a, p, true, q), m) == Plug(q, n) == Plug(up, T(n, g, false, u));
    RotateOrder(a, p, b, x, c, true, true, true, true);
    assert Inorder(T(n, g, false, u)) == Inorder(T(k, g, false, u));
    RotateOrder(T(a, p, true, b), x, c, g, u, true, false, false, true);
    SameOrder(up, T(n, g, false, u), T(T(a, p, true, b), x, false, T(c, g, true, u)));
  }

  lemma {:induction false} InnerLeftValue(x: Node, p: Node, g: Node, a: Tree, b: Tree, c: Tree, u: Tree, up: Path)
    requires Inserting(InRight(a, p, true, InLeft(g, false, u, up)), T(b, x, true, c)) && !Red(u)
    ensures var t := T(T(a, p, true, b), x, false, T(c, g, true, u));
      && Settled(up, t)
      && Inorder(Plug(up, t)) == Inorder(Plug(InRight(a, p, true, InLeft(g, false, u, up)), T(b, x, true, c)))
  {
    InnerLeftOrder(x, p, g, a, b, c, u, up);
    assert Fits(InLeft(g, false, u, up), BH(a));
  }

  lemma {:induction false} OuterLeftValue(p: Node, g: Node, s: Tree, c: Tree, u: Tree, up: Path)
    requires Inserting(InLeft(p, true, c, InLeft(g, false, u, up)), s) && !Red(u)
    ensures var t := T(s, p, false, T(c, g, true, u));
      Settled(up, t) && Inorder(Plug(up, t)) == Inorder(Plug(InLeft(p, true, c, InLeft(g, false, u, up)), s))
  {
    var q := InLeft(g, false, u, up);
    assert Plug(InLeft(p, true, c, q), s) == Plug(q, T(s, p, true, c)) == Plug(up, T(T(s, p, true, c), g, false, u));
    RotateOrder(s, p, c, g, u, true, false, false, true);
    SameOrder(up, T(s, p, false, T(c, g, true, u)), T(T(s, p, true, c), g, false, u));
    assert Fits(q, BH(c));
  }

  lemma {:induction false} InnerRightOrder(x: Node, p: Node, g: Node, a: Tree, b: Tree, c: Tree, u: Tree, up: Path)
    ensures Inorder(Plug(up, T(T(u, g, true, a), x, false, T(b, p, true, c)))) ==
            Inorder(Plug(InLeft(p, true, c, InRight(u, g, false, up)), T(a, x, true, b)))
  {
    var m := T(a, x, true, b);
    var n, k := T(m, p, true, c), T(a, x, true, T(b, p, true, c));
    var q := InRight(u, g, false, up);
    assert Plug(InLeft(p, true, c, q), m) == Plug(q, n) == Plug(up, T(u, g, false, n));
    RotateOrder(a, x, b, p, c, true, true, true, true);
    assert Inorder(T(u, g, false, n)) == Inorder(T(u, g, false, k));
    RotateOrder(u, g, a, x, T(b, p, true, c), true, false, false, true);
    SameOrder(up, T(u, g, false, n), T(T(u, g, true, a), x, false, T(b, p, true, c)));
  }

  lemma {:induction false} InnerRightValue(x: Node, p: Node, g: Node, a: Tree, b: Tree, c: Tree, u: Tree, up: Path)
    requires Inserting(InLeft(p, true, c, InRight(u, g, false, up)), T(a, x, true, b)) && !Red(u)
    ensures var t := T(T(u, g, true, a), x, false, T(b, p, true, c));
      && Settled(up, t)
      && Inorder(Plug(up, t)) == Inorder(Plug(InLeft(p, true, c, InRight(u, g, false, up)), T(a, x, true, b)))
  {
    InnerRightOrder(x, p, g, a, b, c, u, up);
    assert Fits(InRight(u, g, false, up), BH(c));
  }

  lemma {:induction false} OuterRightValue(p: Node, g: Node, s: Tree, c: Tree, u: Tree, up: Path)
    requires Inserting(InRight(c, p, true, InRight(u, g, false, up)), s) && !Red(u)
    ensures var t := T(T(u, g, true, c), p, false, s);
      Settled(up, t) && Inorder(Plug(up, t)) == Inorder(Plug(InRight(c, p, true, InRight(u, g, false, up)), s))
  {
    var q := InRight(u, g, false, up);
    assert Plug(InRight(c, p, true, q), s) == Plug(q, T(c, p, true, s)) == Plug(up, T(u, g, false, T(c, p, true, s)));
    RotateOrder(u, g, c, p, s, true, false, false, true);
    SameOrder(up, T(T(u, g, true, c), p, false, s), T(u, g, false, T(c, p, true, s)));
    assert Fits(q, BH(c));
  }

  // ---------- the search for a key ----------

  /** Everything before the position is smaller, everything after it is larger. */
  ghost predicate KeysAround(p: Path, k: int) {
    (forall i :: 0 <= i < |Before(p)| ==> Before(p)[i].key < k) &&
    (forall i :: 0 <= i < |After(p)| ==> k < After(p)[i].key)
  }

  lemma SortedThree(a: seq<Node>, b: seq<Node>, c: seq<Node>)
    requires Sorted(a + b + c)
    ensures Sorted(a) && Sorted(c)
  {
    SortedParts(a + b, c);
    SortedParts(a, b);
  }

  lemma FirstIsLeast(s: seq<Node>, k: int)
    requires Sorted(s) && s != [] && k < s[0].key
    ensures forall i :: 0 <= i < |s| ==> k < s[i].key
  {
  }

  lemma LastIsGreatest(s: seq<Node>, k: int)
    requires Sorted(s) && s != [] && s[|s| - 1].key < k
    ensures forall i :: 0 <= i < |s| ==> s[i].key < k
  {
  }

  lemma {:induction false} KeysLeft(p: Path, l: Tree, n: Node, c: bool, r: Tree, k: int)
    requires Sorted(Inorder(Plug(p, T(l, n, c, r)))) && KeysAround(p, k) && k < n.key
    ensures KeysAround(InLeft(n, c, r, p), k)
  {
    var q := InLeft(n, c, r, p);
    PlugInorder(q, l);
    assert Before(q) == Before(p) && After(q) == [n] + Inorder(r) + After(p) && After(q)[0] == n;
    assert Plug(q, l) == Plug(p, T(l, n, c, r));
    hide Inorder, Plug, Sorted, Before, After;
    SortedThree(Before(q), Inorder(l), After(q));
    FirstIsLeast(After(q), k);
  }

  lemma {:induction false} KeysRight(p: Path, l: Tree, n: Node, c: bool, r: Tree, k: int)
    requires Sorted(Inorder(Plug(p, T(l, n, c, r)))) && KeysAround(p, k) && n.key < k
    ensures KeysAround(InRight(l, n, c, p), k)
  {
    var q := InRight(l, n, c, p);
    PlugInorder(q, r);
    assert Before(q) == Before(p) + Inorder(l) + [n] && After(q) == After(p) && Before(q)[|Before(q)| - 1] == n;
    assert Plug(q, r) == Plug(p, T(l, n, c, r));
    hide Inorder, Plug, Sorted, Before, After;
    SortedThree(Before(q), Inorder(r), After(q));
    LastIsGreatest(Before(q), k);
  }

  /** A node may be new to a tree it is not in. */
  lemma {:induction false} PlugSep(p: Path, s: Tree, t: Tree, x: Node)
    requires Plug(p, s) == t && Sorted(Inorder(t)) && x !in Nodes(t)
    ensures Sep(p, s) && x !in Nodes(s) && x !in PathNodes(p)
  {
    SeparateAt(p, s);
    PlugNodes(p, s);
  }

  /** An empty position with the right neighbours is where the key belongs. */
  lemma {:induction false} NewKey(p: Path, x: Node, t: Tree)
    requires Plug(p, Leaf) == t && RedBlack(t) && Sorted(Inorder(t)) && KeysAround(p, x.key)
    ensures Inserting(p, T(Leaf, x, true, Leaf))
    ensures forall y :: y in Nodes(t) ==> y.key != x.key
  {
    NodesAre(t);
    PlugInorder(p, Leaf);
    PlugInorder(p, T(Leaf, x, true, Leaf));
    assert Inorder(t) == Before(p) + After(p);
    SortedParts(Before(p), After(p));
    assert Inorder(T(Leaf, x, true, Leaf)) == [x];
    SortedJoin(Before(p), [x]);
    SortedJoin(Before(p) + [x], After(p));
    PlugBalancedInv(p, Leaf);
  }

  lemma {:induction false} AtTop(t: Tree, root: Node?, k: int)
    requires Rep(t, root, null)
    ensures Plug(Top, t) == t && At(Top, t, root, root) && KeysAround(Top, k)
  {
  }

  /** The tree after an insertion has the new node and no other. */
  lemma {:induction false} AddsOne(p: Path, x: Node, t: Tree, t': Tree)
    requires Plug(p, Leaf) == t && Inserting(p, T(Leaf, x, true, Leaf))
    requires Inorder(t') == Inorder(Plug(p, T(Leaf, x, true, Leaf)))
    ensures Nodes(t') == Nodes(t) + {x} && Sorted(Inorder(t'))
  {
    NodesAre(t');
    NodesAre(Plug(p, T(Leaf, x, true, Leaf)));
    PlugNodes(p, T(Leaf, x, true, Leaf));
    PlugNodes(p, Leaf);
  }

  class RBTree {
    var root: Node?
    ghost var t: Tree

    /** __rb_change_child */
    method ChangeChild(older: Node, newer: Node?, parent: Node?, ghost up: Path)
      requires RepPath(up, older, root) && parent == ParentOf(up) && SepP(up) && older !in PathNodes(up)
      modifies this`root, TopNode(up)`left, TopNode(up)`right
      ensures RepPath(up, newer, root)
    {
      if parent != null {
        if parent.left == older {
          parent.left := newer;
        } else {
          parent.right := newer;
        }
      } else {
        root := newer;
      }
    }

    /** __rb_rotate_set_parents */
    method RotateSetParents(older: Node, newer: Node, red: bool, ghost up: Path)
      requires RepPath(up, older, root) && older.parent == ParentOf(up) && SepP(up)
      requires older !in PathNodes(up) && newer !in PathNodes(up) && older != newer
      modifies this`root, TopNode(up)`left, TopNode(up)`right, newer`parent, newer`red, older`parent, older`red
      ensures RepPath(up, newer, root)
      ensures newer.parent == ParentOf(up) && newer.red == old(older.red)
      ensures older.parent == newer && older.red == red
    {
      var parent := older.parent;
      newer.parent := older.parent;
      newer.red := older.red;
      older.parent := newer;
      older.red := red;
      ChangeChild(older, newer, parent, up);
    }

    /** `s` moves up over its parent `g`, which becomes its right child. */
    method RaiseLeft(s: Node, g: Node, red: bool, black: bool,
                     ghost l: Tree, ghost m: Tree, ghost r: Tree, ghost up: Path)
      requires ApartUp(s, g, l, m, r, up) && (black ==> !Red(m))
      requires Rep(l, s.left, s) && Rep(m, s.right, s) && Rep(r, g.right, g)
      requires RepPath(up, g, root) && g.parent == ParentOf(up)
      modifies this`root, TopNode(up)`left, TopNode(up)`right, s, g, RootSet(m)`parent, RootSet(m)`red
      ensures Rep(T(l, s, old(g.red), T(m, g, red, r)), s, ParentOf(up)) && RepPath(up, s, root)
    {
      hide Rep, Nodes, RepPath, PathNodes;
      RootInside(m);
      TopInside(up);
      assert allocated(Nodes(l)) && allocated(Nodes(m)) && allocated(Nodes(r)) && allocated(PathNodes(up));
      var tmp := s.right;
      g.left := tmp;
      Adopt(tmp, g, black, s, m);
      s.right := g;
      RotateSetParents(g, s, red, up);
      RepNode(m, g, red, r, s);
      RepNode(l, s, s.red, T(m, g, red, r), ParentOf(up));
    }

    /** `s` moves up over its parent `g`, which becomes its left child. */
    method RaiseRight(s: Node, g: Node, red: bool, black: bool,
                      ghost l: Tree, ghost m: Tree, ghost r: Tree, ghost up: Path)
      requires ApartUp(s, g, l, m, r, up) && (black ==> !Red(m))
      requires Rep(l, g.left, g) && Rep(m, s.left, s) && Rep(r, s.right, s)
      requires RepPath(up, g, root) && g.parent == ParentOf(up)
      modifies this`root, TopNode(up)`left, TopNode(up)`right, s, g, RootSet(m)`parent, RootSet(m)`red
      ensures Rep(T(T(l, g, red, m), s, old(g.red), r), s, ParentOf(up)) && RepPath(up, s, root)
    {
      hide Rep, Nodes, RepPath, PathNodes;
      RootInside(m);
      TopInside(up);
      assert allocated(Nodes(l)) && allocated(Nodes(m)) && allocated(Nodes(r)) && allocated(PathNodes(up));
      var tmp := s.left;
      g.right := tmp;
      Adopt(tmp, g, black, s, m);
      s.left := g;
      RotateSetParents(g, s, red, up);
      RepNode(l, g, red, m, s);
      RepNode(T(l, g, red, m), s, s.red, r, ParentOf(up));
    }

    /** Insert, case 2 then 3: the new node is the right child of a left child. */
    method InsertInnerLeft(x: Node, p: Node, g: Node, ghost a: Tree, ghost b: Tree, ghost c: Tree, ghost u: Tree,
                           ghost up: Path)
      requires Sep(InRight(a, p, true, InLeft(g, false, u, up)), T(b, x, true, c)) && !Red(b) && !Red(c)
      requires At(InRight(a, p, true, InLeft(g, false, u, up)), T(b, x, true, c), x, root)
      modifies this`root, TopNode(up)`left, TopNode(up)`right, x, p, g, Nodes(b), Nodes(c)
      ensures At(up, T(T(a, p, true, b), x, false, T(c, g, true, u)), x, root)
    {
      InnerLeft(x, p, g, a, b, c, u, up);
      RootInside(b);
      RootInside(c);
      TopInside(up);
      assert allocated(Nodes(a)) && allocated(Nodes(b)) && allocated(Nodes(c)) && allocated(Nodes(u));
      assert allocated(PathNodes(up));
      assert RepPath(InLeft(g, false, u, up), p, root);
      hide Nodes, PathNodes, RepPath, SepT, SepP;
      TurnLeft(x, p, true, a, b, c);
      RaiseLeft(x, g, true, true, T(a, p, true, b), c, u, up);
    }

    /** Insert, case 3: the new node is the left child of a left child. */
    method InsertOuterLeft(p: Node, g: Node, ghost x: Node, ghost s: Tree, ghost c: Tree, ghost u: Tree, ghost up: Path)
      requires Sep(InLeft(p, true, c, InLeft(g, false, u, up)), s) && !Red(c)
      requires At(InLeft(p, true, c, InLeft(g, false, u, up)), s, x, root)
      modifies this`root, TopNode(up)`left, TopNode(up)`right, p, g, Nodes(c)
      ensures At(up, T(s, p, false, T(c, g, true, u)), p, root)
    {
      OuterLeft(p, g, s, c, u, up);
      RootInside(c);
      TopInside(up);
      assert RepPath(InLeft(g, false, u, up), p, root);
      hide Nodes, PathNodes, RepPath, SepT, SepP;
      RaiseLeft(p, g, true, true, s, c, u, up);
    }

    /** The mirror images. */
    method InsertInnerRight(x: Node, p: Node, g: Node, ghost a: Tree, ghost b: Tree, ghost c: Tree, ghost u: Tree,
                            ghost up: Path)
      requires Sep(InLeft(p, true, c, InRight(u, g, false, up)), T(a, x, true, b)) && !Red(a) && !Red(b)
      requires At(InLeft(p, true, c, InRight(u, g, false, up)), T(a, x, true, b), x, root)
      modifies this`root, TopNode(up)`left, TopNode(up)`right, x, p, g, Nodes(a), Nodes(b)
      ensures At(up, T(T(u, g, true, a), x, false, T(b, p, true, c)), x, root)
    {
      InnerRight(x, p, g, a, b, c, u, up);
      RootInside(a);
      RootInside(b);
      TopInside(up);
      assert allocated(Nodes(a)) && allocated(Nodes(b)) && allocated(Nodes(c)) && allocated(Nodes(u));
      assert allocated(PathNodes(up));
      assert RepPath(InRight(u, g, false, up), p, root);
      hide Nodes, PathNodes, RepPath, SepT, SepP;
      TurnRight(x, p, true, a, b, c);
      RaiseRight(x, g, true, true, u, a, T(b, p, true, c), up);
    }

    method InsertOuterRight(p: Node, g: Node, ghost x: Node, ghost s: Tree, ghost c: Tree, ghost u: Tree,
        ghost up: Path)
      requires Sep(InRight(c, p, true, InRight(u, g, false, up)), s) && !Red(c)
      requires At(InRight(c, p, true, InRight(u, g, false, up)), s, x, root)
      modifies this`root, TopNode(up)`left, TopNode(up)`right, p, g, Nodes(c)
      ensures At(up, T(T(u, g, true, c), p, false, s), p, root)
    {
      OuterRight(p, g, s, c, u, up);
      RootInside(c);
      TopInside(up);
      assert RepPath(InRight(u, g, false, up), p, root);
      hide Nodes, PathNodes, RepPath, SepT, SepP;
      RaiseRight(p, g, true, true, u, c, s, up);
    }

    /** Insert, case 1: parent and uncle become black, the grandparent red. */
    method Recolour(uncle: Node, parent: Node, gparent: Node, ghost l: Tree, ghost r: Tree, ghost up: Path)
      requires l.T? && r.T? && Sep(up, T(l, gparent, false, r))
      requires (l.n == parent && r.n == uncle) || (l.n == uncle && r.n == parent)
      requires At(up, T(l, gparent, false, r), gparent, root)
      modifies uncle`parent, uncle`red, parent`parent, parent`red, gparent`red
      ensures At(up, T(l.(red := false), gparent, true, r.(red := false)), gparent, root)
    {
      SepNode(l, gparent, false, r);
      RootInside(l);
      RootInside(r);
      assert Rep(l, gparent.left, gparent) && Rep(r, gparent.right, gparent);
      assert l.n.parent == gparent && r.n.parent == gparent;
      hide Rep, Nodes, PathNodes, RepPath, SepT, SepP;
      assert allocated(Nodes(l)) && allocated(Nodes(r)) && allocated(PathNodes(up));
      Blacken(uncle, gparent, if l.n == uncle then l else r);
      Blacken(parent, gparent, if l.n == uncle then r else l);
      gparent.red := true;
      SepBlack(l);
      SepBlack(r);
      RepNode(l.(red := false), gparent, true, r.(red := false), ParentOf(up));
    }

    /** One turn of __rb_insert_fix with a red parent that is a left child. */
    method FixLeft(node: Node, parent: Node, gparent: Node, ghost t: Tree, ghost p: Path)
      returns (more: bool, ghost t': Tree, ghost p': Path)
      requires Inserting(p, t) && At(p, t, node, root)
      requires TopRed(p) && p.n == parent && p.up.InLeft? && p.up.n == gparent
      modifies this`root, Nodes(t), PathNodes(p)
      ensures p' == p.up.up && t'.T? && At(p', t', t'.n, root)
      ensures Inorder(Plug(p', t')) == Inorder(Plug(p, t))
      ensures more ==> Inserting(p', t') && t'.n == gparent
      ensures !more ==> Settled(p', t')
    {
      BelowRed(p, t);
      SeparateAt(p, t);
      AtUp(p, t, node, root);
      ghost var q, j := p.up, Join(p, t);
      AtUp(q, j, parent, root);
      SepUp(p, t);
      SepUp(q, j);
      TopInside(q.up);
      RootInside(p.sib);
      RootInside(q.sib);
      p' := q.up;
      assert t.n == node && Rep(t, node, parent) && Rep(t.l, node.left, node) && Rep(t.r, node.right, node);
      assert Rep(q.sib, gparent.right, gparent) && Rep(p.sib, if p.InLeft? then parent.right else parent.left, parent);
      SepNode(t.l, t.n, t.red, t.r);
      assert allocated(Nodes(t)) && allocated(PathNodes(p));
      hide Nodes, PathNodes, SepT, SepP, RepPath, Inorder, Plug, Balanced, Fits, BH, Sorted;
      var tmp := gparent.right;
      if tmp != null && tmp.red {
        RecolourValue(p, t);
        Recolour(tmp, parent, gparent, j, q.sib, q.up);
        t' := T(j.(red := false), gparent, true, q.sib.(red := false));
        more := true;
      } else {
        tmp := parent.right;
        if node == tmp {
          InnerLeftValue(node, parent, gparent, p.sib, t.l, t.r, q.sib, q.up);
          InsertInnerLeft(node, parent, gparent, p.sib, t.l, t.r, q.sib, q.up);
          t' := T(T(p.sib, parent, true, t.l), node, false, T(t.r, gparent, true, q.sib));
        } else {
          OuterLeftValue(parent, gparent, t, p.sib, q.sib, q.up);
          InsertOuterLeft(parent, gparent, node, t, p.sib, q.sib, q.up);
          t' := T(t, parent, false, T(p.sib, gparent, true, q.sib));
        }
        more := false;
      }
    }

    /** One turn of __rb_insert_fix with a red parent that is a right child. */
    method FixRight(node: Node, parent: Node, gparent: Node, ghost t: Tree, ghost p: Path)
      returns (more: bool, ghost t': Tree, ghost p': Path)
      requires Inserting(p, t) && At(p, t, node, root)
      requires TopRed(p) && p.n == parent && p.up.InRight? && p.up.n == gparent
      modifies this`root, Nodes(t), PathNodes(p)
      ensures p' == p.up.up && t'.T? && At(p', t', t'.n, root)
      ensures Inorder(Plug(p', t')) == Inorder(Plug(p, t))
      ensures more ==> Inserting(p', t') && t'.n == gparent
      ensures !more ==> Settled(p', t')
    {
      BelowRed(p, t);
      SeparateAt(p, t);
      AtUp(p, t, node, root);
      ghost var q, j := p.up, Join(p, t);
      AtUp(q, j, parent, root);
      SepUp(p, t);
      SepUp(q, j);
      TopInside(q.up);
      RootInside(p.sib);
      RootInside(q.sib);
      p' := q.up;
      assert t.n == node && Rep(t, node, parent) && Rep(t.l, node.left, node) && Rep(t.r, node.right, node);
      assert Rep(q.sib, gparent.left, gparent) && Rep(p.sib, if p.InLeft? then parent.right else parent.left, parent);
      SepNode(t.l, t.n, t.red, t.r);
      assert allocated(Nodes(t)) && allocated(PathNodes(p));
      hide Nodes, PathNodes, SepT, SepP, RepPath, Inorder, Plug, Balanced, Fits, BH, Sorted;
      var tmp := gparent.left;
      if tmp != null && tmp.red {
        RecolourValue(p, t);
        Recolour(tmp, parent, gparent, q.sib, j, q.up);
        t' := T(q.sib.(red := false), gparent, true, j.(red := false));
        more := true;
      } else {
        tmp := parent.left;
        if node == tmp {
          InnerRightValue(node, parent, gparent, t.l, t.r, p.sib, q.sib, q.up);
          InsertInnerRight(node, parent, gparent, t.l, t.r, p.sib, q.sib, q.up);
          t' := T(T(q.sib, gparent, true, t.l), node, false, T(t.r, parent, true, p.sib));
        } else {
          OuterRightValue(parent, gparent, t, p.sib, q.sib, q.up);
          InsertOuterRight(parent, gparent, node, t, p.sib, q.sib, q.up);
          t' := T(T(q.sib, gparent, true, p.sib), parent, false, t);
        }
        more := false;
      }
    }

    /** __rb_insert_fix. The loop climbs two steps at a time. */
    method InsertFix(node0: Node, ghost t0: Tree, ghost p0: Path) returns (ghost r: Tree)
      requires Inserting(p0, t0) && Rep(t0, node0, ParentOf(p0)) && (p0.Top? || RepPath(p0, node0, root))
      modifies this`root, Nodes(t0), PathNodes(p0)
      ensures Rep(r, root, null) && RedBlack(r) && Inorder(r) == Inorder(Plug(p0, t0))
    {
      var node, parent := node0, node0.parent;
      ghost var t, p := t0, p0;
      while true
        invariant Inserting(p, t) && Rep(t, node, parent) && parent == ParentOf(p)
        invariant p.Top? || RepPath(p, node, root)
        invariant Inorder(Plug(p, t)) == Inorder(Plug(p0, t0))
        invariant Nodes(t) + PathNodes(p) == Nodes(t0) + PathNodes(p0)
        decreases p
      {
        if parent == null {
          SeparateAt(p, t);
          Blacken(node, null, t);
          root := node;
          r := t.(red := false);
          return;
        } else if !parent.red {
          AtPlug(p, t, node, root);
          PlugBalanced(p, t);
          r := Plug(p, t);
          return;
        }
        var gparent := parent.parent;
        ghost var p1, t1 := p, t;
        BelowRed(p, t);
        SeparateAt(p, t);
        AtUp(p, t, node, root);
        SepUp(p, t);
        WhichSide(p.up, Join(p, t), parent, root);
        var more: bool;
        if parent != gparent.right {
          more, t, p := FixLeft(node, parent, gparent, t, p);
        } else {
          more, t, p := FixRight(node, parent, gparent, t, p);
        }
        if !more {
          AtPlug(p, t, t.n, root);
          PlugBalanced(p, t);
          r := Plug(p, t);
          return;
        }
        SameNodes(p, t, p1, t1);
        node := gparent;
        parent := node.parent;
      }
    }

    /** Links match, colours and black heights are right, keys are in search order. */
    ghost predicate Valid()
      reads this, Nodes(t)
    {
      Rep(t, root, null) && RedBlack(t) && Sorted(Inorder(t))
    }

    /** _rb_insert: adds the node, or returns -1 and leaves the tree alone if a node with
        an equal key is in it. */
    method Insert(node: Node) returns (r: int)
      requires Valid() && node !in Nodes(t)
      modifies this, Nodes(t), node
      ensures Valid()
      ensures r == 0 || r == -1
      ensures r == -1 <==> exists x :: x in old(Nodes(t)) && x.key == node.key
      ensures r == -1 ==> t == old(t) && root == old(root)
      ensures r == 0 ==> Nodes(t) == old(Nodes(t)) + {node}
    {
      AtTop(t, root, node.key);
      hide RepPath, Plug, Inorder, Sorted, Balanced, PathNodes, SepT, SepP, KeysAround;
      var nw: Node?, parent: Node? := root, null;
      node.left, node.right := null, null;
      node.parent, node.red := null, true;
      ghost var p, s, t0 := Top, t, t;
      while nw != null
        invariant t == t0 && root == old(root) && Sorted(Inorder(t0)) && RedBlack(t0) && node !in Nodes(t0)
        invariant Plug(p, s) == t0 && Rep(s, nw, parent) && parent == ParentOf(p)
        invariant RepPath(p, if nw == null && parent != null then node else nw, root)
        invariant node.left == node.right == null && node.parent == (if nw == null then parent else null) && node.red
        invariant KeysAround(p, node.key)
        decreases s
      {
        PlugSep(p, s, t0, node);
        PlugNodes(p, s);
        parent := nw;
        if node.key < nw.key {
          KeysLeft(p, s.l, s.n, s.red, s.r, node.key);
          nw := StepLeft(nw, node, p, s, root);
          p, s := InLeft(s.n, s.red, s.r, p), s.l;
        } else if nw.key < node.key {
          KeysRight(p, s.l, s.n, s.red, s.r, node.key);
          nw := StepRight(nw, node, p, s, root);
          p, s := InRight(s.l, s.n, s.red, p), s.r;
        } else {
          PlugNodes(p, s);
          AtPlug(p, s, parent, root);
          return -1;
        }
      }
      NewKey(p, node, t0);
      PlugNodes(p, s);
      t := InsertFix(node, T(Leaf, node, true, Leaf), p);
      AddsOne(p, node, t0, t);
      r := 0;
    }
  }

  /** One step of the descent to the left; at the end the new node is linked. */
  method StepLeft(parent: Node, node: Node, ghost p: Path, ghost s: Tree, ghost root: Node?) returns (nw: Node?)
    requires s.T? && At(p, s, parent, root) && Sep(p, s) && node !in Nodes(s) && node !in PathNodes(p)
    modifies parent`left, node`parent
    ensures Rep(s.l, nw, parent) && RepPath(InLeft(s.n, s.red, s.r, p), if nw == null then node else nw, root)
    ensures node.parent == if nw == null then parent else old(node.parent)
  {
    assert Rep(s.l, parent.left, parent) && Rep(s.r, parent.right, parent);
    SepNode(s.l, s.n, s.red, s.r);
    nw := parent.left;
    if nw == null {
      parent.left := node;
      node.parent := parent;
    }
  }

  method StepRight(parent: Node, node: Node, ghost p: Path, ghost s: Tree, ghost root: Node?) returns (nw: Node?)
    requires s.T? && At(p, s, parent, root) && Sep(p, s) && node !in Nodes(s) && node !in PathNodes(p)
    modifies parent`right, node`parent
    ensures Rep(s.r, nw, parent) && RepPath(InRight(s.l, s.n, s.red, p), if nw == null then node else nw, root)
    ensures node.parent == if nw == null then parent else old(node.parent)
  {
    assert Rep(s.l, parent.left, parent) && Rep(s.r, parent.right, parent);
    SepNode(s.l, s.n, s.red, s.r);
    nw := parent.right;
    if nw == null {
      parent.right := node;
      node.parent := parent;
    }
  }

  lemma {:induction false} SepBlack(b: Tree)
    requires b.T?
    ensures Nodes(b.(red := false)) == Nodes(b)
  {
  }

  /** rb_set_parent_color(x, p, RB_BLACK) on the root of a subtree. */
  method Blacken(x: Node, p: Node?, ghost b: Tree)
    requires b.T? && SepT(b) && Rep(b, x, p)
    modifies x`parent, x`red
    ensures Rep(b.(red := false), x, p)
  {
    assert Rep(b.l, x.left, x) && Rep(b.r, x.right, x);
    x.parent, x.red := p, false;
  }
}
