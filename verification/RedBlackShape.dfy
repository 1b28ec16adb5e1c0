/** Red-black trees of nodes as values: search order, colours, black height, and a path
    from a position up to the root (src/common/rbtree.c). */
module RedBlackShape {

  /** struct rb_node_, with the packed parent and colour word split in two. Nodes compare
      by `key`. */
  class Node {
    const key: int
    var left: Node?
    var right: Node?
    var parent: Node?
    var red: bool

    constructor (key: int)
      ensures this.key == key
    {
      this.key := key;
    }
  }

  datatype Tree = Leaf | T(l: Tree, n: Node, red: bool, r: Tree)

  /** The way from a position to the root: the node above, its colour and its other
      subtree at every step. */
  datatype Path =
    | Top
    | InLeft(n: Node, red: bool, sib: Tree, up: Path)
    | InRight(sib: Tree, n: Node, red: bool, up: Path)

  // ---------- contents ----------

  ghost function Inorder(t: Tree): (s: seq<Node>) {
    match t
    case Leaf => []
    case T(l, n, _, r) => Inorder(l) + [n] + Inorder(r)
  }

  ghost function Nodes(t: Tree): (s: set<Node>) {
    match t
    case Leaf => {}
    case T(l, n, _, r) => Nodes(l) + {n} + Nodes(r)
  }

  ghost function Plug(p: Path, t: Tree): (r: Tree)
    decreases p
  {
    match p
    case Top => t
    case InLeft(n, c, sib, up) => Plug(up, T(t, n, c, sib))
    case InRight(sib, n, c, up) => Plug(up, T(sib, n, c, t))
  }

  /** What comes before and after the position, in search order. */
  ghost function Before(p: Path): (s: seq<Node>) {
    match p
    case Top => []
    case InLeft(_, _, _, up) => Before(up)
    case InRight(sib, n, _, up) => Before(up) + Inorder(sib) + [n]
  }

  ghost function After(p: Path): (s: seq<Node>) {
    match p
    case Top => []
    case InLeft(n, _, sib, up) => [n] + Inorder(sib) + After(up)
    case InRight(_, _, _, up) => After(up)
  }

  ghost function PathNodes(p: Path): (s: set<Node>) {
    match p
    case Top => {}
    case InLeft(n, _, sib, up) => {n} + Nodes(sib) + PathNodes(up)
    case InRight(sib, n, _, up) => {n} + Nodes(sib) + PathNodes(up)
  }

  lemma Regroup(a: seq<Node>, b: seq<Node>, n: Node, c: seq<Node>, d: seq<Node>)
    ensures a + (b + [n] + c) + d == a + b + ([n] + c + d)
    ensures a + (b + [n] + c) + d == (a + b + [n]) + c + d
  {
  }

  lemma {:induction false} PlugInorder(p: Path, t: Tree)
    ensures Inorder(Plug(p, t)) == Before(p) + Inorder(t) + After(p)
    decreases p
  {
    match p
    case Top =>
    case InLeft(n, c, sib, up) =>
      PlugInorder(up, T(t, n, c, sib));
      Regroup(Before(up), Inorder(t), n, Inorder(sib), After(up));
    case InRight(sib, n, c, up) =>
      PlugInorder(up, T(sib, n, c, t));
      Regroup(Before(up), Inorder(sib), n, Inorder(t), After(up));
  }

  lemma {:induction false} NodesInorder(t: Tree, x: Node)
    ensures x in Nodes(t) <==> x in Inorder(t)
  {
    match t
    case Leaf =>
    case T(l, n, c, r) =>
      NodesInorder(l, x);
      NodesInorder(r, x);
  }

  ghost function Members(s: seq<Node>): (r: set<Node>) {
    set x | x in s
  }

  lemma {:induction false} NodesAre(t: Tree)
    ensures Nodes(t) == Members(Inorder(t))
  {
    match t
    case Leaf =>
    case T(l, n, c, r) =>
      NodesAre(l);
      NodesAre(r);
  }

  lemma {:induction false} PlugNodes(p: Path, t: Tree)
    ensures Nodes(Plug(p, t)) == Nodes(t) + PathNodes(p)
    decreases p
  {
    match p
    case Top =>
    case InLeft(n, c, sib, up) => PlugNodes(up, T(t, n, c, sib));
    case InRight(sib, n, c, up) => PlugNodes(up, T(sib, n, c, t));
  }

  // ---------- search order ----------

  ghost predicate Sorted(s: seq<Node>) {
    forall i, j :: 0 <= i < j < |s| ==> s[i].key < s[j].key
  }

  lemma SortedParts(a: seq<Node>, b: seq<Node>)
    requires Sorted(a + b)
    ensures Sorted(a) && Sorted(b)
    ensures forall x, y :: x in a && y in b ==> x.key < y.key
  {
    var s := a + b;
    forall i, j | 0 <= i < j < |a| ensures a[i].key < a[j].key { assert s[i] == a[i] && s[j] == a[j]; }
    forall i, j | 0 <= i < j < |b| ensures b[i].key < b[j].key { assert s[|a| + i] == b[i] && s[|a| + j] == b[j]; }
    forall x, y | x in a && y in b ensures x.key < y.key {
      var i :| 0 <= i < |a| && a[i] == x;
      var j :| 0 <= j < |b| && b[j] == y;
      assert s[i] == x && s[|a| + j] == y;
    }
  }

  lemma SortedJoin(a: seq<Node>, b: seq<Node>)
    requires Sorted(a) && Sorted(b)
    requires forall x, y :: x in a && y in b ==> x.key < y.key
    ensures Sorted(a + b)
  {
  }

  /** No node occurs twice in a tree. */
  ghost predicate SepT(t: Tree) {
    match t
    case Leaf => true
    case T(l, n, _, r) =>
      n !in Nodes(l) && n !in Nodes(r) && Nodes(l) !! Nodes(r) && SepT(l) && SepT(r)
  }

  ghost predicate SepP(p: Path) {
    match p
    case Top => true
    case InLeft(n, _, sib, up) =>
      n !in Nodes(sib) && n !in PathNodes(up) && Nodes(sib) !! PathNodes(up) && SepT(sib) && SepP(up)
    case InRight(sib, n, _, up) =>
      n !in Nodes(sib) && n !in PathNodes(up) && Nodes(sib) !! PathNodes(up) && SepT(sib) && SepP(up)
  }

  ghost predicate Sep(p: Path, t: Tree) {
    SepT(t) && SepP(p) && Nodes(t) !! PathNodes(p)
  }

  /** Different keys make different nodes. */
  lemma {:induction false} SortedSepT(t: Tree)
    requires Sorted(Inorder(t))
    ensures SepT(t)
  {
    match t
    case Leaf =>
    case T(l, n, c, r) =>
      SortedParts(Inorder(l) + [n], Inorder(r));
      SortedParts(Inorder(l), [n]);
      SortedSepT(l);
      SortedSepT(r);
      var ln := Inorder(l) + [n];
      assert n in ln && n in [n];
      forall x: Node | x in Nodes(l) ensures x.key < n.key {
        NodesInorder(l, x);
      }
      forall x: Node | x in Nodes(r) ensures n.key < x.key {
        NodesInorder(r, x);
      }
  }

  /** The separation of a whole tree is that of any of its positions. */
  lemma {:induction false} SepPlug(p: Path, t: Tree)
    requires SepT(Plug(p, t))
    ensures Sep(p, t)
    decreases p
  {
    match p
    case Top =>
    case InLeft(n, c, sib, up) => SepPlug(up, T(t, n, c, sib));
    case InRight(sib, n, c, up) => SepPlug(up, T(sib, n, c, t));
  }

  // ---------- colours and black height ----------

  ghost predicate Red(t: Tree) {
    t.T? && t.red
  }

  /** Black nodes on every way down. */
  ghost function BH(t: Tree): (h: nat) {
    match t
    case Leaf => 0
    case T(l, _, c, _) => BH(l) + if c then 0 else 1
  }

  /** No red node has a red child, and all ways down have equally many black nodes. */
  ghost predicate Balanced(t: Tree) {
    match t
    case Leaf => true
    case T(l, _, c, r) =>
      Balanced(l) && Balanced(r) && BH(l) == BH(r) && (c ==> !Red(l) && !Red(r))
  }

  ghost predicate TopRed(p: Path) {
    !p.Top? && p.red
  }

  /** The rest of a balanced tree with a black root, around a subtree of black height `h`. */
  ghost predicate Fits(p: Path, h: nat) {
    match p
    case Top => true
    case InLeft(_, c, sib, up) =>
      Balanced(sib) && BH(sib) == h && (c ==> !Red(sib) && !TopRed(up) && !up.Top?) &&
      Fits(up, if c then h else h + 1)
    case InRight(sib, _, c, up) =>
      Balanced(sib) && BH(sib) == h && (c ==> !Red(sib) && !TopRed(up) && !up.Top?) &&
      Fits(up, if c then h else h + 1)
  }

  ghost predicate RedBlack(t: Tree) {
    Balanced(t) && !Red(t)
  }

  lemma {:induction false} PlugBalanced(p: Path, t: Tree)
    requires Balanced(t) && Fits(p, BH(t)) && (Red(t) ==> !TopRed(p) && !p.Top?)
    ensures RedBlack(Plug(p, t))
    decreases p
  {
    match p
    case Top =>
    case InLeft(n, c, sib, up) => PlugBalanced(up, T(t, n, c, sib));
    case InRight(sib, n, c, up) => PlugBalanced(up, T(sib, n, c, t));
  }

  /** A position of a red-black tree. */
  lemma {:induction false} PlugBalancedInv(p: Path, t: Tree)
    requires RedBlack(Plug(p, t))
    ensures Balanced(t) && Fits(p, BH(t)) && (Red(t) ==> !TopRed(p) && !p.Top?)
    decreases p
  {
    match p
    case Top =>
    case InLeft(n, c, sib, up) => PlugBalancedInv(up, T(t, n, c, sib));
    case InRight(sib, n, c, up) => PlugBalancedInv(up, T(sib, n, c, t));
  }
}
