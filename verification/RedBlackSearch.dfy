/** Searching a red-black tree: _rb_lookup and _rb_first of src/common/rbtree.c, and the
    height that bounds their loops. */
module RedBlackSearching {
  import opened RedBlackShape
  import opened RedBlackTrees

  /** _rb_lookup agrees with membership. */
  method Lookup(tr: RBTree, key: int) returns (x: Node?)
    requires tr.Valid()
    ensures x != null ==> x in Nodes(tr.t) && x.key == key
    ensures x == null ==> forall y :: y in Nodes(tr.t) ==> y.key != key
  {
    x := tr.root;
    ghost var p, s := Top, tr.t;
    AtTop(tr.t, tr.root, key);
    while x != null
      invariant Plug(p, s) == tr.t && Rep(s, x, ParentOf(p)) && KeysAround(p, key)
      decreases s
    {
      PlugNodes(p, s);
      assert Rep(s.l, x.left, x) && Rep(s.r, x.right, x);
      if key < x.key {
        KeysLeft(p, s.l, s.n, s.red, s.r, key);
        x := x.left;
        p, s := InLeft(s.n, s.red, s.r, p), s.l;
      } else if x.key < key {
        KeysRight(p, s.l, s.n, s.red, s.r, key);
        x := x.right;
        p, s := InRight(s.l, s.n, s.red, p), s.r;
      } else {
        return;
      }
    }
    AbsentKey(p, tr.t, key);
  }

  /** An empty position with the right neighbours: the key is nowhere. */
  lemma {:induction false} AbsentKey(p: Path, t: Tree, k: int)
    requires Plug(p, Leaf) == t && KeysAround(p, k)
    ensures forall y :: y in Nodes(t) ==> y.key != k
  {
    PlugInorder(p, Leaf);
    NodesAre(t);
  }

  /** _rb_first is the minimum. */
  method First(tr: RBTree) returns (x: Node?)
    requires tr.Valid()
    ensures x == null <==> Nodes(tr.t) == {}
    ensures x != null ==> x in Nodes(tr.t) && forall y :: y in Nodes(tr.t) && y != x ==> x.key < y.key
  {
    var n := tr.root;
    if n == null {
      return null;
    }
    ghost var s, rest := tr.t, [];
    assert Inorder(s) + [] == Inorder(s);
    while n.left != null
      invariant n != null && s.T? && Rep(s, n, n.parent) && Inorder(tr.t) == Inorder(s) + rest
      decreases s
    {
      assert Rep(s.l, n.left, n);
      n := n.left;
      assert Inorder(s) + rest == Inorder(s.l) + ([s.n] + Inorder(s.r) + rest);
      rest := [s.n] + Inorder(s.r) + rest;
      s := s.l;
    }
    assert Rep(s.l, n.left, n);
    assert Inorder(tr.t)[0] == n;
    LeastFirst(tr.t);
    x := n;
  }

  lemma {:induction false} LeastFirst(t: Tree)
    requires Sorted(Inorder(t)) && Inorder(t) != []
    ensures Inorder(t)[0] in Nodes(t)
    ensures forall y :: y in Nodes(t) && y != Inorder(t)[0] ==> Inorder(t)[0].key < y.key
  {
    NodesAre(t);
  }

  // ---------- height ----------

  ghost function Height(t: Tree): (h: nat) {
    match t
    case Leaf => 0
    case T(l, _, _, r) => 1 + if Height(l) < Height(r) then Height(r) else Height(l)
  }

  ghost function Power2(n: nat): (p: nat)
    ensures p >= 1
  {
    if n == 0 then 1 else 2 * Power2(n - 1)
  }

  lemma {:induction false} Power2Grows(m: nat, n: nat)
    requires m <= n
    ensures Power2(m) <= Power2(n)
  {
    if m < n {
      Power2Grows(m, n - 1);
    }
  }

  lemma {:induction false} Power2Twice(n: nat)
    ensures Power2(2 * n) == Power2(n) * Power2(n)
  {
    if n > 0 {
      Power2Twice(n - 1);
      var p := Power2(n - 1);
      assert Power2(2 * n) == 4 * Power2(2 * (n - 1));
      assert 4 * (p * p) == (2 * p) * (2 * p);
    }
  }

  /** At most every second node on a way down is red. */
  lemma {:induction false} HeightByBlack(t: Tree)
    requires Balanced(t)
    ensures Height(t) <= 2 * BH(t) + if Red(t) then 1 else 0
  {
    match t
    case Leaf =>
    case T(l, n, c, r) =>
      HeightByBlack(l);
      HeightByBlack(r);
  }

  lemma {:induction false} SizeByBlack(t: Tree)
    requires Balanced(t)
    ensures Power2(BH(t)) <= |Inorder(t)| + 1
  {
    match t
    case Leaf =>
    case T(l, n, c, r) =>
      SizeByBlack(l);
      SizeByBlack(r);
      assert |Inorder(t)| == |Inorder(l)| + 1 + |Inorder(r)|;
  }

  /** Height is at most 2 log2(n + 1): 2^height <= (n + 1)^2. */
  lemma {:induction false} HeightBound(t: Tree)
    requires RedBlack(t)
    ensures var n := |Inorder(t)|;
      Power2(Height(t)) <= (n + 1) * (n + 1)
  {
    var n, b := |Inorder(t)|, Power2(BH(t));
    HeightByBlack(t);
    SizeByBlack(t);
    Power2Grows(Height(t), 2 * BH(t));
    Power2Twice(BH(t));
    SquareGrows(b, n + 1);
  }

  lemma SquareGrows(a: nat, b: nat)
    requires a <= b
    ensures a * a <= b * b
  {
    assert a * a <= a * b <= b * b;
  }
}
