/** free_pgdir: giving back the pages of a page table (src/kernel/pt.c). */
module Teardown {
  import opened PageMap
  import opened Paging

  // ---------- subtrees ----------

  function Parent(x: Node): (y: Node) {
    if x.level == 0 then x else Node(x.dir, x.level - 1, x.path / N_PTE)
  }

  /** The table of level `l` above `y`. */
  function Above(y: Node, l: nat): (x: Node)
    ensures y.level >= l ==> x.level == l
    ensures x.dir == y.dir
    decreases y.level
  {
    if y.level <= l then y else Above(Parent(y), l)
  }

  predicate Below(x: Node, y: Node) {
    y.level >= x.level && Above(y, x.level) == x
  }

  /** The pages of table `x` and of all tables below it. */
  ghost function Pages(s: St, x: Node): (p: set<nat>) {
    set y | y in s.tab && Below(x, y) :: s.tab[y]
  }

  lemma {:induction false} AboveStep(y: Node, l: nat)
    requires y.level > l
    ensures Above(y, l) == Parent(Above(y, l + 1))
    decreases y.level
  {
    if y.level > l + 1 { AboveStep(Parent(y), l); }
  }

  lemma {:induction false} AboveInTree(s: St, y: Node, l: nat)
    requires ParentsOk(s.roots, s.tab) && y in s.tab && l <= y.level
    ensures Above(y, l) in s.tab
    decreases y.level
  {
    if y.level > l {
      assert HasParent(s.tab, y);
      AboveInTree(s, Parent(y), l);
    }
  }

  lemma ChildOf(x: Node, i: nat)
    requires i < N_PTE
    ensures Parent(Child(x, i)) == x
  {
    Parts(x.path, N_PTE, i);
  }

  /** A subtree is its root and the subtrees of its children. */
  lemma {:induction false} PagesSplit(s: St, x: Node, g: nat)
    requires Inv(s) && x in s.tab
    ensures g in Pages(s, x) <==> g == s.tab[x] || exists i :: 0 <= i < N_PTE && g in Pages(s, Child(x, i))
  {
    hide QueueOk, NodesOk, EntriesOk, LeavesOk, CountsOk, ZeroOk;
    if g in Pages(s, x) {
      var y :| y in s.tab && Below(x, y) && s.tab[y] == g;
      if y.level > x.level {
        AboveStep(y, x.level);
        var c := Above(y, x.level + 1);
        var i := c.path % N_PTE;
        assert c == Child(x, i);
        assert Below(Child(x, i), y);
        assert g in Pages(s, Child(x, i));
      }
    }
    if g == s.tab[x] { assert Below(x, x); }
    if exists i :: 0 <= i < N_PTE && g in Pages(s, Child(x, i)) {
      var i: nat :| i < N_PTE && g in Pages(s, Child(x, i));
      var y :| y in s.tab && Below(Child(x, i), y) && s.tab[y] == g;
      AboveStep(y, x.level);
      ChildOf(x, i);
      assert Below(x, y);
    }
  }

  /** A child that is not there has no subtree. */
  lemma {:induction false} NoPages(s: St, x: Node)
    requires Inv(s) && x !in s.tab
    ensures Pages(s, x) == {}
  {
    hide QueueOk, NodesOk, EntriesOk, LeavesOk, CountsOk, ZeroOk;
    forall y | y in s.tab && Below(x, y) ensures false {
      AboveInTree(s, y, x.level);
    }
  }

  /** Different tables, disjoint subtrees: those of two children, and a child's and its parent's page. */
  lemma {:induction false} PagesApart(s: St, x: Node, i: nat, j: nat, g: nat)
    requires Inv(s) && x in s.tab && i < N_PTE && j < N_PTE && i != j && g in Pages(s, Child(x, i))
    ensures g !in Pages(s, Child(x, j)) && g != s.tab[x]
  {
    hide QueueOk, EntriesOk, LeavesOk, CountsOk, ZeroOk;
    var y :| y in s.tab && Below(Child(x, i), y) && s.tab[y] == g;
    assert y.level > x.level;
    assert forall z :: z in s.tab && s.tab[z] == g ==> z == y;
    assert Child(x, i) != Child(x, j);
  }

  // ---------- orphans ----------

  /** The tables of page directory `d` no longer count as such; their pages are still taken. */
  function Orphaned(s: St, d: nat): (r: St) {
    s.(roots := s.roots - {d}, tab := map x | x in s.tab && x.dir != d :: s.tab[x])
  }

  lemma {:induction false} OrphanedKeeps(s: St, d: nat, s': St)
    requires Inv(s) && (forall k :: k in s.leaf ==> k.dir != d) && s' == Orphaned(s, d)
    ensures Inv(s')
  {
    hide NodesOk, ParentsOk, EntriesOk, QueueOk;
    OrphanedTree(s, d, s');
    QueueSame(s, s');
    assert LeavesOk(s');
  }

  lemma {:induction false} OrphanedTree(s: St, d: nat, s': St)
    requires Shape(s) && NodesOk(s) && ParentsOk(s.roots, s.tab) && EntriesOk(s) && s' == Orphaned(s, d)
    ensures NodesOk(s') && ParentsOk(s'.roots, s'.tab) && EntriesOk(s')
  {
    OrphanedEntries(s, d, s') by { hide NodesOk, ParentsOk; }
    hide EntriesOk;
    OrphanedParents(s, d, s') by { hide NodesOk; }
    hide ParentsOk;
  }

  lemma OrphanedParents(s: St, d: nat, s': St)
    requires ParentsOk(s.roots, s.tab) && s' == Orphaned(s, d)
    ensures ParentsOk(s'.roots, s'.tab)
  {
    forall y | y in s'.tab ensures HasParent(s'.tab, y) { assert HasParent(s.tab, y); }
  }

  lemma OrphanedEntries(s: St, d: nat, s': St)
    requires EntriesOk(s) && s' == Orphaned(s, d)
    ensures EntriesOk(s')
  {
    forall y, j | y in s'.tab && 0 <= j < N_PTE && s'.tab[y] < |s'.pages| && |s'.pages[s'.tab[y]]| == N_PTE
      ensures s'.pages[s'.tab[y]][j] == EntryOf(s', y, j)
    {
      assert s.pages[s.tab[y]][j] == EntryOf(s, y, j);
      assert LeafOf(s', Key(y.dir, y.path * N_PTE + j)) == LeafOf(s, Key(y.dir, y.path * N_PTE + j));
    }
  }

  /** kfree_page of an orphan. */
  function FreedTable(s: St, f: nat): (r: St)
    requires f < |s.refs| == |s.role|
  {
    s.(refs := s.refs[f := s.refs[f] - 1], cnt := s.cnt - 1, free := [f] + s.free, role := s.role[f := FreePage])
  }

  lemma {:induction false} FreedKeeps(s: St, f: nat, s': St)
    requires Inv(s) && f < |s.refs| && s.role[f] == TablePage && (forall x :: x in s.tab ==> s.tab[x] != f)
    requires s' == FreedTable(s, f)
    ensures Inv(s') && s.refs[f] == 1 && f != s.zero
  {
    hide Count;
    PutQueue(s, s', f);
    assert EntriesOk(s') by { UnmapEntries(s, f, s'); }
    hide EntriesOk, ParentsOk;
    hide QueueOk;
    assert NodesOk(s') && LeavesOk(s');
  }

  // ---------- the loops ----------

  /** Of the pages in `doomed`, which were tables when the state was `s0`, those in `gone`
      are free, and nothing else has happened to pages. */
  ghost predicate Freeing(s0: St, s: St, s': St, gone: set<nat>) {
    && s'.tab == s.tab && s'.leaf == s.leaf && s'.hold == s.hold && s'.roots == s.roots && s'.zero == s.zero
    && s'.total == s.total && s'.pages == s.pages == s0.pages && |s'.role| == |s.role| == |s0.role|
    && (forall g :: 0 <= g < |s.role| ==> s'.role[g] == if g in gone then FreePage else s.role[g])
  }

  /** The pages of the subtree of `x` are orphans that are still taken. */
  ghost predicate Doomed(s0: St, s: St, x: Node) {
    && x in s0.tab && s.pages == s0.pages && |s.role| == |s0.role|
    && (forall y :: y in s.tab ==> y.dir != x.dir)
    && (forall y :: y in s.tab ==> y in s0.tab && s0.tab[y] == s.tab[y])
    && (forall g :: g in Pages(s0, x) ==> g < |s.role| && s.role[g] == TablePage)
  }

  method FreeTable(m: Machine, f: nat)
    requires Inv(m.S()) && f < |m.refs| == |m.role| && m.role[f] == TablePage
      && (forall x :: x in m.tab ==> m.tab[x] != f)
    modifies m`refs, m`free, m`cnt, m`role
    ensures Inv(m.S()) && Freeing(old(m.S()), old(m.S()), m.S(), {f})
  {
    ghost var s := m.S();
    FreedKeeps(s, f, FreedTable(s, f));
    hide Inv;
    m.Drop(f);
    m.role := m.role[f := FreePage];
    assert m.S() == FreedTable(s, f);
  }

  /** The page of table `x` and all pages below it are freed, each once. The source has one
      loop per level. */
  method FreeBelow(m: Machine, ghost s0: St, ghost x: Node, f: nat, level: nat)
    requires Inv(s0) && Inv(m.S()) && Doomed(s0, m.S(), x) && s0.tab[x] == f && x.level == level <= 3
    modifies m`refs, m`free, m`cnt, m`role
    ensures Inv(m.S()) && Freeing(s0, old(m.S()), m.S(), Pages(s0, x))
    decreases 3 - level, 2
  {
    assert x in s0.tab;
    hide Inv, Freeing, Doomed, Pages;
    ghost var s := m.S();
    ghost var gone := FreeChildren(m, s0, x, f, level);
    ghost var s1 := m.S();
    LastPage(s0, s, s1, x, gone);
    FreeTable(m, f);
    FreeingTwice(s0, s, s1, m.S(), gone, {f});
    Finished(s0, x, gone);
  }

  /** The loop over the entries of table `x`. */
  method FreeChildren(m: Machine, ghost s0: St, ghost x: Node, f: nat, level: nat) returns (ghost gone: set<nat>)
    requires Inv(s0) && Inv(m.S()) && Doomed(s0, m.S(), x) && s0.tab[x] == f && x.level == level <= 3
    modifies m`refs, m`free, m`cnt, m`role
    ensures Inv(m.S()) && Freeing(s0, old(m.S()), m.S(), gone)
    ensures forall g :: g in gone <==> exists j :: 0 <= j < N_PTE && g in Pages(s0, Child(x, j))
    decreases 3 - level, 1
  {
    hide Inv, Doomed, Pages, Freeing;
    ghost var s := m.S();
    gone := {};
    FreeingNone(s0, s, x);
    if level == 3 {
      NoChildren(s0, x);
      return;
    }
    var i := 0;
    while i < N_PTE
      invariant 0 <= i <= N_PTE && Inv(m.S()) && Freeing(s0, s, m.S(), gone)
      invariant forall g :: g in gone <==> exists j :: 0 <= j < i && g in Pages(s0, Child(x, j))
    {
      gone := FreeChild(m, s0, s, x, f, level, i, gone);
      i := i + 1;
    }
  }

  /** The pointer to a child of table `x`. The page that is read is still a taken table. */
  method ReadEntry(m: Machine, ghost s0: St, ghost s: St, ghost x: Node, f: nat, i: nat, ghost gone: set<nat>)
      returns (e: nat)
    requires Inv(s0) && Inv(m.S()) && Doomed(s0, s, x) && s0.tab[x] == f && x.level < 3 && i < N_PTE
    requires Freeing(s0, s, m.S(), gone)
    requires forall g :: g in gone <==> exists j :: 0 <= j < i && g in Pages(s0, Child(x, j))
    ensures f < |m.role| && m.role[f] == TablePage
    ensures e == 0 <==> Child(x, i) !in s0.tab
    ensures e != 0 ==> Frame(e) == s0.tab[Child(x, i)]
  {
    assert x in s0.tab && m.pages == s0.pages;
    hide Inv, Doomed, Pages, Freeing;
    LastPage(s0, s, m.S(), x, gone);
    EntryIsChild(s0, x, i);
    e := m.pages[f][i];
  }

  method FreeChild(m: Machine, ghost s0: St, ghost s: St, ghost x: Node, f: nat, level: nat, i: nat,
      ghost gone: set<nat>)
      returns (ghost gone': set<nat>)
    requires Inv(s0) && Inv(m.S()) && Doomed(s0, s, x) && s0.tab[x] == f && x.level == level < 3 && i < N_PTE
    requires Freeing(s0, s, m.S(), gone)
    requires forall g :: g in gone <==> exists j :: 0 <= j < i && g in Pages(s0, Child(x, j))
    modifies m`refs, m`free, m`cnt, m`role
    ensures Inv(m.S()) && Freeing(s0, s, m.S(), gone')
    ensures forall g :: g in gone' <==> exists j :: 0 <= j < i + 1 && g in Pages(s0, Child(x, j))
    decreases 3 - level, 0
  {
    hide Inv, Doomed, Pages, Freeing;
    ghost var s1 := m.S();
    var e := ReadEntry(m, s0, s, x, f, i, gone);
    gone' := gone + Pages(s0, Child(x, i));
    if e != 0 {
      ChildDoomed(s0, s, s1, x, i, gone);
      FreeBelow(m, s0, Child(x, i), Frame(e), level + 1);
      FreeingTwice(s0, s, s1, m.S(), gone, Pages(s0, Child(x, i)));
    } else {
      NoPages(s0, Child(x, i));
      assert gone' == gone;
    }
  }

  lemma FreeingTwice(s0: St, s: St, s1: St, s2: St, gone: set<nat>, more: set<nat>)
    requires Freeing(s0, s, s1, gone) && (Freeing(s0, s1, s2, more) || Freeing(s1, s1, s2, more))
    ensures Freeing(s0, s, s2, gone + more)
  {
  }

  lemma FreeingNone(s0: St, s: St, x: Node)
    requires Doomed(s0, s, x)
    ensures Freeing(s0, s, s, {})
  {
  }

  lemma {:induction false} NoChildren(s: St, x: Node)
    requires Inv(s) && x.level == 3
    ensures forall i: nat :: Pages(s, Child(x, i)) == {}
  {
    hide Pages;
    forall i: nat ensures Pages(s, Child(x, i)) == {} {
      assert Child(x, i) !in s.tab by { hide QueueOk, ParentsOk, EntriesOk, LeavesOk, CountsOk, ZeroOk; }
      NoPages(s, Child(x, i));
    }
  }

  lemma ChildDoomed(s0: St, s: St, s': St, x: Node, i: nat, gone: set<nat>)
    requires Inv(s0) && Doomed(s0, s, x) && Freeing(s0, s, s', gone) && i < N_PTE && Child(x, i) in s0.tab
    requires forall g :: g in gone <==> exists j :: 0 <= j < i && g in Pages(s0, Child(x, j))
    ensures Doomed(s0, s', Child(x, i))
  {
    hide Inv, Pages;
    forall g | g in Pages(s0, Child(x, i)) ensures g < |s'.role| && s'.role[g] == TablePage {
      PagesSplit(s0, x, g);
      if g in gone {
        var j :| 0 <= j < i && g in Pages(s0, Child(x, j));
        PagesApart(s0, x, j, i, g);
      }
    }
  }

  /** After the children the table's own page is still taken, and nobody else's. */
  lemma {:induction false} LastPage(s0: St, s: St, s': St, x: Node, gone: set<nat>)
    requires Inv(s0) && Doomed(s0, s, x) && Freeing(s0, s, s', gone) && Inv(s')
    requires forall g :: g in gone ==> exists j :: 0 <= j < N_PTE && g in Pages(s0, Child(x, j))
    ensures s0.tab[x] < |s'.refs| == |s'.role| && s'.role[s0.tab[x]] == TablePage
    ensures forall y :: y in s'.tab ==> s'.tab[y] != s0.tab[x]
  {
    hide QueueOk, ParentsOk, EntriesOk, LeavesOk, CountsOk, ZeroOk, Pages;
    var f := s0.tab[x];
    PagesSplit(s0, x, f);
    if f in gone {
      var j :| 0 <= j < N_PTE && f in Pages(s0, Child(x, j));
      PagesApart(s0, x, j, if j == 0 then 1 else 0, f);
    }
  }

  lemma Finished(s0: St, x: Node, gone: set<nat>)
    requires Inv(s0) && x in s0.tab
    requires forall g :: g in gone <==> exists j :: 0 <= j < N_PTE && g in Pages(s0, Child(x, j))
    ensures gone + {s0.tab[x]} == Pages(s0, x)
  {
    hide Inv, Pages;
    forall g: nat ensures g in gone + {s0.tab[x]} <==> g in Pages(s0, x) { PagesSplit(s0, x, g); }
  }

  // ---------- free_pgdir ----------

  /** The pages of all tables of page directory `d`. */
  ghost function TablesOf(s: St, d: nat): (p: set<nat>) {
    set y | y in s.tab && y.dir == d :: s.tab[y]
  }

  /** Every table of a directory is below its root. */
  lemma {:induction false} AllBelowRoot(s: St, d: nat)
    requires Inv(s) && Node(d, 0, 0) in s.tab
    ensures Pages(s, Node(d, 0, 0)) == TablesOf(s, d)
  {
    hide QueueOk, NodesOk, EntriesOk, LeavesOk, CountsOk, ZeroOk;
    forall y | y in s.tab && y.dir == d ensures Below(Node(d, 0, 0), y) {
      AboveInTree(s, y, 0);
    }
  }

  lemma {:induction false} RootDoomed(s: St, d: nat, s': St)
    requires Inv(s) && Node(d, 0, 0) in s.tab && s' == Orphaned(s, d)
    ensures Doomed(s, s', Node(d, 0, 0))
  {
    hide QueueOk, ParentsOk, EntriesOk, LeavesOk, CountsOk, ZeroOk;
  }

  lemma {:induction false} NoTables(s: St, d: nat)
    requires Inv(s) && Node(d, 0, 0) !in s.tab
    ensures TablesOf(s, d) == {}
  {
    hide QueueOk, NodesOk, EntriesOk, LeavesOk, CountsOk, ZeroOk;
    forall y | y in s.tab && y.dir == d ensures false {
      AboveInTree(s, y, 0);
    }
  }

  /** free_pgdir of the current process, all of whose mappings lie in its heap: every page of
      the heap loses one reference, every table of the directory is freed exactly once, and
      the other address spaces are untouched. */
  method FreePgdir(m: Machine, d: nat)
    requires Inv(m.S()) && m.HeapsOk() && d in m.heapEnd && m.heapEnd[d] <= PAGE_SIZE * SPAN
    requires forall k :: k in m.leaf && k.dir == d ==> k.pn < m.heapEnd[d] / PAGE_SIZE
    modifies m
    ensures Inv(m.S()) && m.HeapsOk() && d !in m.roots && d !in m.heapEnd
    ensures forall k :: k in m.leaf <==> k in old(m.leaf) && k.dir != d
    ensures forall k :: k in m.leaf ==> m.leaf[k] == old(m.leaf)[k]
    ensures forall g :: g in TablesOf(old(m.S()), d) ==> g in m.free
    ensures m.heapEnd == old(m.heapEnd) - {d} && m.roots == old(m.roots) - {d}
    ensures m.hold == old(m.hold) && m.zero == old(m.zero) && m.total == old(m.total)
    ensures NoNewData(old(m.S()), m.S())
  {
    hide Inv, Freeing, Pages, Doomed, TablesOf;
    ghost var s := m.S();
    m.FreeSections(d);
    ghost var s0 := m.S();
    SameTables(s, s0, d);
    CutAll(old(m.leaf), d, m.heapEnd[d] / PAGE_SIZE);
    RootIs(s0, d);
    var pt := m.roots[d];
    FreeTables(m, d, pt);
    m.heapEnd := m.heapEnd - {d};
  }

  lemma SameTables(s: St, s': St, d: nat)
    requires s'.tab == s.tab
    ensures TablesOf(s', d) == TablesOf(s, d)
  {
  }

  lemma {:induction false} CutAll(leaf: map<Key, nat>, d: nat, hi: nat)
    requires hi <= SPAN && forall k :: k in leaf && k.dir == d ==> k.pn < hi
    ensures forall k :: k in Cut(leaf, d, 0, hi) <==> k in leaf && k.dir != d
    ensures forall k :: k in Cut(leaf, d, 0, hi) ==> Cut(leaf, d, 0, hi)[k] == leaf[k]
  {
    forall k: Key ensures (k in Cut(leaf, d, 0, hi) <==> k in leaf && k.dir != d)
      && (k in Cut(leaf, d, 0, hi) ==> Cut(leaf, d, 0, hi)[k] == leaf[k])
    {
      CutExactly(leaf, d, 0, hi, k);
    }
  }

  method FreeTables(m: Machine, d: nat, pt: nat)
    requires Inv(m.S()) && d in m.roots && m.roots[d] == pt && (forall k :: k in m.leaf ==> k.dir != d)
    modifies m`refs, m`free, m`cnt, m`role, m`roots, m`tab
    ensures Inv(m.S()) && m.leaf == old(m.leaf) && m.hold == old(m.hold) && m.zero == old(m.zero)
      && m.total == old(m.total)
    ensures m.roots == old(m.roots) - {d} && NoNewData(old(m.S()), m.S())
    ensures forall g :: g in TablesOf(old(m.S()), d) ==> g in m.free
  {
    hide Inv, Pages, Doomed, TablesOf;
    ghost var s0, x := m.S(), Node(d, 0, 0);
    RootIs(s0, d);
    OrphanedKeeps(s0, d, Orphaned(s0, d));
    m.roots := m.roots - {d};
    m.tab := Orphaned(s0, d).tab;
    assert m.S() == Orphaned(s0, d);
    ghost var s1 := m.S();
    if pt != 0 {
      RootDoomed(s0, d, s1);
      AllBelowRoot(s0, d);
      FreeBelow(m, s0, x, pt, 0);
      TableFrames(s0, d);
      InQueue(m.S());
    } else {
      NoTables(s0, d);
    }
  }

  lemma {:induction false} TableFrames(s: St, d: nat)
    requires Inv(s)
    ensures forall g :: g in TablesOf(s, d) ==> g < |s.role|
  {
    hide QueueOk, ParentsOk, EntriesOk, LeavesOk, CountsOk, ZeroOk;
  }

  lemma {:induction false} InQueue(s: St)
    requires Inv(s)
    ensures forall g :: 0 <= g < |s.role| && s.role[g] == FreePage ==> g in s.free
  {
    hide NodesOk, ParentsOk, EntriesOk, LeavesOk, CountsOk, ZeroOk;
  }

  // ---------- any run ----------

  datatype Op =
    | Create(d: nat)                               // init_pgdir
    | Grow(d: nat, size: int)                      // sbrk
    | Touch(d: nat, addr: nat, write: bool)        // a page fault
    | Share(d: nat, va: nat, flags: nat)           // vmmap of the zero page
    | Destroy(d: nat)                              // free_pgdir

  /** Between operations: the counts are exact, and mappings lie in heaps of 48 bits. */
  ghost predicate Settled(m: Machine)
    reads m
  {
    && Inv(m.S()) && Exact(m.S()) && m.HeapsOk() && m.heapEnd.Keys == m.roots.Keys
    && (forall d :: d in m.heapEnd ==> m.heapEnd[d] <= PAGE_SIZE * SPAN)
    && (forall k :: k in m.leaf ==> k.dir in m.heapEnd && k.pn < m.heapEnd[k.dir] / PAGE_SIZE)
  }

  /** A page directory with a root table, an empty heap and no mapping; the others are as they were. */
  ghost predicate Created(s: St, ends: map<nat, nat>, d: nat, s': St, ends': map<nat, nat>) {
    && ends' == ends[d := 0] && s'.leaf == s.leaf && (forall k :: k in s'.leaf ==> k.dir != d)
    && s'.roots.Keys == s.roots.Keys + {d} && s'.roots[d] != 0
  }

  /** The heap's end moves by whole pages; what is behind a smaller end is given back. */
  ghost predicate Moved(s: St, ends: map<nat, nat>, d: nat, size: int, s': St, ends': map<nat, nat>) {
    && d in ends && s'.roots == s.roots
    && (size % PAGE_SIZE != 0 ==> ends' == ends && s'.leaf == s.leaf)
    && (size % PAGE_SIZE == 0 && ends[d] + size >= 0 ==>
          && ends' == ends[d := ends[d] + size]
          && s'.leaf == Without(s.leaf, d, (ends[d] + size) / PAGE_SIZE, ends[d] / PAGE_SIZE))
  }

  /** init_pgdir. */
  method InitPgdir(m: Machine, d: nat) returns (ok: bool)
    requires Settled(m) && d !in m.roots
    modifies m
    ensures ok ==> Settled(m) && m.zero == old(m.zero) && m.leaf == old(m.leaf)
    ensures ok <==> old(m.free) != []
    ensures !ok ==> m.free == []
    ensures ok ==> Created(old(m.S()), old(m.heapEnd), d, m.S(), m.heapEnd)
  {
    hide Inv, Exact, Walked;
    ghost var s := m.S();
    m.roots := m.roots[d := 0];
    m.heapEnd := m.heapEnd[d := 0];
    NewDir(s, d, m.S());
    ghost var s1 := m.S();
    var f;
    NoRoot(s1, d);
    ok, f := m.Root(d, true);
    if ok {
      StillExact(s1, m.S());
      RootIs(m.S(), d);
    }
  }

  lemma {:induction false} NoRoot(s: St, d: nat)
    requires Inv(s) && d in s.roots && s.roots[d] == 0
    ensures Node(d, 0, 0) !in s.tab
  {
    RootIs(s, d);
  }

  lemma {:induction false} NewDir(s: St, d: nat, s': St)
    requires Inv(s) && d !in s.roots && s' == s.(roots := s.roots[d := 0])
    ensures Inv(s') && (Exact(s) ==> Exact(s'))
  {
    hide QueueOk, EntriesOk, LeavesOk, CountsOk, ZeroOk, Exact;
    assert ParentsOk(s'.roots, s'.tab);
    QueueSame(s, s');
    UnmapEntries(s, 0, s');
    RestSame(s, s');
  }

  lemma {:induction false} RestSame(s: St, s': St)
    requires Shape(s) && LeavesOk(s) && CountsOk(s) && ZeroOk(s) && s' == s.(roots := s'.roots)
    ensures LeavesOk(s') && CountsOk(s') && ZeroOk(s') && (Exact(s) ==> Exact(s'))
  {
  }

  lemma StillExact(s: St, s': St)
    requires Exact(s) && Walked(s, s')
    ensures Exact(s') && s'.roots.Keys == s.roots.Keys && s'.leaf == s.leaf
  {
  }

  lemma {:induction false} FewerExact(s: St, s': St)
    requires Inv(s) && Exact(s) && NoNewData(s, s') && s'.hold == s.hold && s'.zero == s.zero
    ensures Exact(s')
  {
  }

  method DoGrow(m: Machine, d: nat, size: int)
    requires Settled(m) && d in m.heapEnd && 0 <= m.heapEnd[d] + size <= PAGE_SIZE * SPAN
    modifies m
    ensures Settled(m) && m.zero == old(m.zero)
    ensures Moved(old(m.S()), old(m.heapEnd), d, size, m.S(), m.heapEnd)
  {
    hide Inv, Exact, Without, NoneMapped;
    ghost var s := m.S();
    var end := m.heapEnd[d];
    var r := m.Sbrk(d, size);
    FewerExact(s, m.S());
    if size % PAGE_SIZE == 0 && size < 0 {
      forall k | k in m.leaf ensures k.dir in m.heapEnd && k.pn < m.heapEnd[k.dir] / PAGE_SIZE {
        CutExactly(s.leaf, d, (end + size) / PAGE_SIZE, end / PAGE_SIZE, k);
      }
    } else {
      assert m.leaf == s.leaf;
      assert end / PAGE_SIZE <= m.heapEnd[d] / PAGE_SIZE;
      if size % PAGE_SIZE == 0 { WithoutNone(s.leaf, d, (end + size) / PAGE_SIZE, end / PAGE_SIZE); }
    }
  }

  /** A fault was handled with some page. */
  ghost predicate IsServed(s: St, s': St, k: Key, write: bool) {
    exists page: nat :: Served(s, s', k, page, write)
  }

  method DoTouch(m: Machine, d: nat, addr: nat, write: bool) returns (ok: bool)
    requires Settled(m) && d in m.heapEnd
    requires Key(d, PageOf(addr)) !in m.leaf || Shared(m.S(), Key(d, PageOf(addr)), write)
    modifies m
    ensures ok ==> Settled(m) && m.zero == old(m.zero)
    ensures ok <==> addr < old(m.heapEnd)[d] && |old(m.free)| >= 1 + Missing(old(m.S()), d, PageOf(addr))
    ensures !ok ==> m.free == [] || addr >= old(m.heapEnd)[d]
    ensures m.heapEnd == old(m.heapEnd)
    ensures ok ==> m.roots.Keys == old(m.roots).Keys && IsServed(old(m.S()), m.S(), Key(d, PageOf(addr)), write)
  {
    hide Inv, Exact, Shared, Contents, UserPage, Missing;
    ghost var heap := m.heapEnd[d];
    var r := m.PageFault(d, addr, write);
    ok := r.Handled?;
    if ok { InHeap(addr, heap); }
  }

  lemma InHeap(addr: nat, end: nat)
    requires addr < end <= PAGE_SIZE * SPAN && end % PAGE_SIZE == 0
    ensures PageOf(addr) < end / PAGE_SIZE
  {
    var q := addr / PAGE_SIZE;
    assert q < SPAN;
    assert PageOf(addr) == q;
  }

  /** The zero page is mapped at `va`, and nothing else differently. */
  ghost predicate IsShared(s: St, ends: map<nat, nat>, d: nat, va: nat, flags: nat, s': St, ends': map<nat, nat>) {
    && ends' == ends && s'.roots.Keys == s.roots.Keys && s.zero < SPAN && Frame(flags) == 0
    && s'.leaf == s.leaf[Key(d, PageOf(va)) := Descriptor(s.zero, flags)]
  }

  method DoShare(m: Machine, d: nat, va: nat, flags: nat) returns (ok: bool)
    requires Settled(m) && d in m.heapEnd && va < m.heapEnd[d] && Frame(flags) == 0 && Key(d, PageOf(va)) !in m.leaf
    modifies m
    ensures ok ==> Settled(m) && m.zero == old(m.zero)
    ensures ok <==> |old(m.free)| >= Missing(old(m.S()), d, PageOf(va))
    ensures !ok ==> m.free == []
    ensures ok ==> IsShared(old(m.S()), old(m.heapEnd), d, va, flags, m.S(), m.heapEnd)
  {
    hide Inv, Exact, Walk, Descriptor, PageOf, Frame, Missing;
    ZeroIsData(m.S());
    InHeap(va, m.heapEnd[d]);
    ok := m.Vmmap(d, va, m.zero, flags);
  }

  lemma {:induction false} ZeroIsData(s: St)
    requires Inv(s)
    ensures s.zero < |s.role| && s.role[s.zero] == DataPage && s.zero < |s.pages| && s.pages[s.zero] == ZeroPage()
  {
    hide QueueOk, NodesOk, ParentsOk, EntriesOk, LeavesOk, CountsOk;
  }

  /** The directory, its heap and its mappings are gone, its tables are free again. */
  ghost predicate Destroyed(s: St, ends: map<nat, nat>, d: nat, s': St, ends': map<nat, nat>) {
    && ends' == ends - {d} && s'.roots == s.roots - {d}
    && (forall k :: k in s'.leaf <==> k in s.leaf && k.dir != d)
    && (forall k :: k in s'.leaf ==> s'.leaf[k] == s.leaf[k])
    && (forall g :: g in TablesOf(s, d) ==> g in s'.free)
  }

  method DoDestroy(m: Machine, d: nat)
    requires Settled(m) && d in m.heapEnd
    modifies m
    ensures Settled(m) && m.zero == old(m.zero)
    ensures Destroyed(old(m.S()), old(m.heapEnd), d, m.S(), m.heapEnd)
  {
    hide Inv, Exact, TablesOf;
    ghost var s := m.S();
    FreePgdir(m, d);
    FewerExact(s, m.S());
  }

  /** What the hardware finds for an address. */
  method Probe(m: Machine, d: nat, va: nat) returns (e: nat)
    requires Inv(m.S()) && d in m.roots
    ensures e == LeafOf(m.S(), Key(d, PageOf(va)))
    ensures e == 0 <==> Key(d, PageOf(va)) !in m.leaf
  {
    WalkIsFlatMap(m.S(), d, va);
    e := Walk(m.pages, m.roots[d], va, 0);
    hide QueueOk, NodesOk, ParentsOk, EntriesOk, CountsOk, ZeroOk, Walk;
  }

  /** The fault at `addr` is one that the kernel's own rules allow: the page is not mapped, or
      it is read-only and written. */
  ghost predicate Proper(s: St, d: nat, addr: nat, write: bool) {
    Key(d, PageOf(addr)) !in s.leaf || Shared(s, Key(d, PageOf(addr)), write)
  }

  /** The operations that stop the kernel: too few pages are left for the tables on the way
      and the page itself, or the fault is outside the heap. */
  ghost predicate Refuses(s: St, heapEnd: map<nat, nat>, op: Op) {
    match op
    case Create(d) => d !in s.roots && s.free == []
    case Touch(d, addr, write) =>
      d in heapEnd && Proper(s, d, addr, write) && (addr >= heapEnd[d] || |s.free| < 1 + Missing(s, d, PageOf(addr)))
    case Share(d, va, flags) =>
      && d in heapEnd && va < heapEnd[d] && Frame(flags) == 0 && Key(d, PageOf(va)) !in s.leaf
      && |s.free| < Missing(s, d, PageOf(va))
    case _ => false
  }

  /** A fault behind the end of the heap. */
  ghost predicate Outside(heapEnd: map<nat, nat>, op: Op) {
    op.Touch? && op.d in heapEnd && op.addr >= heapEnd[op.d]
  }

  /** What an operation does; those that the kernel's own rules exclude do nothing: a fault on
      a page that is mapped and needs no copy, a mapping over another one or outside the heap,
      a heap of less than nothing or more than 48 bits. */
  ghost predicate Means(s: St, ends: map<nat, nat>, op: Op, s': St, ends': map<nat, nat>) {
    match op
    case Create(d) => if d !in s.roots then Created(s, ends, d, s', ends') else Nothing(s, ends, s', ends')
    case Grow(d, size) =>
      if d in ends && 0 <= ends[d] + size <= PAGE_SIZE * SPAN then Moved(s, ends, d, size, s', ends')
      else Nothing(s, ends, s', ends')
    case Touch(d, addr, write) =>
      if d in ends && Proper(s, d, addr, write)
      then ends' == ends && s'.roots.Keys == s.roots.Keys && IsServed(s, s', Key(d, PageOf(addr)), write)
      else Nothing(s, ends, s', ends')
    case Share(d, va, flags) =>
      if d in ends && va < ends[d] && Frame(flags) == 0 && Key(d, PageOf(va)) !in s.leaf
      then IsShared(s, ends, d, va, flags, s', ends')
      else Nothing(s, ends, s', ends')
    case Destroy(d) => if d in ends then Destroyed(s, ends, d, s', ends') else Nothing(s, ends, s', ends')
  }

  ghost predicate Nothing(s: St, ends: map<nat, nat>, s': St, ends': map<nat, nat>) {
    s' == s && ends' == ends
  }

  /** One operation. */
  method Step(m: Machine, op: Op) returns (ok: bool)
    requires Settled(m)
    modifies m
    ensures ok ==> Settled(m) && m.zero == old(m.zero)
    ensures ok <==> !Refuses(old(m.S()), old(m.heapEnd), op)
    ensures !ok ==> m.free == [] || Outside(old(m.heapEnd), op)
    ensures ok ==> Means(old(m.S()), old(m.heapEnd), op, m.S(), m.heapEnd)
  {
    hide Inv, Exact, LeafOf, PageOf, Frame, ReadOnly, Missing, Proper, Created, Moved, IsServed, IsShared, Destroyed;
    ok := true;
    match op
    case Create(d) =>
      if d !in m.roots { ok := InitPgdir(m, d); }
    case Grow(d, size) =>
      if d in m.heapEnd && 0 <= m.heapEnd[d] + size <= PAGE_SIZE * SPAN { DoGrow(m, d, size); }
    case Touch(d, addr, write) =>
      ok := TryTouch(m, d, addr, write);
    case Share(d, va, flags) =>
      ok := TryShare(m, d, va, flags);
    case Destroy(d) =>
      if d in m.heapEnd { DoDestroy(m, d); }
  }

  method TryTouch(m: Machine, d: nat, addr: nat, write: bool) returns (ok: bool)
    requires Settled(m)
    modifies m
    ensures ok ==> Settled(m) && m.zero == old(m.zero)
    ensures ok <==> !Refuses(old(m.S()), old(m.heapEnd), Touch(d, addr, write))
    ensures !ok ==> m.free == [] || Outside(old(m.heapEnd), Touch(d, addr, write))
    ensures ok ==> Means(old(m.S()), old(m.heapEnd), Touch(d, addr, write), m.S(), m.heapEnd)
  {
    hide Inv, Exact, PageOf, ReadOnly, Missing, IsServed;
    if d !in m.heapEnd { return true; }
    var e := Probe(m, d, addr);
    if e != 0 && !(ReadOnly(e) && write) { return true; }
    ok := DoTouch(m, d, addr, write);
  }

  method TryShare(m: Machine, d: nat, va: nat, flags: nat) returns (ok: bool)
    requires Settled(m)
    modifies m
    ensures ok ==> Settled(m) && m.zero == old(m.zero)
    ensures ok <==> !Refuses(old(m.S()), old(m.heapEnd), Share(d, va, flags))
    ensures !ok ==> m.free == []
    ensures ok ==> Means(old(m.S()), old(m.heapEnd), Share(d, va, flags), m.S(), m.heapEnd)
  {
    hide Inv, Exact, LeafOf, PageOf, Frame, Missing, IsShared;
    if d !in m.heapEnd || va >= m.heapEnd[d] || Frame(flags) != 0 { return true; }
    var e := Probe(m, d, va);
    if e != 0 { return true; }
    ok := DoShare(m, d, va, flags);
  }

  /** Page reference counts over any run: the count of every data page is the number of its
      mappings, plus one for the zero page, which is never freed and holds zeros; the pages
      allocated and the pages in the queue always make up all pages; a page is in the queue
      at most once. A run ends early exactly where an operation stops the kernel: no page is
      left then, or the fault is outside the heap. `n` operations are completed, and
      `before` and `ends` are the state and the heap ends that the last one met. */
  method Run(m: Machine, ops: seq<Op>) returns (ok: bool, n: nat, ghost before: St, ghost ends: map<nat, nat>)
    requires Settled(m)
    modifies m
    ensures ok ==> n == |ops| && Settled(m) && m.zero == old(m.zero) && CountedExactly(m.S())
    ensures !ok ==> n < |ops| && Refuses(before, ends, ops[n]) && (m.free == [] || Outside(ends, ops[n]))
    ensures n == 0 ==> before == old(m.S()) && ends == old(m.heapEnd)
  {
    hide Settled, Refuses, Outside;
    ok, n, before, ends := true, 0, m.S(), m.heapEnd;
    while n < |ops|
      invariant 0 <= n <= |ops| && m.zero == old(m.zero) && Settled(m)
      invariant n == 0 ==> before == m.S() == old(m.S()) && ends == m.heapEnd == old(m.heapEnd)
    {
      before, ends := m.S(), m.heapEnd;
      ok := Step(m, ops[n]);
      if !ok { return; }
      n := n + 1;
    }
    SettledMeans(m);
  }

  ghost predicate CountedExactly(s: St) {
    && s.cnt + |s.free| == s.total && NoDup(s.free) && s.zero !in s.free
    && s.zero < |s.pages| && s.pages[s.zero] == ZeroPage()
    && |s.refs| == |s.role|
    && (forall f :: 0 <= f < |s.role| && s.role[f] == DataPage ==>
          f !in s.free && s.refs[f] == Count(s.leaf, f) + if f == s.zero then 1 else 0)
    && (forall k :: k in s.leaf ==> Frame(s.leaf[k]) < |s.role| && s.role[Frame(s.leaf[k])] == DataPage)
  }

  lemma {:induction false} SettledMeans(m: Machine)
    requires Settled(m)
    ensures CountedExactly(m.S())
  {
    hide NodesOk, ParentsOk, EntriesOk, Count;
  }
}
