/** Pages, their reference counts, and four-level page tables as trees of pages
    (src/kernel/mem.c, src/kernel/pt.c, src/aarch64/mmu.h). */
module PageMap {

  const PAGE_SIZE := 4096
  const N_PTE := 512
  /** Pages of a 48-bit address space. */
  const SPAN := 0x10_0000_0000

  // ---------- descriptors: bits 12 to 47 are a page number, the others flags ----------

  const PTE_TABLE := 0x3
  const PTE_RO := 0x80

  /** P2N(PTE_ADDRESS(e)) */
  function Frame(e: nat): (f: nat) {
    e / PAGE_SIZE % SPAN
  }

  /** PTE_FLAGS(e) */
  function Flags(e: nat): (r: nat) {
    e % PAGE_SIZE + e / (PAGE_SIZE * SPAN) * (PAGE_SIZE * SPAN)
  }

  /** e | PTE_TABLE: the two lowest bits are set. */
  function AsTable(e: nat): (r: nat)
    ensures r >= e
  {
    e - e % 4 + 3
  }

  /** e & PTE_VALID */
  predicate ValidBit(e: nat) { e % 2 == 1 }

  /** e & PTE_RO */
  predicate ReadOnly(e: nat) { e / PTE_RO % 2 == 1 }

  /** K2P(page) | flags | PTE_TABLE, for flags outside the address bits. */
  function Descriptor(f: nat, flags: nat): (e: nat)
    requires f < SPAN && Frame(flags) == 0
    ensures Frame(e) == f && Flags(e) == AsTable(flags) && ValidBit(e) && e != 0
  {
    var e := f * PAGE_SIZE + AsTable(flags);
    DescriptorParts(f, flags, e);
    e
  }

  /** A number below `k` and a multiple of `k` do not mix. */
  lemma Parts(a: nat, k: nat, b: nat)
    requires b < k
    ensures (a * k + b) / k == a && (a * k + b) % k == b
  {
    var x := a * k + b;
    Unique(a, b, x / k, x % k, k);
  }

  lemma Unique(a: int, b: nat, q: int, r: nat, k: nat)
    requires b < k && r < k && a * k + b == q * k + r
    ensures a == q && b == r
  {
    var d := a - q;
    assert d * k == r - b;
    assert d >= 1 ==> d * k >= k;
    assert -d >= 1 ==> -d * k >= k;
  }

  lemma DescriptorParts(f: nat, flags: nat, e: nat)
    requires f < SPAN && Frame(flags) == 0 && e == f * PAGE_SIZE + AsTable(flags)
    ensures Frame(e) == f && Flags(e) == AsTable(flags) && ValidBit(e)
  {
    var top, low := flags / PAGE_SIZE, flags % PAGE_SIZE;
    var high := top / SPAN;
    assert top == high * SPAN;
    AsTableLow(flags, top, low);
    var low3, all := AsTable(low), AsTable(flags);
    hide AsTable;
    Whole(e, high, f, low3);
    Whole(all, high, 0, low3);
    assert all % 2 == 1;
    DivIs(e, f * 2048 + all / 2, 2, 1);
  }

  lemma DivIs(x: nat, k: nat, m: nat, r: nat)
    requires r < m && x == k * m + r
    ensures x / m == k && x % m == r
  {
    Parts(k, m, r);
  }

  lemma AsTableLow(e: nat, top: nat, low: nat)
    requires e == top * PAGE_SIZE + low && low < PAGE_SIZE
    ensures AsTable(e) == top * PAGE_SIZE + AsTable(low) && AsTable(low) < PAGE_SIZE && AsTable(e) % 2 == 1
  {
    var h, r := low / 4, low % 4;
    assert h <= 1023;
    assert e == (1024 * top + h) * 4 + r;
    DivIs(e, 1024 * top + h, 4, r);
    assert AsTable(e) == (2048 * top + 2 * h + 1) * 2 + 1;
    DivIs(AsTable(e), 2048 * top + 2 * h + 1, 2, 1);
  }

  lemma Whole(e: nat, high: nat, f: nat, low: nat)
    requires f < SPAN && low < PAGE_SIZE && e == (high * SPAN + f) * PAGE_SIZE + low
    ensures Frame(e) == f && Flags(e) == high * (PAGE_SIZE * SPAN) + low
  {
    DivIs(e, high * SPAN + f, PAGE_SIZE, low);
    DivIs(high * SPAN + f, high, SPAN, f);
    DivIs(e, high, PAGE_SIZE * SPAN, f * PAGE_SIZE + low);
  }

  // ---------- virtual addresses ----------

  /** The page of a virtual address; the walk does not look at bits 48 to 63. */
  function PageOf(va: nat): (pn: nat)
    ensures pn < SPAN
  {
    va / PAGE_SIZE % SPAN
  }

  /** (va >> (39 - 9 * level)) & 0x1FF */
  function Index(va: nat, level: nat): (i: nat)
    requires level <= 3
    ensures i < N_PTE
  {
    (match level
     case 0 => va / 0x80_0000_0000
     case 1 => va / 0x4000_0000
     case 2 => va / 0x20_0000
     case 3 => va / 0x1000) % N_PTE
  }

  /** The path to a table of some level: the page number without its last parts. */
  function Path(pn: nat, level: nat): (p: nat)
    requires level <= 4
  {
    match level
    case 0 => pn / 0x10_0000_0000
    case 1 => pn / 0x800_0000
    case 2 => pn / 0x4_0000
    case 3 => pn / 0x200
    case 4 => pn
  }

  lemma Mono(a: nat, b: nat, k: nat)
    requires a <= b
    ensures a * k <= b * k
  {
    assert b * k == a * k + (b - a) * k;
  }

  lemma Regroup(k: nat, b: nat, y: nat, a: nat)
    ensures (k * b + y) * a == k * (a * b) + y * a
  {
    assert (k * b + y) * a == k * b * a + y * a;
    assert k * b * a == k * (a * b);
  }

  /** A number with two parts, the larger of which has two parts. */
  lemma Nested(u: nat, z: nat, k: nat, y: nat, a: nat, b: nat)
    requires u == k * b + y && z < a && y < b
    ensures u * a + z == k * (a * b) + (y * a + z) && y * a + z < a * b
  {
    Regroup(k, b, y, a);
    Mono(y + 1, b, a);
    assert (y + 1) * a == y * a + a && b * a == a * b;
  }

  lemma DivFacts(x: nat, a: nat)
    requires a > 0
    ensures x == x / a * a + x % a && 0 <= x % a < a
  {
  }

  /** Dividing twice. */
  lemma DivDiv(x: nat, a: nat, b: nat)
    requires a > 0 && b > 0
    ensures a * b > 0 && x / (a * b) == x / a / b
  {
    var u, z := x / a, x % a;
    DivFacts(x, a);
    var k, y := u / b, u % b;
    DivFacts(u, b);
    Nested(u, z, k, y, a, b);
    DivIs(x, k, a * b, y * a + z);
  }

  /** A remainder can be divided by a divisor of its modulus. */
  lemma ModDiv(q: nat, a: nat, b: nat)
    requires a > 0 && b > 0
    ensures a * b > 0 && q % (a * b) / a == q / a % b && q % (a * b) % a == q % a
  {
    var u, z := q / a, q % a;
    DivFacts(q, a);
    var k, y := u / b, u % b;
    DivFacts(u, b);
    Nested(u, z, k, y, a, b);
    var r := y * a + z;
    DivIs(q, k, a * b, r);
    DivIs(r, y, a, z);
  }

  /** Going down one level appends one index to the path. */
  lemma {:induction false} PathStep(va: nat, level: nat)
    requires level <= 3
    ensures Path(PageOf(va), level + 1) == Path(PageOf(va), level) * N_PTE + Index(va, level)
    ensures Path(PageOf(va), 0) == 0 && Path(PageOf(va), 4) == PageOf(va)
  {
    var q := va / PAGE_SIZE;
    var pn := PageOf(va);
    var w := if level == 3 then 1 else if level == 2 then 0x200 else if level == 1 then 0x4_0000 else 0x800_0000;
    var b := if level == 3 then SPAN else if level == 2 then 0x800_0000 else if level == 1 then 0x4_0000 else 0x200;
    DivDiv(va, PAGE_SIZE, w);
    assert Index(va, level) == q / w % N_PTE;
    ModDiv(q, w, b);
    assert pn / w == q / w % b;
    assert b == N_PTE * (b / N_PTE);
    ModDiv(q / w, N_PTE, b / N_PTE);
    assert pn / w % N_PTE == Index(va, level);
    DivDiv(pn, w, N_PTE);
    assert Path(pn, level + 1) == pn / w && Path(pn, level) == pn / w / N_PTE;
  }

  // ---------- the state of memory ----------

  /** A table: level 0 is the root, `path` the indices on the way to it. */
  datatype Node = Node(dir: nat, level: nat, path: nat)

  /** A page of the address space of a page directory. */
  datatype Key = Key(dir: nat, pn: nat)

  datatype Role = Reserved | FreePage | TablePage | DataPage

  datatype St = St(
    pages: seq<seq<nat>>,    // the contents of every page, as 64-bit words
    refs: seq<int>,          // page_refs
    free: seq<nat>,          // the queue of usable pages
    cnt: int,                // alloc_page_cnt
    zero: nat,               // zero_page
    roots: map<nat, nat>,    // pgdir->pt of every page directory, 0 for NULL
    total: nat,              // pages that were put in the queue at boot
    role: seq<Role>,
    hold: seq<nat>,          // references that are not mappings
    tab: map<Node, nat>,     // the page of every table
    leaf: map<Key, nat>)     // the flat map: the descriptor of every mapped page

  function Child(x: Node, i: nat): (y: Node) {
    Node(x.dir, x.level + 1, x.path * N_PTE + i)
  }

  function LeafOf(s: St, k: Key): (e: nat) {
    if k in s.leaf then s.leaf[k] else 0
  }

  /** The number of mappings of page `f`. */
  ghost function Count(m: map<Key, nat>, f: nat): (n: nat) {
    |set k | k in m && Frame(m[k]) == f|
  }

  ghost predicate NoDup(q: seq<nat>) {
    forall i, j :: 0 <= i < j < |q| ==> q[i] != q[j]
  }

  ghost predicate Shape(s: St) {
    && 0 < |s.pages| == |s.refs| == |s.role| == |s.hold| <= SPAN
    && (forall f :: 0 <= f < |s.pages| ==> |s.pages[f]| == N_PTE)
    && s.role[0] == Reserved
  }

  /** Free pages are those in the queue, once each, and alloc_page_cnt counts the others. */
  ghost predicate QueueOk(s: St) {
    && NoDup(s.free)
    && (forall f :: f in s.free <==> 0 <= f < |s.role| && s.role[f] == FreePage)
    && s.cnt + |s.free| == s.total
  }

  /** A table has a page of its own. */
  ghost predicate NodesOk(s: St) {
    && (forall x :: x in s.tab ==>
          x.level <= 3 && x.dir in s.roots && s.tab[x] < |s.role| && s.role[s.tab[x]] == TablePage)
    && (forall x, y :: x in s.tab && y in s.tab && s.tab[x] == s.tab[y] ==> x == y)
  }

  /** The root of a page directory is pgdir->pt, every other table has its parent. */
  ghost predicate ParentsOk(roots: map<nat, nat>, tab: map<Node, nat>) {
    && (forall x :: x in tab && x.level == 0 ==> x.path == 0 && x.dir in roots && roots[x.dir] == tab[x])
    && (forall x {:trigger HasParent(tab, x)} :: x in tab ==> HasParent(tab, x))
    && (forall d :: d in roots && roots[d] != 0 ==> Node(d, 0, 0) in tab)
  }

  ghost predicate HasParent(tab: map<Node, nat>, x: Node) {
    x.level > 0 ==> Node(x.dir, x.level - 1, x.path / N_PTE) in tab
  }

  /** What entry `i` of table `x` has to be. */
  ghost function EntryOf(s: St, x: Node, i: nat): (e: nat) {
    if x.level == 3 then LeafOf(s, Key(x.dir, x.path * N_PTE + i))
    else if Child(x, i) in s.tab then s.tab[Child(x, i)] * PAGE_SIZE + PTE_TABLE
    else 0
  }

  /** Tables point to their children, the last ones hold the flat map. */
  ghost predicate EntriesOk(s: St) {
    forall x, i :: x in s.tab && 0 <= i < N_PTE && s.tab[x] < |s.pages| && |s.pages[s.tab[x]]| == N_PTE ==>
      s.pages[s.tab[x]][i] == EntryOf(s, x, i)
  }

  /** The flat map maps to data pages, and has tables. */
  ghost predicate LeavesOk(s: St) {
    forall k :: k in s.leaf ==>
      && k.pn < SPAN && Node(k.dir, 3, k.pn / N_PTE) in s.tab
      && ValidBit(s.leaf[k]) && Frame(s.leaf[k]) < |s.role| && s.role[Frame(s.leaf[k])] == DataPage
  }

  /** A data page's count is the number of its mappings plus the other references. */
  ghost predicate CountsOk(s: St)
    requires Shape(s)
  {
    && (forall f :: 0 <= f < |s.role| && s.role[f] == DataPage ==>
          s.refs[f] == Count(s.leaf, f) + s.hold[f] && s.refs[f] >= 1)
    && (forall f :: 0 <= f < |s.role| && s.role[f] == TablePage ==> s.refs[f] == 1)
  }

  /** The zero page is held for ever and holds zeros. */
  ghost predicate ZeroOk(s: St)
    requires Shape(s)
  {
    s.zero < |s.role| && s.role[s.zero] == DataPage && s.hold[s.zero] >= 1 && s.pages[s.zero] == ZeroPage()
  }

  function ZeroPage(): (p: seq<nat>)
    ensures |p| == N_PTE && forall i :: 0 <= i < N_PTE ==> p[i] == 0
  {
    seq(N_PTE, _ => 0)
  }

  ghost predicate Inv(s: St) {
    && Shape(s) && QueueOk(s) && NodesOk(s) && ParentsOk(s.roots, s.tab)
    && EntriesOk(s) && LeavesOk(s) && CountsOk(s) && ZeroOk(s)
  }

  // ---------- counting mappings ----------

  lemma {:induction false} CountAdd(m: map<Key, nat>, k: Key, e: nat, f: nat)
    requires k !in m
    ensures Count(m[k := e], f) == Count(m, f) + if Frame(e) == f then 1 else 0
  {
    var m' := m[k := e];
    var a, b := set j | j in m && Frame(m[j]) == f, set j | j in m' && Frame(m'[j]) == f;
    if Frame(e) == f { assert b == a + {k}; } else { assert b == a; }
  }

  lemma {:induction false} CountRemove(m: map<Key, nat>, k: Key, f: nat)
    requires k in m
    ensures Count(m, f) == Count(m - {k}, f) + if Frame(m[k]) == f then 1 else 0
  {
    var m' := m - {k};
    assert m == m'[k := m[k]];
    CountAdd(m', k, m[k], f);
  }

  lemma CountNone(m: map<Key, nat>, f: nat)
    requires forall k :: k in m ==> Frame(m[k]) != f
    ensures Count(m, f) == 0
  {
    assert (set k | k in m && Frame(m[k]) == f) == {};
  }

  // ---------- kalloc_page ----------

  function TakePage(s: St): (r: St)
    requires s.free != [] && s.free[0] < |s.pages| == |s.refs| == |s.role| == |s.hold|
  {
    var f := s.free[0];
    s.(free := s.free[1..], cnt := s.cnt + 1, pages := s.pages[f := ZeroPage()], refs := s.refs[f := 1],
       role := s.role[f := DataPage], hold := s.hold[f := 1])
  }

  /** Steps that leave tables and mapped pages alone keep the trees. */
  lemma {:induction false} TreeFrame(s: St, s': St)
    requires Shape(s) && NodesOk(s) && EntriesOk(s) && LeavesOk(s) && Shape(s') && |s'.pages| == |s.pages|
    requires s'.tab == s.tab && s'.roots == s.roots && s'.leaf == s.leaf
    requires forall f :: 0 <= f < |s.role| && s.role[f] == TablePage ==>
      s'.role[f] == TablePage && s'.pages[f] == s.pages[f]
    requires forall k :: k in s.leaf && Frame(s.leaf[k]) < |s.role| && s.role[Frame(s.leaf[k])] == DataPage ==>
      s'.role[Frame(s.leaf[k])] == DataPage
    ensures NodesOk(s') && EntriesOk(s') && LeavesOk(s')
  {
    assert forall x, i :: EntryOf(s', x, i) == EntryOf(s, x, i);
  }

  lemma {:induction false} TakeQueue(s: St, s': St)
    requires Shape(s) && QueueOk(s) && s.free != [] && s.free[0] < |s.pages| && s' == TakePage(s)
    ensures Shape(s') && QueueOk(s') && s.role[s.free[0]] == FreePage
  {
    var f := s.free[0];
    assert f in s.free;
    assert s.free == [f] + s'.free;
    assert forall g :: g in s'.free <==> g in s.free && g != f;
  }

  lemma {:induction false} TakeKeeps(s: St, s': St)
    requires Inv(s) && s.free != [] && s.free[0] < |s.pages| && s' == TakePage(s)
    ensures Inv(s') && Count(s'.leaf, s.free[0]) == 0 && s.role[s.free[0]] == FreePage
  {
    hide Count, ParentsOk, EntriesOk, NodesOk;
    TakeQueue(s, s');
    var f := s.free[0];
    assert forall k :: k in s.leaf ==> Frame(s.leaf[k]) != f;
    CountNone(s.leaf, f);
    hide QueueOk;
    TreeFrame(s, s');
  }

  // ---------- kfree_page ----------

  /** kfree_page on the counts and the queue. */
  function Dropped(s: St, f: nat): (r: St)
    requires f < |s.refs|
  {
    var s1 := s.(refs := s.refs[f := s.refs[f] - 1]);
    if s1.refs[f] == 0 && f != s.zero then s1.(cnt := s.cnt - 1, free := [f] + s.free) else s1
  }

  /** Giving up a reference that is not a mapping. */
  function Release(s: St, f: nat): (r: St)
    requires f < |s.refs| == |s.hold| == |s.role| && s.hold[f] > 0
  {
    var s1 := Dropped(s, f);
    s1.(hold := s.hold[f := s.hold[f] - 1],
        role := if s1.refs[f] == 0 && f != s.zero then s.role[f := FreePage] else s.role)
  }

  lemma {:induction false} PutQueue(s: St, s': St, f: nat)
    requires Shape(s) && QueueOk(s) && f < |s.role| && s.role[f] != FreePage && s.role[f] != Reserved
    requires s'.free == [f] + s.free && s'.cnt == s.cnt - 1 && s'.role == s.role[f := FreePage] && s'.total == s.total
    ensures QueueOk(s')
  {
    assert forall i, j :: 0 <= i < j < |s'.free| ==> s'.free[i] != s'.free[j] by {
      forall i, j | 0 <= i < j < |s'.free| ensures s'.free[i] != s'.free[j] {
        assert s'.free[j] == s.free[j - 1] && s'.free[j] in s.free;
      }
    }
    assert forall g :: g in s'.free <==> g == f || g in s.free;
  }

  lemma {:induction false} ReleaseKeeps(s: St, f: nat, s': St)
    requires Inv(s) && f < |s.refs| && s.role[f] == DataPage && s.hold[f] > 0 && s' == Release(s, f)
    requires f == s.zero ==> s.hold[f] > 1
    ensures Inv(s')
  {
    hide Count, ParentsOk, EntriesOk, NodesOk;
    var gone := s.refs[f] == 1 && f != s.zero;
    if gone {
      PutQueue(s, s', f);
      NoMapping(s, f);
    }
    assert QueueOk(s');
    hide QueueOk;
    TreeFrame(s, s');
  }

  lemma {:induction false} NoMapping(s: St, f: nat)
    requires Count(s.leaf, f) == 0
    ensures forall k :: k in s.leaf ==> Frame(s.leaf[k]) != f
  {
    var a := set k | k in s.leaf && Frame(s.leaf[k]) == f;
    assert a == {};
    forall k | k in s.leaf ensures Frame(s.leaf[k]) != f {
      assert k !in a;
    }
  }

  // ---------- new tables ----------

  /** A page fresh from kalloc_page. */
  ghost predicate FreshPage(s: St, g: nat) {
    && 0 < g < |s.role| == |s.hold| == |s.pages| == |s.refs|
    && s.role[g] == DataPage && s.hold[g] == 1 && s.refs[g] == 1 && Count(s.leaf, g) == 0
    && s.pages[g] == ZeroPage() && g != s.zero
  }

  /** One word of a page is written. */
  function SetWord(s: St, f: nat, i: nat, e: nat): (r: St)
    requires f < |s.pages| && i < |s.pages[f]|
  {
    var words: seq<nat> := s.pages[f];
    s.(pages := s.pages[f := words[i := e]])
  }

  /** Fresh page `g` becomes table `x`. */
  function AsTablePage(s: St, x: Node, g: nat): (r: St)
    requires g < |s.role| == |s.hold|
  {
    s.(role := s.role[g := TablePage], hold := s.hold[g := 0], tab := s.tab[x := g])
  }

  lemma ChildUnique(x: Node, i: nat, y: Node, j: nat)
    requires i < N_PTE && j < N_PTE && Child(x, i) == Child(y, j)
    ensures x == y && i == j
  {
    Unique(x.path, i, y.path, j, N_PTE);
  }

  /** A table that is not there has no children and no leaves. */
  lemma {:induction false} NothingBelow(s: St, x: Node, i: nat)
    requires ParentsOk(s.roots, s.tab) && LeavesOk(s) && x !in s.tab && i < N_PTE
    ensures EntryOf(s, x, i) == 0
  {
    Parts(x.path, N_PTE, i);
    assert Child(x, i) in s.tab ==> HasParent(s.tab, Child(x, i));
  }

  lemma {:induction false} TableEntries(s: St, x: Node, i: nat, g: nat, s': St)
    requires Shape(s) && NodesOk(s) && ParentsOk(s.roots, s.tab) && EntriesOk(s) && LeavesOk(s) && FreshPage(s, g)
    requires x in s.tab && x.level < 3 && i < N_PTE && Child(x, i) !in s.tab
    requires s' == AsTablePage(SetWord(s, s.tab[x], i, g * PAGE_SIZE + PTE_TABLE), Child(x, i), g)
    ensures EntriesOk(s')
  {
    forall y, j | y in s'.tab && 0 <= j < N_PTE ensures s'.pages[s'.tab[y]][j] == EntryOf(s', y, j) {
      TableEntry(s, x, i, g, s', y, j);
    }
  }

  lemma {:induction false} TableEntry(s: St, x: Node, i: nat, g: nat, s': St, y: Node, j: nat)
    requires Shape(s) && NodesOk(s) && ParentsOk(s.roots, s.tab) && EntriesOk(s) && LeavesOk(s) && FreshPage(s, g)
    requires x in s.tab && x.level < 3 && i < N_PTE && Child(x, i) !in s.tab
    requires s' == AsTablePage(SetWord(s, s.tab[x], i, g * PAGE_SIZE + PTE_TABLE), Child(x, i), g)
    requires y in s'.tab && j < N_PTE
    ensures s'.tab[y] < |s'.pages| && |s'.pages[s'.tab[y]]| == N_PTE
    ensures s'.pages[s'.tab[y]][j] == EntryOf(s', y, j)
  {
    hide Count;
    var c := Child(x, i);
    assert LeafOf(s', Key(y.dir, y.path * N_PTE + j)) == LeafOf(s, Key(y.dir, y.path * N_PTE + j));
    if y == c {
      NothingBelow(s, c, j);
      assert Child(c, j) != c;
      assert s'.pages[g] == ZeroPage();
    } else {
      assert s.pages[s.tab[y]][j] == EntryOf(s, y, j);
      if Child(y, j) == c { ChildUnique(y, j, x, i); }
      hide EntriesOk, LeavesOk, ParentsOk;
      if y == x {
        assert j != i ==> Child(y, j) != c;
      } else {
        assert s.tab[y] != s.tab[x];
      }
    }
  }

  /** Page `g` takes on the role of table `x`; at most one table's words change. */
  ghost predicate Promoted(s: St, x: Node, g: nat, s': St) {
    && FreshPage(s, g) && x !in s.tab && x.level <= 3 && x.dir in s'.roots
    && s'.role == s.role[g := TablePage] && s'.hold == s.hold[g := 0] && s'.tab == s.tab[x := g]
    && s'.refs == s.refs && s'.free == s.free && s'.cnt == s.cnt && s'.total == s.total && s'.zero == s.zero
    && s'.leaf == s.leaf
    && (forall d :: d in s.roots ==> d in s'.roots)
    && |s'.pages| == |s.pages|
    && (forall f :: 0 <= f < |s.pages| && |s.pages[f]| == N_PTE ==> |s'.pages[f]| == N_PTE)
    && (forall f :: 0 <= f < |s.pages| && s.role[f] != TablePage ==> s'.pages[f] == s.pages[f])
  }

  lemma {:induction false} PromotedQueue(s: St, x: Node, g: nat, s': St)
    requires Shape(s) && QueueOk(s) && Promoted(s, x, g, s')
    ensures Shape(s') && QueueOk(s')
  {
    hide Count;
  }

  lemma PromotedNodes(s: St, x: Node, g: nat, s': St)
    requires NodesOk(s) && Promoted(s, x, g, s')
    ensures NodesOk(s')
  {
    hide Count;
  }

  lemma {:induction false} PromotedCounts(s: St, x: Node, g: nat, s': St)
    requires Shape(s) && Shape(s') && LeavesOk(s) && CountsOk(s) && ZeroOk(s) && Promoted(s, x, g, s')
    ensures LeavesOk(s') && CountsOk(s') && ZeroOk(s')
  {
    NoMapping(s, g);
    hide Count;
  }

  lemma {:induction false} PromotedKeeps(s: St, x: Node, g: nat, s': St)
    requires Inv(s) && Promoted(s, x, g, s')
    ensures Shape(s') && QueueOk(s') && NodesOk(s') && LeavesOk(s') && CountsOk(s') && ZeroOk(s')
  {
    hide QueueOk, NodesOk, LeavesOk, CountsOk, ZeroOk, Promoted, ParentsOk, EntriesOk;
    PromotedQueue(s, x, g, s');
    PromotedNodes(s, x, g, s');
    PromotedCounts(s, x, g, s');
  }

  lemma {:induction false} TableKeeps(s: St, x: Node, i: nat, g: nat, s': St)
    requires Inv(s) && FreshPage(s, g) && x in s.tab && x.level < 3 && i < N_PTE && Child(x, i) !in s.tab
    requires s' == AsTablePage(SetWord(s, s.tab[x], i, g * PAGE_SIZE + PTE_TABLE), Child(x, i), g)
    ensures Inv(s')
  {
    hide Count, QueueOk, CountsOk, LeavesOk, EntriesOk, ParentsOk, ZeroOk;
    TableEntries(s, x, i, g, s');
    TableParents(s, x, i, g);
    assert Promoted(s, Child(x, i), g, s');
    hide NodesOk;
    PromotedKeeps(s, Child(x, i), g, s');
  }

  lemma TableParents(s: St, x: Node, i: nat, g: nat)
    requires ParentsOk(s.roots, s.tab) && x in s.tab && i < N_PTE
    ensures ParentsOk(s.roots, s.tab[Child(x, i) := g])
  {
    Parts(x.path, N_PTE, i);
    var tab := s.tab[Child(x, i) := g];
    forall y | y in tab ensures HasParent(tab, y) {
      if y != Child(x, i) { assert HasParent(s.tab, y); }
    }
  }

  /** Fresh page `g` becomes the root of page directory `d`. */
  lemma {:induction false} RootKeeps(s: St, d: nat, g: nat, s': St)
    requires Inv(s) && FreshPage(s, g) && d in s.roots && s.roots[d] == 0
    requires s' == AsTablePage(s.(roots := s.roots[d := g]), Node(d, 0, 0), g)
    ensures Inv(s')
  {
    hide Count, QueueOk, CountsOk, LeavesOk, EntriesOk, ZeroOk;
    var x := Node(d, 0, 0);
    assert x !in s.tab;
    hide NodesOk;
    RootParents(s.roots, s.tab, d, g);
    hide ParentsOk;
    RootEntries(s, x, g, s');
    assert Promoted(s, x, g, s');
    PromotedKeeps(s, x, g, s');
  }

  lemma RootParents(roots: map<nat, nat>, tab: map<Node, nat>, d: nat, g: nat)
    requires ParentsOk(roots, tab) && Node(d, 0, 0) !in tab && d in roots && roots[d] == 0
    ensures ParentsOk(roots[d := g], tab[Node(d, 0, 0) := g])
  {
    var tab' := tab[Node(d, 0, 0) := g];
    forall y | y in tab' ensures HasParent(tab', y) {
      if y != Node(d, 0, 0) { assert HasParent(tab, y); }
    }
  }

  lemma {:induction false} RootEntries(s: St, x: Node, g: nat, s': St)
    requires Shape(s) && NodesOk(s) && ParentsOk(s.roots, s.tab) && EntriesOk(s) && LeavesOk(s) && FreshPage(s, g)
    requires x !in s.tab && x.level == 0 && s'.pages == s.pages && s'.leaf == s.leaf && s'.tab == s.tab[x := g]
    ensures EntriesOk(s')
  {
    hide Count;
    forall y, j | y in s'.tab && 0 <= j < N_PTE && s'.tab[y] < |s'.pages| && |s'.pages[s'.tab[y]]| == N_PTE
      ensures s'.pages[s'.tab[y]][j] == EntryOf(s', y, j)
    {
      assert LeafOf(s', Key(y.dir, y.path * N_PTE + j)) == LeafOf(s, Key(y.dir, y.path * N_PTE + j));
      assert Child(y, j) != x;
      if y == x { NothingBelow(s, x, j); }
      else { assert s.pages[s.tab[y]][j] == EntryOf(s, y, j); }
    }
  }

  // ---------- leaves ----------

  /** The descriptor of a page is written, and the flat map with it. */
  function SetLeaf(s: St, k: Key, e: nat): (r: St)
    requires var x := Node(k.dir, 3, k.pn / N_PTE); x in s.tab && s.tab[x] < |s.pages| && |s.pages[s.tab[x]]| == N_PTE
  {
    SetWord(s, s.tab[Node(k.dir, 3, k.pn / N_PTE)], k.pn % N_PTE, e).(
      leaf := if e == 0 then s.leaf - {k} else s.leaf[k := e])
  }

  lemma {:induction false} SetLeafEntries(s: St, k: Key, e: nat, s': St)
    requires Shape(s) && NodesOk(s) && EntriesOk(s) && Node(k.dir, 3, k.pn / N_PTE) in s.tab && s' == SetLeaf(s, k, e)
    ensures EntriesOk(s')
  {
    var x := Node(k.dir, 3, k.pn / N_PTE);
    forall y, j | y in s'.tab && 0 <= j < N_PTE && s'.tab[y] < |s'.pages| && |s'.pages[s'.tab[y]]| == N_PTE
      ensures s'.pages[s'.tab[y]][j] == EntryOf(s', y, j)
    {
      assert s.pages[s.tab[y]][j] == EntryOf(s, y, j);
      var k' := Key(y.dir, y.path * N_PTE + j);
      assert k.pn == k.pn / N_PTE * N_PTE + k.pn % N_PTE;
      if y.level == 3 && k' == k { Unique(y.path, j, k.pn / N_PTE, k.pn % N_PTE, N_PTE); }
      assert LeafOf(s', k') == if k' == k then e else LeafOf(s, k');
      if y == x && j == k.pn % N_PTE { assert k' == k; }
    }
  }

  /** vmmap on a page that is not mapped. */
  lemma {:induction false} MapKeeps(s: St, k: Key, f: nat, e: nat, s1: St, s': St)
    requires Inv(s) && k !in s.leaf && k.pn < SPAN && Node(k.dir, 3, k.pn / N_PTE) in s.tab
    requires e != 0 && ValidBit(e) && Frame(e) == f < |s.role| && s.role[f] == DataPage
    requires s1 == SetLeaf(s, k, e) && s' == s1.(refs := s.refs[f := s.refs[f] + 1])
    ensures Inv(s')
  {
    hide ParentsOk, Count;
    SetLeafEntries(s, k, e, s1);
    assert EntriesOk(s') by { assert forall x, i :: EntryOf(s', x, i) == EntryOf(s1, x, i); }
    hide EntriesOk;
    assert Shape(s') && QueueOk(s') && ZeroOk(s');
    hide QueueOk;
    forall g | 0 <= g < |s.role| ensures Count(s'.leaf, g) == Count(s.leaf, g) + if g == f then 1 else 0 {
      CountAdd(s.leaf, k, e, g);
    }
    assert CountsOk(s');
    hide CountsOk;
  }

  /** kfree_page on the page of a mapping whose descriptor is cleared. */
  function Unmap(s: St, k: Key): (r: St)
    requires k in s.leaf && Frame(s.leaf[k]) < |s.refs| == |s.role|
    requires var x := Node(k.dir, 3, k.pn / N_PTE); x in s.tab && s.tab[x] < |s.pages| && |s.pages[s.tab[x]]| == N_PTE
  {
    var f := Frame(s.leaf[k]);
    var s1 := Dropped(SetLeaf(s, k, 0), f);
    s1.(role := if s1.refs[f] == 0 && f != s.zero then s.role[f := FreePage] else s.role)
  }

  lemma {:induction false} UnmapKeeps(s: St, k: Key, s1: St, s': St)
    requires Inv(s) && k in s.leaf && Frame(s.leaf[k]) < |s.refs| && Node(k.dir, 3, k.pn / N_PTE) in s.tab
    requires s1 == SetLeaf(s, k, 0) && s' == Unmap(s, k)
    ensures Inv(s')
  {
    hide ParentsOk, Count, QueueOk, LeavesOk, CountsOk, ZeroOk;
    var f := Frame(s.leaf[k]);
    SetLeafEntries(s, k, 0, s1);
    UnmapEntries(s1, f, s');
    hide EntriesOk;
    assert Unmapped(s, k, f, s');
    hide Unmap, SetLeaf;
    forall g | 0 <= g < |s.role| ensures Count(s.leaf, g) == Count(s'.leaf, g) + if g == f then 1 else 0 {
      CountRemove(s.leaf, k, g);
    }
    UnmapRest(s, k, f, s');
  }

  lemma UnmapEntries(s: St, f: nat, s': St)
    requires EntriesOk(s) && s'.pages == s.pages && s'.leaf == s.leaf && s'.tab == s.tab
    ensures EntriesOk(s')
  {
    assert forall x, i :: EntryOf(s', x, i) == EntryOf(s, x, i);
  }

  /** What an unmapping of page `f` changes outside the tables. */
  ghost predicate Unmapped(s: St, k: Key, f: nat, s': St) {
    && f < |s.refs| == |s.role| && s'.refs == s.refs[f := s.refs[f] - 1] && s'.leaf == s.leaf - {k}
    && s'.tab == s.tab && s'.roots == s.roots && s'.hold == s.hold && s'.zero == s.zero && s'.total == s.total
    && |s'.pages| == |s.pages|
    && (forall g :: 0 <= g < |s.pages| && |s.pages[g]| == N_PTE ==> |s'.pages[g]| == N_PTE)
    && (forall g :: 0 <= g < |s.pages| && g < |s.role| && s.role[g] != TablePage ==> s'.pages[g] == s.pages[g])
    && (if s'.refs[f] == 0 && f != s.zero
        then s'.role == s.role[f := FreePage] && s'.free == [f] + s.free && s'.cnt == s.cnt - 1
        else s'.role == s.role && s'.free == s.free && s'.cnt == s.cnt)
  }

  lemma {:induction false} UnmapRest(s: St, k: Key, f: nat, s': St)
    requires Inv(s) && k in s.leaf && f == Frame(s.leaf[k]) < |s.refs| && Unmapped(s, k, f, s')
    requires forall g :: 0 <= g < |s.role| ==> Count(s.leaf, g) == Count(s'.leaf, g) + if g == f then 1 else 0
    ensures Shape(s') && QueueOk(s') && NodesOk(s') && LeavesOk(s') && CountsOk(s') && ZeroOk(s')
  {
    hide ParentsOk, Count, EntriesOk;
    assert s.role[f] == DataPage && s.refs[f] == Count(s.leaf, f) + s.hold[f];
    assert s'.refs[f] == Count(s'.leaf, f) + s.hold[f] && s.refs[f] >= 1;
    UnmapQueue(s, k, f, s');
    hide QueueOk;
    UnmapNodes(s, k, f, s');
    hide NodesOk, LeavesOk;
    assert ZeroOk(s');
  }

  lemma {:induction false} UnmapQueue(s: St, k: Key, f: nat, s': St)
    requires Shape(s) && QueueOk(s) && f < |s.refs| && s.role[f] == DataPage && Unmapped(s, k, f, s')
    ensures Shape(s') && QueueOk(s')
  {
    if s'.refs[f] == 0 && f != s.zero { PutQueue(s, s', f); }
  }

  lemma {:induction false} UnmapNodes(s: St, k: Key, f: nat, s': St)
    requires Shape(s) && NodesOk(s) && LeavesOk(s) && f < |s.refs| && s.role[f] == DataPage && Unmapped(s, k, f, s')
    requires s'.refs[f] == Count(s'.leaf, f) + s.hold[f]
    ensures NodesOk(s') && LeavesOk(s')
  {
    if s'.refs[f] == 0 { NoMapping(s', f); }
    hide Count;
  }

  // ---------- walks ----------

  /** New tables only: every mapping, and every page that was in use for data, is as before. */
  ghost predicate Walked(s: St, s': St) {
    && s'.leaf == s.leaf && s'.zero == s.zero && s'.total == s.total && s'.roots.Keys == s.roots.Keys
    && |s'.pages| == |s.pages| == |s.role| == |s'.role| == |s.refs| == |s'.refs| == |s.hold| == |s'.hold|
    && (forall x :: x in s.tab ==> x in s'.tab && s'.tab[x] == s.tab[x])
    && (forall f :: 0 <= f < |s.role| && s'.role[f] == DataPage ==> s.role[f] == DataPage)
    && (forall f :: 0 <= f < |s.role| && s.role[f] == DataPage ==>
          s'.role[f] == DataPage && s'.refs[f] == s.refs[f] && s'.hold[f] == s.hold[f] && s'.pages[f] == s.pages[f])
  }

  lemma WalkedTwice(s: St, s': St, s'': St)
    requires Walked(s, s') && Walked(s', s'')
    ensures Walked(s, s'')
  {
  }

  /** The pointer to a child table. */
  lemma {:induction false} EntryIsChild(s: St, x: Node, i: nat)
    requires Inv(s) && x in s.tab && x.level < 3 && i < N_PTE
    ensures s.tab[x] < |s.pages| && |s.pages[s.tab[x]]| == N_PTE
    ensures s.pages[s.tab[x]][i] == 0 <==> Child(x, i) !in s.tab
    ensures Child(x, i) in s.tab ==> Frame(s.pages[s.tab[x]][i]) == s.tab[Child(x, i)]
  {
    hide QueueOk, ParentsOk, LeavesOk, CountsOk, ZeroOk;
    assert s.pages[s.tab[x]][i] == EntryOf(s, x, i);
    hide EntriesOk;
    if Child(x, i) in s.tab {
      var g := s.tab[Child(x, i)];
      Parts(g, PAGE_SIZE, PTE_TABLE);
    }
  }

  lemma {:induction false} TableWalked(s: St, s1: St, x: Node, i: nat, g: nat, s': St)
    requires Inv(s) && x in s.tab && x.level < 3 && i < N_PTE && Child(x, i) !in s.tab
    requires s.free != [] && s.free[0] == g < |s.pages| && s1 == TakePage(s) && Inv(s1) && FreshPage(s1, g)
      && s.role[g] == FreePage
    requires s.tab[x] < |s1.pages| && i < |s1.pages[s.tab[x]]|
    requires s' == AsTablePage(SetWord(s1, s.tab[x], i, g * PAGE_SIZE + PTE_TABLE), Child(x, i), g)
    ensures Inv(s') && Walked(s, s') && Child(x, i) in s'.tab && s'.tab[Child(x, i)] == g
  {
    assert Walked(s, s') by { hide QueueOk, ParentsOk, LeavesOk, CountsOk, ZeroOk, EntriesOk, Count; }
    hide Walked, NodesOk, QueueOk, ParentsOk, LeavesOk, CountsOk, ZeroOk, EntriesOk, Count;
    TableKeeps(s1, x, i, g, s');
  }

  /** A new root. */
  lemma {:induction false} RootWalked(s: St, s1: St, d: nat, g: nat, s': St)
    requires Inv(s) && d in s.roots && s.roots[d] == 0
    requires s.free != [] && s.free[0] == g < |s.pages| && s1 == TakePage(s) && Inv(s1) && FreshPage(s1, g)
      && s.role[g] == FreePage
    requires s' == AsTablePage(s1.(roots := s1.roots[d := g]), Node(d, 0, 0), g)
    ensures Inv(s') && Walked(s, s') && Node(d, 0, 0) in s'.tab && s'.tab[Node(d, 0, 0)] == g
  {
    assert Node(d, 0, 0) !in s.tab by { hide QueueOk, LeavesOk, CountsOk, ZeroOk, EntriesOk, Count; }
    assert Walked(s, s') by { hide QueueOk, ParentsOk, LeavesOk, CountsOk, ZeroOk, EntriesOk, Count; }
    hide Walked, NodesOk, QueueOk, ParentsOk, LeavesOk, CountsOk, ZeroOk, EntriesOk, Count;
    RootKeeps(s1, d, g, s');
  }

  /** No table, no mapping below it. */
  lemma {:induction false} NoTableNoLeaf(s: St, x: Node, pn: nat)
    requires Inv(s) && x !in s.tab && x.level <= 3 && pn < SPAN && x.path == Path(pn, x.level)
    ensures Key(x.dir, pn) !in s.leaf && Node(x.dir, 3, pn / N_PTE) !in s.tab
  {
    hide QueueOk, CountsOk, ZeroOk, EntriesOk, Count, NodesOk;
    if Node(x.dir, 3, pn / N_PTE) in s.tab {
      Ancestors(s, x.dir, pn, 3, x.level);
    }
  }

  lemma {:induction false} Ancestors(s: St, d: nat, pn: nat, level: nat, up: nat)
    requires ParentsOk(s.roots, s.tab) && up <= level <= 3 && Node(d, level, Path(pn, level)) in s.tab
    ensures Node(d, up, Path(pn, up)) in s.tab
    decreases level
  {
    if up < level {
      assert HasParent(s.tab, Node(d, level, Path(pn, level)));
      DivDiv(pn, if level == 3 then 0x200 else if level == 2 then 0x4_0000 else 0x800_0000, N_PTE);
      Ancestors(s, d, pn, level - 1, up);
    }
  }

  // ---------- how many pages a walk needs ----------

  /** 1 if the table of `level` on the way to page `pn` is not there. */
  function Lacks(s: St, d: nat, pn: nat, level: nat): (n: nat)
    requires level <= 3
  {
    if Node(d, level, Path(pn, level)) in s.tab then 0 else 1
  }

  /** The number of tables on the way to page `pn` that have to be made. */
  function Missing(s: St, d: nat, pn: nat): (n: nat)
    ensures n <= 4
  {
    Lacks(s, d, pn, 0) + Lacks(s, d, pn, 1) + Lacks(s, d, pn, 2) + Lacks(s, d, pn, 3)
  }

  lemma {:induction false} MissingStep(s: St, s': St, d: nat, pn: nat, level: nat)
    requires level <= 3 && Node(d, level, Path(pn, level)) !in s.tab
    requires s'.tab.Keys == s.tab.Keys + {Node(d, level, Path(pn, level))}
    ensures Missing(s', d, pn) == Missing(s, d, pn) - 1
  {
    hide Path;
  }

  lemma {:induction false} MissingNone(s: St, d: nat, pn: nat)
    requires Inv(s) && Node(d, 3, pn / N_PTE) in s.tab && pn < SPAN
    ensures Missing(s, d, pn) == 0
  {
    Ancestors(s, d, pn, 3, 0);
    Ancestors(s, d, pn, 3, 1);
    Ancestors(s, d, pn, 3, 2);
    Ancestors(s, d, pn, 3, 3);
    hide Inv;
  }

  // ---------- the tables refine the flat map ----------

  /** The walk of the hardware from page `f` on. */
  function Walk(pages: seq<seq<nat>>, f: nat, va: nat, level: nat): (e: nat)
    requires level <= 3
    decreases 3 - level
  {
    if f == 0 || f >= |pages| || |pages[f]| != N_PTE then 0
    else
      var e := pages[f][Index(va, level)];
      if level == 3 || e == 0 then e else Walk(pages, Frame(e), va, level + 1)
  }

  lemma {:induction false} WalkFrom(s: St, d: nat, va: nat, level: nat)
    requires Inv(s) && level <= 3 && Node(d, level, Path(PageOf(va), level)) in s.tab
    ensures Walk(s.pages, s.tab[Node(d, level, Path(PageOf(va), level))], va, level) == LeafOf(s, Key(d, PageOf(va)))
    decreases 3 - level
  {
    hide QueueOk, CountsOk, ZeroOk, Count, ParentsOk, LeavesOk, EntriesOk, NodesOk, PageOf, Index, Path;
    var pn := PageOf(va);
    var x := Node(d, level, Path(pn, level));
    PathStep(va, level);
    TableWord(s, x, Index(va, level));
    if level < 3 {
      EntryIsChild(s, x, Index(va, level));
      var c := Child(x, Index(va, level));
      if c in s.tab { WalkFrom(s, d, va, level + 1); }
      else { NoTableNoLeaf(s, c, pn); }
    }
  }

  lemma {:induction false} TableWord(s: St, x: Node, i: nat)
    requires Inv(s) && x in s.tab && i < N_PTE
    ensures 0 < s.tab[x] < |s.pages| && |s.pages[s.tab[x]]| == N_PTE && s.pages[s.tab[x]][i] == EntryOf(s, x, i)
  {
    hide QueueOk, CountsOk, ZeroOk, Count, ParentsOk, LeavesOk;
  }

  /** Translation by the four levels is look-up in the flat map, for every address. */
  lemma {:induction false} WalkIsFlatMap(s: St, d: nat, va: nat)
    requires Inv(s) && d in s.roots
    ensures Walk(s.pages, s.roots[d], va, 0) == LeafOf(s, Key(d, PageOf(va)))
  {
    PathStep(va, 0);
    if s.roots[d] != 0 { WalkFrom(s, d, va, 0); }
    else {
      assert Node(d, 0, 0) !in s.tab by { hide QueueOk, LeavesOk, CountsOk, ZeroOk, EntriesOk, Count; }
      NoTableNoLeaf(s, Node(d, 0, 0), PageOf(va));
    }
  }

  // ---------- what the hardware lets a user access ----------

  /** Bit `2^k` of a descriptor, given as that power. */
  predicate HasBit(e: nat, power: nat)
    requires power > 0
  {
    e / power % 2 == 1
  }

  /** A page descriptor (bits 0 and 1) that user code may read, or write: bit 6 is set, bit 10
      (accessed) is set, and for a write bit 7 is clear. */
  predicate Permits(e: nat, write: bool) {
    HasBit(e, 0x1) && HasBit(e, 0x2) && HasBit(e, 0x40) && HasBit(e, 0x400) && (write ==> !HasBit(e, 0x80))
  }

  datatype Access = Faults | Reaches(pa: nat)

  /** An access by user code: the physical address, or a fault. A descriptor of the levels 0 to
      2 has to have bits 0 and 1 set, too, to lead on. */
  function UserAccess(pages: seq<seq<nat>>, f: nat, va: nat, level: nat, write: bool): (r: Access)
    requires level <= 3
    decreases 3 - level
  {
    if f == 0 || f >= |pages| || |pages[f]| != N_PTE then Faults
    else
      var e := pages[f][Index(va, level)];
      if level == 3 then if Permits(e, write) then Reaches(Frame(e) * PAGE_SIZE + va % PAGE_SIZE) else Faults
      else if HasBit(e, 0x1) && HasBit(e, 0x2) then UserAccess(pages, Frame(e), va, level + 1, write)
      else Faults
  }

  /** What the flat map says about an access. */
  function FlatAccess(s: St, k: Key, va: nat, write: bool): (r: Access) {
    if Permits(LeafOf(s, k), write) then Reaches(Frame(LeafOf(s, k)) * PAGE_SIZE + va % PAGE_SIZE) else Faults
  }

  /** The pointer to a child table is one that the hardware follows. */
  lemma {:induction false} ChildIsTable(s: St, x: Node, i: nat)
    requires Inv(s) && x in s.tab && x.level < 3 && i < N_PTE
    ensures s.tab[x] < |s.pages| && |s.pages[s.tab[x]]| == N_PTE
    ensures var e := s.pages[s.tab[x]][i]; Child(x, i) in s.tab <==> HasBit(e, 0x1) && HasBit(e, 0x2)
  {
    TableWord(s, x, i);
    hide Inv;
    if Child(x, i) in s.tab { TableEntryBits(s.tab[Child(x, i)]); }
  }

  lemma TableEntryBits(g: nat)
    ensures HasBit(g * PAGE_SIZE + PTE_TABLE, 0x1) && HasBit(g * PAGE_SIZE + PTE_TABLE, 0x2)
  {
    var e := g * PAGE_SIZE + PTE_TABLE;
    assert e == (1024 * g) * 4 + 3;
    DivIs(e, 2048 * g + 1, 2, 1);
    DivIs(2048 * g + 1, 1024 * g, 2, 1);
  }

  lemma {:induction false} AccessFrom(s: St, d: nat, va: nat, level: nat, write: bool)
    requires Inv(s) && level <= 3 && Node(d, level, Path(PageOf(va), level)) in s.tab
    ensures UserAccess(s.pages, s.tab[Node(d, level, Path(PageOf(va), level))], va, level, write)
         == FlatAccess(s, Key(d, PageOf(va)), va, write)
    decreases 3 - level
  {
    hide Inv, PageOf, Index, Path, Permits, HasBit;
    var pn := PageOf(va);
    var x := Node(d, level, Path(pn, level));
    PathStep(va, level);
    TableWord(s, x, Index(va, level));
    if level < 3 {
      EntryIsChild(s, x, Index(va, level));
      ChildIsTable(s, x, Index(va, level));
      var c := Child(x, Index(va, level));
      if c in s.tab { AccessFrom(s, d, va, level + 1, write); }
      else {
        NoTableNoLeaf(s, c, pn);
        ZeroFaults(write);
      }
    }
  }

  lemma ZeroFaults(write: bool)
    ensures !Permits(0, write)
  {
  }

  /** Where user code gets by an address is what the flat map says, for every address. */
  lemma {:induction false} AccessIsFlatMap(s: St, d: nat, va: nat, write: bool)
    requires Inv(s) && d in s.roots
    ensures UserAccess(s.pages, s.roots[d], va, 0, write) == FlatAccess(s, Key(d, PageOf(va)), va, write)
  {
    hide Permits, FlatAccess;
    PathStep(va, 0);
    if s.roots[d] != 0 { AccessFrom(s, d, va, 0, write); }
    else {
      assert Node(d, 0, 0) !in s.tab by { hide QueueOk, LeavesOk, CountsOk, ZeroOk, EntriesOk, Count; }
      NoTableNoLeaf(s, Node(d, 0, 0), PageOf(va));
      hide Inv, UserAccess;
      ZeroFaults(write);
      assert FlatAccess(s, Key(d, PageOf(va)), va, write) == Faults by {
        NoLeafFaults(s, Key(d, PageOf(va)), va, write);
      }
      assert UserAccess(s.pages, 0, va, 0, write) == Faults by { NullFaults(s.pages, va, write); }
    }
  }

  lemma NoLeafFaults(s: St, k: Key, va: nat, write: bool)
    requires k !in s.leaf
    ensures FlatAccess(s, k, va, write) == Faults
  {
    ZeroFaults(write);
  }

  lemma NullFaults(pages: seq<seq<nat>>, va: nat, write: bool)
    ensures UserAccess(pages, 0, va, 0, write) == Faults
  {
  }

  /** Two addresses have the same descriptor exactly when they lie in the same page of the
      same address space. */
  lemma {:induction false} SameDescriptorIff(s: St, d: nat, va: nat, d': nat, va': nat)
    requires Inv(s) && Node(d, 3, PageOf(va) / N_PTE) in s.tab && Node(d', 3, PageOf(va') / N_PTE) in s.tab
    ensures s.tab[Node(d, 3, PageOf(va) / N_PTE)] == s.tab[Node(d', 3, PageOf(va') / N_PTE)]
      && PageOf(va) % N_PTE == PageOf(va') % N_PTE
      <==> d == d' && PageOf(va) == PageOf(va')
  {
    hide QueueOk, LeavesOk, CountsOk, ZeroOk, EntriesOk, Count, ParentsOk;
    assert PageOf(va) == PageOf(va) / N_PTE * N_PTE + PageOf(va) % N_PTE;
    assert PageOf(va') == PageOf(va') / N_PTE * N_PTE + PageOf(va') % N_PTE;
  }

  // ---------- vmmap in general ----------

  lemma {:induction false} CountReplace(m: map<Key, nat>, k: Key, e: nat, f: nat)
    requires k in m
    ensures Count(m[k := e], f) + (if Frame(m[k]) == f then 1 else 0) == Count(m, f) + (if Frame(e) == f then 1 else 0)
  {
    var m' := m - {k};
    CountRemove(m, k, f);
    CountAdd(m', k, e, f);
    assert m'[k := e] == m[k := e];
  }

  /** vmmap: the reference of a mapping that is overwritten is never given back. */
  function Mapped(s: St, k: Key, f: nat, e: nat): (r: St)
    requires var x := Node(k.dir, 3, k.pn / N_PTE); x in s.tab && s.tab[x] < |s.pages| && |s.pages[s.tab[x]]| == N_PTE
    requires f < |s.refs|
  {
    SetLeaf(s, k, e).(
      refs := s.refs[f := s.refs[f] + 1],
      hold :=
        if k in s.leaf && Frame(s.leaf[k]) < |s.hold| then s.hold[Frame(s.leaf[k]) := s.hold[Frame(s.leaf[k])] + 1]
        else s.hold)
  }

  lemma {:induction false} MappedKeeps(s: St, k: Key, f: nat, e: nat, s': St)
    requires Inv(s) && k.pn < SPAN && Node(k.dir, 3, k.pn / N_PTE) in s.tab
    requires e != 0 && ValidBit(e) && Frame(e) == f < |s.role| && s.role[f] == DataPage && s' == Mapped(s, k, f, e)
    ensures Inv(s')
  {
    hide Count, ParentsOk;
    if k !in s.leaf {
      MapKeeps(s, k, f, e, SetLeaf(s, k, e), s');
    } else {
      var s1 := SetLeaf(s, k, e);
      SetLeafEntries(s, k, e, s1);
      UnmapEntries(s1, f, s');
      hide EntriesOk;
      forall g | 0 <= g < |s.role|
        ensures Count(s'.leaf, g) + (if Frame(s.leaf[k]) == g then 1 else 0)
          == Count(s.leaf, g) + (if f == g then 1 else 0)
      {
        CountReplace(s.leaf, k, e, g);
      }
      RemapRest(s, k, f, e, s');
    }
  }

  lemma {:induction false} RemapRest(s: St, k: Key, f: nat, e: nat, s': St)
    requires Inv(s) && k.pn < SPAN && Node(k.dir, 3, k.pn / N_PTE) in s.tab && k in s.leaf
    requires e != 0 && ValidBit(e) && Frame(e) == f < |s.role| && s.role[f] == DataPage && s' == Mapped(s, k, f, e)
    requires forall g :: 0 <= g < |s.role| ==>
      Count(s'.leaf, g) + (if Frame(s.leaf[k]) == g then 1 else 0) == Count(s.leaf, g) + (if f == g then 1 else 0)
    ensures Shape(s') && QueueOk(s') && NodesOk(s') && LeavesOk(s') && CountsOk(s') && ZeroOk(s')
  {
    hide Count, ParentsOk, EntriesOk;
    assert Shape(s') && QueueOk(s') && ZeroOk(s');
    hide QueueOk;
    assert CountsOk(s');
    hide CountsOk;
  }

  // ---------- ranges of pages ----------

  /** The flat map without the pages from `lo` up to `hi` of one address space. */
  function Cut(m: map<Key, nat>, d: nat, lo: nat, hi: nat): (r: map<Key, nat>)
    decreases hi
  {
    if lo >= hi then m else Cut(m, d, lo, hi - 1) - {Key(d, (hi - 1) % SPAN)}
  }

  /** Some page number from `lo` up to `hi` belongs to that page; the walk does not see its
      bits from 36 on. */
  ghost predicate Covered(k: Key, d: nat, lo: int, hi: int) {
    k.dir == d && exists n: nat :: lo <= n < hi && n % SPAN == k.pn
  }

  /** What giving back the pages from `lo` up to `hi` should leave. */
  ghost function Without(m: map<Key, nat>, d: nat, lo: int, hi: int): (r: map<Key, nat>) {
    map k | k in m && !Covered(k, d, lo, hi) :: m[k]
  }

  lemma {:induction false} WithoutNone(m: map<Key, nat>, d: nat, lo: int, hi: int)
    requires lo >= hi
    ensures Without(m, d, lo, hi) == m
  {
  }

  lemma {:induction false} CutIsWithout(m: map<Key, nat>, d: nat, lo: nat, hi: nat)
    ensures Cut(m, d, lo, hi) == Without(m, d, lo, hi)
    decreases hi
  {
    if lo < hi {
      CutIsWithout(m, d, lo, hi - 1);
      forall k ensures Covered(k, d, lo, hi) <==> Covered(k, d, lo, hi - 1) || k == Key(d, (hi - 1) % SPAN) {
      }
    }
  }

  /** Inside a 48-bit address space exactly that range goes. */
  lemma {:induction false} CutExactly(m: map<Key, nat>, d: nat, lo: nat, hi: nat, k: Key)
    requires hi <= SPAN
    ensures k in Cut(m, d, lo, hi) <==> k in m && !(k.dir == d && lo <= k.pn < hi)
    ensures k in Cut(m, d, lo, hi) ==> Cut(m, d, lo, hi)[k] == m[k]
    decreases hi
  {
    if lo < hi { CutExactly(m, d, lo, hi - 1, k); }
  }

  // ---------- page faults ----------

  /** memcpy into a data page other than the zero page. */
  lemma {:induction false} CopyKeeps(s: St, f: nat, words: seq<nat>, s': St)
    requires Inv(s) && f < |s.pages| && s.role[f] == DataPage && f != s.zero && |words| == N_PTE
    requires s' == s.(pages := s.pages[f := words])
    ensures Inv(s')
  {
    hide Count, ParentsOk, QueueOk;
    TreeFrame(s, s');
    hide NodesOk, EntriesOk, LeavesOk;
    assert QueueOk(s') by { QueueSame(s, s'); }
  }

  lemma QueueSame(s: St, s': St)
    requires QueueOk(s) && s'.free == s.free && s'.role == s.role && s'.cnt == s.cnt && s'.total == s.total
    ensures QueueOk(s')
  {
  }

  /** kfree_page of the page mapped at `k`, then vmmap of another one there. */
  function Swapped(s: St, k: Key, f: nat, e: nat): (r: St)
    requires k in s.leaf && Frame(s.leaf[k]) < |s.refs| == |s.role| && f < |s.refs|
    requires var x := Node(k.dir, 3, k.pn / N_PTE); x in s.tab && s.tab[x] < |s.pages| && |s.pages[s.tab[x]]| == N_PTE
  {
    Mapped(Unmap(s, k), k, f, e)
  }

  lemma {:induction false} SwappedKeeps(s: St, k: Key, f: nat, e: nat, s': St)
    requires Inv(s) && k in s.leaf && k.pn < SPAN && Node(k.dir, 3, k.pn / N_PTE) in s.tab && FrameOk(s, k)
    requires e != 0 && ValidBit(e) && Frame(e) == f < |s.role| && s.role[f] == DataPage && f != Frame(s.leaf[k])
    requires s.tab[Node(k.dir, 3, k.pn / N_PTE)] < |s.pages| && |s.pages[s.tab[Node(k.dir, 3, k.pn / N_PTE)]]| == N_PTE
    requires s' == Swapped(s, k, f, e)
    ensures Inv(s') && s'.hold == s.hold && s'.leaf == s.leaf[k := e] && s'.tab == s.tab
  {
    hide Count, ParentsOk, QueueOk, NodesOk, EntriesOk, LeavesOk, CountsOk, ZeroOk;
    var s1 := Unmap(s, k);
    UnmapKeeps(s, k, SetLeaf(s, k, 0), s1);
    MappedKeeps(s1, k, f, e, s');
    assert s.leaf - {k} == s1.leaf;
  }

  ghost predicate FrameOk(s: St, k: Key) {
    k in s.leaf && Frame(s.leaf[k]) < |s.refs| == |s.role|
  }

  /** In effect: the descriptor is overwritten, one count goes down, the other up. */
  lemma {:induction false} SwappedFields(s: St, k: Key, f: nat, e: nat, s1: St, s': St)
    requires k in s.leaf && Frame(s.leaf[k]) < |s.refs| == |s.role| && f < |s.refs| && f != Frame(s.leaf[k]) && e != 0
    requires var x := Node(k.dir, 3, k.pn / N_PTE); x in s.tab && s.tab[x] < |s.pages| && |s.pages[s.tab[x]]| == N_PTE
    requires s1 == Dropped(s, Frame(s.leaf[k])) && s' == Swapped(s, k, f, e)
    ensures s'.pages == SetLeaf(s, k, e).pages && s'.refs == s1.refs[f := s1.refs[f] + 1]
    ensures s'.free == s1.free && s'.cnt == s1.cnt && s'.zero == s.zero && s'.roots == s.roots && s'.total == s.total
    ensures s'.role[f] == s.role[f]
  {
    var t, i := s.tab[Node(k.dir, 3, k.pn / N_PTE)], k.pn % N_PTE;
    var words: seq<nat> := s.pages[t];
    assert words[i := 0][i := e] == words[i := e];
    assert s.pages[t := words[i := 0]][t := words[i := 0][i := e]] == s.pages[t := words[i := e]];
  }

  /** Every reference is a mapping or the zero page's own. */
  ghost predicate Exact(s: St) {
    forall f :: 0 <= f < |s.role| && f < |s.hold| && s.role[f] == DataPage ==> s.hold[f] == if f == s.zero then 1 else 0
  }

  /** Mapping over a mapping loses a reference for good. */
  lemma {:induction false} OverwriteLeaks(s: St, s1: St, k: Key, f: nat, e: nat, s': St)
    requires Inv(s) && Exact(s) && Walked(s, s1) && Inv(s1) && Node(k.dir, 3, k.pn / N_PTE) in s1.tab
    requires f < |s1.refs| && s1.tab[Node(k.dir, 3, k.pn / N_PTE)] < |s1.pages|
    requires |s1.pages[s1.tab[Node(k.dir, 3, k.pn / N_PTE)]]| == N_PTE && s' == Mapped(s1, k, f, e)
    ensures Exact(s') <==> k !in s.leaf
  {
    hide QueueOk, NodesOk, ParentsOk, EntriesOk, CountsOk, ZeroOk;
    assert s'.role == s1.role && s'.zero == s1.zero;
    if k in s.leaf {
      var g := Frame(s.leaf[k]);
      assert s1.role[g] == DataPage && s.role[g] == DataPage;
      assert s'.hold[g] == s1.hold[g] + 1;
    }
  }
}
