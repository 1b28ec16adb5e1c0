/** Page allocation, the page table walk, mapping, lazy allocation, copy on write and
    teardown (src/kernel/mem.c, src/kernel/pt.c, src/kernel/paging.c). Pages are named by
    their physical page number; 0 stands for NULL. */
module Paging {
  import opened PageMap

  /** PTE_USER_DATA: user, normal memory, accessed, valid page. */
  const PTE_USER_DATA := 0x647
  const U64 := 0x1_0000_0000_0000_0000

  /** Both stop the kernel. */
  datatype Fault = Handled(page: nat) | OutsideHeap | OutOfPages

  /** The descriptor that the fault handler writes. */
  function UserPage(f: nat): (e: nat)
    requires f < SPAN
    ensures Frame(e) == f && Flags(e) == PTE_USER_DATA && ValidBit(e) && e != 0
  {
    assert Frame(PTE_USER_DATA) == 0 && AsTable(PTE_USER_DATA) == PTE_USER_DATA;
    Descriptor(f, PTE_USER_DATA)
  }

  class Machine {
    var pages: seq<seq<nat>>
    var refs: seq<int>
    var free: seq<nat>
    var cnt: int
    var zero: nat
    var roots: map<nat, nat>
    /** The end of the heap section of every page directory; heaps begin at 0. */
    var heapEnd: map<nat, nat>
    ghost var total: nat
    ghost var role: seq<Role>
    ghost var hold: seq<nat>
    ghost var tab: map<Node, nat>
    ghost var leaf: map<Key, nat>

    ghost function S(): (s: St)
      reads this
    {
      St(pages, refs, free, cnt, zero, roots, total, role, hold, tab, leaf)
    }

    // ---------- boot ----------

    /** Pages from `first` on are put in the queue, and one is taken as the zero page. */
    constructor (first: nat, n: nat)
      requires 0 < first < n <= SPAN
      ensures Inv(S()) && Exact(S()) && roots == map[] && heapEnd == map[] && leaf == map[] && total == n - first
    {
      var queue := BuildQueue(first, n);
      var f := queue[0];
      pages := seq(n, i => ZeroPage());
      refs := seq(n, i => if i == f then 1 else 0);
      free := queue[1..];
      cnt := 1;
      zero := f;
      roots, heapEnd := map[], map[];
      total := n - first;
      role := seq(n, i => if i < first then Reserved else if i == f then DataPage else FreePage);
      hold := seq(n, i => if i == f then 1 else 0);
      tab, leaf := map[], map[];
      new;
      Booted(first, n, queue, S());
    }

    // ---------- pages ----------

    /** kalloc_page: a zeroed page with one reference. It faults on an empty queue. */
    method KallocPage() returns (ok: bool, f: nat)
      requires Inv(S())
      modifies this`pages, this`refs, this`free, this`cnt, this`role, this`hold
      ensures ok <==> old(free) != []
      ensures !ok ==> S() == old(S())
      ensures ok ==> Inv(S()) && FreshPage(S(), f) && old(free)[0] == f < |old(S()).pages| && S() == TakePage(old(S()))
      ensures ok ==> old(S()).role[f] == FreePage
      ensures ok ==> f < |pages| == |refs| && pages == old(pages)[f := pages[f]] && refs == old(refs)[f := 1]
      ensures ok ==> free == old(free)[1..] && cnt == old(cnt) + 1
      ensures ok ==> |pages[f]| == 512 && forall i :: 0 <= i < 512 ==> pages[f][i] == 0
    {
      if free == [] { return false, 0; }
      ghost var s := S();
      f := free[0];
      assert f in s.free;
      free := free[1..];
      cnt := cnt + 1;
      pages := pages[f := ZeroPage()];
      refs := refs[f := 1];
      role := role[f := DataPage];
      hold := hold[f := 1];
      assert S() == TakePage(s);
      TakeKeeps(s, S());
      ok := true;
    }

    /** kfree_page, on the counts and the queue. */
    method Drop(f: nat)
      requires f < |refs|
      modifies this`refs, this`free, this`cnt
      ensures S() == Dropped(old(S()), f) && refs == old(refs)[f := old(refs)[f] - 1]
      ensures var back := old(refs)[f] == 1 && f != zero;
        free == (if back then [f] + old(free) else old(free)) && cnt == old(cnt) - if back then 1 else 0
    {
      refs := refs[f := refs[f] - 1];
      if refs[f] == 0 && f != zero {
        cnt := cnt - 1;
        free := [f] + free;
      }
    }

    /** kfree_page of a page the caller got from kalloc_page. */
    method KfreePage(f: nat)
      requires Inv(S()) && f < |refs| && role[f] == DataPage && hold[f] > 0 && (f == zero ==> hold[f] > 1)
      modifies this`refs, this`free, this`cnt, this`role, this`hold
      ensures Inv(S()) && S() == Release(old(S()), f)
      ensures f < |old(refs)| && refs == old(refs)[f := old(refs)[f] - 1] && pages == old(pages)
      ensures var back := old(refs)[f] == 1 && f != zero;
        free == (if back then [f] + old(free) else old(free)) && cnt == old(cnt) - if back then 1 else 0
    {
      ghost var s := S();
      assert |role| == |refs| by { SameSizes(s); }
      hide Inv;
      Drop(f);
      hold := hold[f := hold[f] - 1];
      if refs[f] == 0 && f != zero { role := role[f := FreePage]; }
      ReleaseKeeps(s, f, S());
    }

    // ---------- get_pte ----------

    /** The table behind entry `i` of table `x`, which lies in page `f`; 0 if there is none
        and `alloc` is not set. */
    method Next(ghost x: Node, f: nat, i: nat, alloc: bool) returns (ok: bool, g: nat)
      requires Inv(S()) && x in tab && tab[x] == f && x.level < 3 && i < N_PTE
      modifies this`pages, this`refs, this`free, this`cnt, this`role, this`hold, this`tab
      ensures ok ==> Inv(S()) && Walked(old(S()), S())
      ensures ok && g != 0 ==> Child(x, i) in tab && tab[Child(x, i)] == g
      ensures ok && g == 0 ==> !alloc && Child(x, i) !in tab
      ensures !alloc || Child(x, i) in old(tab) ==> ok && S() == old(S())
      ensures ok && alloc && Child(x, i) !in old(tab) ==> tab == old(tab)[Child(x, i) := g] && |free| == |old(free)| - 1
      ensures !ok ==> free == [] && S() == old(S()) && alloc && Child(x, i) !in tab
    {
      ghost var s := S();
      EntryIsChild(s, x, i);
      hide Inv, Walked, FreshPage;
      if pages[f][i] == 0 {
        if !alloc {
          WalkedSelf(s);
          return true, 0;
        }
        ok, g := KallocPage();
        if !ok { return; }
        ghost var s1 := S();
        NewTable(x, f, i, g, s, s1);
      } else {
        g := Frame(pages[f][i]);
        ok := true;
        WalkedSelf(s);
        PageNotNull(s, Child(x, i));
      }
    }

    /** A fresh page is linked in as a table. */
    method NewTable(ghost x: Node, f: nat, i: nat, g: nat, ghost s: St, ghost s1: St)
      requires Inv(s) && x in s.tab && s.tab[x] == f && x.level < 3 && i < N_PTE && Child(x, i) !in s.tab
      requires s.free != [] && s.free[0] == g < |s.pages| && s1 == TakePage(s) && Inv(s1) && FreshPage(s1, g)
        && s.role[g] == FreePage
      requires S() == s1
      modifies this`pages, this`role, this`hold, this`tab
      ensures Inv(S()) && Walked(s, S()) && tab == s.tab[Child(x, i) := g] && g != 0
    {
      hide QueueOk, ParentsOk, LeavesOk, CountsOk, ZeroOk, EntriesOk, Count;
      var words: seq<nat> := pages[f];
      pages := pages[f := words[i := g * PAGE_SIZE + PTE_TABLE]];
      role, hold, tab := role[g := TablePage], hold[g := 0], tab[Child(x, i) := g];
      TableWalked(s, s1, x, i, g, S());
    }

    /** The root table, allocated if need be. */
    method Root(d: nat, alloc: bool) returns (ok: bool, f: nat)
      requires Inv(S()) && d in roots
      modifies this`pages, this`refs, this`free, this`cnt, this`roots, this`role, this`hold, this`tab
      ensures ok ==> Inv(S()) && Walked(old(S()), S()) && d in roots
      ensures ok && f != 0 ==> Node(d, 0, 0) in tab && tab[Node(d, 0, 0)] == f
      ensures ok && f == 0 ==> !alloc && Node(d, 0, 0) !in tab
      ensures !alloc || Node(d, 0, 0) in old(tab) ==> ok && S() == old(S())
      ensures ok && alloc && Node(d, 0, 0) !in old(tab) ==>
        tab == old(tab)[Node(d, 0, 0) := f] && |free| == |old(free)| - 1
      ensures !ok ==> free == [] && S() == old(S()) && alloc && Node(d, 0, 0) !in tab
    {
      ghost var s := S();
      RootIs(s, d);
      hide Inv, Walked, FreshPage;
      WalkedSelf(s);
      f, ok := roots[d], true;
      if f == 0 && alloc {
        ok, f := KallocPage();
        if !ok { return; }
        ghost var s1 := S();
        NewRoot(d, f, s, s1);
      }
    }

    method NewRoot(d: nat, g: nat, ghost s: St, ghost s1: St)
      requires Inv(s) && d in s.roots && s.roots[d] == 0
      requires s.free != [] && s.free[0] == g < |s.pages| && s1 == TakePage(s) && Inv(s1) && FreshPage(s1, g)
        && s.role[g] == FreePage
      requires S() == s1
      modifies this`roots, this`role, this`hold, this`tab
      ensures Inv(S()) && Walked(s, S()) && tab == s.tab[Node(d, 0, 0) := g] && g != 0 && d in roots
    {
      hide QueueOk, ParentsOk, LeavesOk, CountsOk, ZeroOk, EntriesOk, NodesOk, Count;
      roots := roots[d := g];
      role, hold, tab := role[g := TablePage], hold[g := 0], tab[Node(d, 0, 0) := g];
      RootWalked(s, s1, d, g, S());
    }

    /** The top of the walk for `va`: page `f` is the root table, 0 if there is none. */
    method Start(d: nat, va: nat, alloc: bool) returns (ok: bool, f: nat)
      requires Inv(S()) && d in roots
      modifies this`pages, this`refs, this`free, this`cnt, this`roots, this`role, this`hold, this`tab
      ensures ok ==> Inv(S()) && Walked(old(S()), S()) && d in roots && (!alloc ==> S() == old(S()))
      ensures ok && f != 0 ==> At(d, va, 0, f)
      ensures ok && f == 0 ==> !alloc && Node(d, 3, PageOf(va) / N_PTE) !in tab && Key(d, PageOf(va)) !in leaf
      ensures ok ==> Spare(S(), d, PageOf(va)) == Spare(old(S()), d, PageOf(va))
      ensures !ok ==> alloc && free == [] && S() == old(S()) && Missing(S(), d, PageOf(va)) > 0
      ensures Node(d, 3, PageOf(va) / N_PTE) in old(tab) ==> ok && S() == old(S())
    {
      hide Inv, Walked, Missing, Path, PageOf;
      ghost var s, pn := S(), PageOf(va);
      PathStep(va, 0);
      TableHasRoot(s, d, pn);
      ok, f := Root(d, alloc);
      if Node(d, 0, 0) !in s.tab {
        if !ok { RootLacks(s, d, pn); }
        else if alloc { MissingStep(s, S(), d, pn, 0); }
        else { NoTableNoLeaf(S(), Node(d, 0, 0), pn); }
      }
    }

    /** One level of the walk for `va`: from the table of `level` in page `f`, 0 if there is
        none, to the next. */
    method Down(d: nat, va: nat, level: nat, f: nat, alloc: bool, ghost s: St) returns (ok: bool, g: nat)
      requires Inv(S()) && Walked(s, S()) && d in roots && level < 3 && (!alloc ==> S() == s)
      requires f != 0 ==> At(d, va, level, f)
      requires f == 0 ==> !alloc && Node(d, 3, PageOf(va) / N_PTE) !in tab && Key(d, PageOf(va)) !in leaf
      modifies this`pages, this`refs, this`free, this`cnt, this`role, this`hold, this`tab
      ensures ok ==> Inv(S()) && Walked(s, S()) && d in roots && (!alloc ==> S() == s)
      ensures ok && g != 0 ==> At(d, va, level + 1, g)
      ensures ok && g == 0 ==> !alloc && Node(d, 3, PageOf(va) / N_PTE) !in tab && Key(d, PageOf(va)) !in leaf
      ensures ok ==> Spare(S(), d, PageOf(va)) == Spare(old(S()), d, PageOf(va))
      ensures !ok ==> alloc && free == [] && S() == old(S()) && Missing(S(), d, PageOf(va)) > 0
      ensures Node(d, 3, PageOf(va) / N_PTE) in old(tab) ==> ok && S() == old(S())
    {
      hide Inv, Path, PageOf, Index;
      if f == 0 { return true, 0; }
      ghost var s0, pn := S(), PageOf(va);
      ghost var x := Node(d, level, Path(pn, level));
      PathStep(va, level);
      BelowIsThere(s0, x, pn);
      ok, g := Next(x, f, Index(va, level), alloc);
      if !ok { return; }
      if alloc && Child(x, Index(va, level)) !in s0.tab { MissingStep(s0, S(), d, pn, level + 1); }
      WalkedTwice(s, s0, S());
      if g == 0 { NoTableNoLeaf(S(), Child(x, Index(va, level)), pn); }
    }

    /** The table of `level` on the way to `va` is page `f`. */
    ghost predicate At(d: nat, va: nat, level: nat, f: nat)
      requires level <= 3
      reads this
    {
      var x := Node(d, level, Path(PageOf(va), level)); x in tab && tab[x] == f
    }

    /** get_pte: page and index of the descriptor for `va`; the page is 0 if it does not
        exist and `alloc` is not set. Mappings and data pages are untouched. */
    method GetPte(d: nat, va: nat, alloc: bool) returns (ok: bool, table: nat, index: nat)
      requires Inv(S()) && d in roots
      modifies this`pages, this`refs, this`free, this`cnt, this`roots, this`role, this`hold, this`tab
      ensures ok ==> Inv(S()) && Walked(old(S()), S()) && d in roots
      ensures ok && table != 0 ==>
        var x := Node(d, 3, PageOf(va) / N_PTE); x in tab && tab[x] == table && index == PageOf(va) % N_PTE
      ensures ok && table == 0 ==> !alloc && Key(d, PageOf(va)) !in leaf
      ensures !alloc ==> ok && S() == old(S())
      ensures alloc ==> (ok <==> |old(free)| >= Missing(old(S()), d, PageOf(va)))
      ensures ok && alloc ==> |free| == |old(free)| - Missing(old(S()), d, PageOf(va))
      ensures !ok ==> free == []
      ensures Node(d, 3, PageOf(va) / N_PTE) in old(tab) ==> ok && table != 0 && S() == old(S())
    {
      hide Inv, Walked, Missing, Path, PageOf, Index;
      ghost var s := S();
      var f;
      ok, f := Start(d, va, alloc);
      if !ok { return false, 0, 0; }
      ok, f := Down(d, va, 0, f, alloc, s);
      if !ok { return false, 0, 0; }
      ok, f := Down(d, va, 1, f, alloc, s);
      if !ok { return false, 0, 0; }
      ok, f := Down(d, va, 2, f, alloc, s);
      if !ok { return false, 0, 0; }
      LastTable(va);
      if alloc { MissingNone(S(), d, PageOf(va)); }
      table, index := f, Index(va, 3);
    }

    // ---------- vmmap ----------

    /** *pte = e and ref_page: page `f` is mapped at `k`, whose descriptor is entry `index`
        of `table`. */
    method MapAt(ghost k: Key, table: nat, index: nat, f: nat, e: nat)
      requires Inv(S()) && Node(k.dir, 3, k.pn / N_PTE) in tab && tab[Node(k.dir, 3, k.pn / N_PTE)] == table
      requires index == k.pn % N_PTE && k.pn < SPAN
      requires e != 0 && ValidBit(e) && Frame(e) == f < |role| && role[f] == DataPage
      modifies this`pages, this`refs, this`hold, this`leaf
      ensures Inv(S()) && table < |old(pages)| && |old(pages)[table]| == N_PTE && f < |old(refs)|
      ensures S() == Mapped(old(S()), k, f, e)
    {
      hide QueueOk, NodesOk, ParentsOk, LeavesOk, CountsOk, ZeroOk, EntriesOk, Count;
      ghost var s := S();
      TableInside(s, Node(k.dir, 3, k.pn / N_PTE));
      ghost var s' := Mapped(s, k, f, e);
      MappedKeeps(s, k, f, e, s');
      hide Inv;
      var words: seq<nat> := pages[table];
      pages := pages[table := words[index := e]];
      refs := refs[f := refs[f] + 1];
      hold, leaf := s'.hold, s'.leaf;
      assert S() == s';
    }

    /** vmmap: afterwards the page of `va` translates to page `f` with `flags`, and every
        other page of every address space as before. */
    method Vmmap(d: nat, va: nat, f: nat, flags: nat) returns (ok: bool)
      requires Inv(S()) && d in roots && f < |role| && role[f] == DataPage && Frame(flags) == 0
      modifies this`pages, this`refs, this`free, this`cnt, this`roots, this`role, this`hold, this`tab, this`leaf
      ensures ok ==> Inv(S()) && d in roots && f < SPAN
      ensures ok ==> leaf == old(leaf)[Key(d, PageOf(va)) := Descriptor(f, flags)]
      ensures ok ==> forall e, v :: e in roots ==>
        Walk(pages, roots[e], v, 0)
          == if e == d && PageOf(v) == PageOf(va) then Descriptor(f, flags) else LeafOf(old(S()), Key(e, PageOf(v)))
      ensures ok ==> f < |refs| && refs[f] == old(refs)[f] + 1
      ensures ok ==> roots.Keys == old(roots).Keys && zero == old(zero)
      ensures ok && Exact(old(S())) ==> (Exact(S()) <==> Key(d, PageOf(va)) !in old(leaf))
      ensures ok <==> |old(free)| >= Missing(old(S()), d, PageOf(va))
      ensures !ok ==> free == []
      ensures ok ==> |role| == |old(role)| && forall g :: 0 <= g < |old(role)| && old(role)[g] == DataPage ==>
        role[g] == DataPage && pages[g] == old(pages)[g] && (g != f ==> refs[g] == old(refs)[g])
    {
      hide QueueOk, NodesOk, ParentsOk, LeavesOk, CountsOk, ZeroOk, EntriesOk, Count, Walk, Exact, Missing;
      ghost var s := S();
      var table, index;
      ok, table, index := GetPte(d, va, true);
      if !ok { return; }
      ghost var s1 := S();
      TableInside(s1, Node(d, 3, PageOf(va) / N_PTE));
      MapAt(Key(d, PageOf(va)), table, index, f, Descriptor(f, flags));
      ghost var s2 := S();
      if Exact(s) { OverwriteLeaks(s, s1, Key(d, PageOf(va)), f, Descriptor(f, flags), s2); }
      TableNotData(s1, Node(d, 3, PageOf(va) / N_PTE));
      forall e, v | e in roots
        ensures Walk(pages, roots[e], v, 0)
          == if e == d && PageOf(v) == PageOf(va) then Descriptor(f, flags) else LeafOf(s, Key(e, PageOf(v)))
      {
        WalkIsFlatMap(s2, e, v);
      }
    }

    // ---------- sbrk and free_sections ----------

    /** kfree_page of the page mapped at the page of `va`, if any, and its descriptor cleared. */
    method UnmapPage(d: nat, va: nat)
      requires Inv(S()) && d in roots
      modifies this`pages, this`refs, this`free, this`cnt, this`roots, this`role, this`hold, this`tab, this`leaf
      ensures Inv(S()) && d in roots && leaf == old(leaf) - {Key(d, PageOf(va))}
      ensures Kept(old(S()), S())
    {
      hide QueueOk, NodesOk, ParentsOk, LeavesOk, CountsOk, ZeroOk, EntriesOk, Count;
      ghost var s, k := S(), Key(d, PageOf(va));
      var ok, table, index := GetPte(d, va, false);
      KeptSelf(s);
      if table != 0 {
        LeafEntry(s, d, va, table);
        var e := pages[table][index];
        if ValidBit(e) {
          ghost var s' := Unmap(s, k);
          UnmapKeeps(s, k, SetLeaf(s, k, 0), s');
          UnmapKept(s, k, s');
          hide Inv, Kept;
          Drop(Frame(e));
          var words: seq<nat> := pages[table];
          pages := pages[table := words[index := 0]];
          role, leaf := s'.role, s'.leaf;
          assert S() == s';
        }
      }
    }

    /** Heaps are whole pages. */
    ghost predicate HeapsOk()
      reads this
    {
      forall d :: d in heapEnd ==> d in roots && heapEnd[d] % PAGE_SIZE == 0 && heapEnd[d] < U64
    }

    /** The loop over the pages from address `from` up to `to`. */
    method UnmapRange(d: nat, from: nat, to: nat)
      requires Inv(S()) && d in roots && from % PAGE_SIZE == 0 && to % PAGE_SIZE == 0
      modifies this`pages, this`refs, this`free, this`cnt, this`roots, this`role, this`hold, this`tab, this`leaf
      ensures Inv(S()) && Kept(old(S()), S()) && leaf == Cut(old(leaf), d, from / PAGE_SIZE, to / PAGE_SIZE)
    {
      hide Inv;
      KeptSelf(S());
      var start := from;
      while start < to
        invariant Inv(S()) && d in roots && Kept(old(S()), S()) && start % PAGE_SIZE == 0
        invariant start <= to || start == from
        invariant leaf == Cut(old(leaf), d, from / PAGE_SIZE, start / PAGE_SIZE)
        decreases if start < to then to - start else 0
      {
        UnmapPage(d, start);
        assert (start + PAGE_SIZE) / PAGE_SIZE == start / PAGE_SIZE + 1;
        start := start + PAGE_SIZE;
      }
      if to <= from { assert Cut(old(leaf), d, from / PAGE_SIZE, to / PAGE_SIZE) == old(leaf); }
    }

    /** sbrk: the heap's end moves by `size`, in 64-bit arithmetic, so that it is where it
        should be if and only if that is a 64-bit address. A heap that shrinks gives back
        exactly the pages behind its new end if and only if it is that large, or has none:
        a shrink by more wraps around and gives back nothing. */
    method Sbrk(d: nat, size: int) returns (r: int)
      requires Inv(S()) && HeapsOk() && d in heapEnd && -0x8000_0000_0000_0000 <= size < 0x8000_0000_0000_0000
      modifies this
      ensures Inv(S()) && HeapsOk() && Kept(old(S()), S())
      ensures size % PAGE_SIZE != 0 ==> r == -1 && leaf == old(leaf) && heapEnd == old(heapEnd)
      ensures size % PAGE_SIZE == 0 ==>
        && r == old(heapEnd)[d] && heapEnd == old(heapEnd)[d := (r + size) % 0x1_0000_0000_0000_0000]
        && leaf == if size < 0 then Shrunk(old(leaf), d, r, size) else old(leaf)
      ensures size % PAGE_SIZE == 0 ==> (heapEnd[d] == r + size <==> 0 <= r + size < U64)
      ensures size % PAGE_SIZE == 0 && size < 0 ==>
        var m := Without(old(leaf), d, (r + size) / PAGE_SIZE, r / PAGE_SIZE);
        leaf == m <==> -size <= r || NoneMapped(old(leaf), d, r)
    {
      hide Inv, Without, NoneMapped;
      KeptSelf(S());
      if size % PAGE_SIZE != 0 { return -1; }
      r := heapEnd[d];
      var end := (r + size) % U64;
      assert end % PAGE_SIZE == 0 by { WholePages(r, size); }
      heapEnd := heapEnd[d := end];
      if size < 0 {
        UnmapRange(d, end, r);
        ShrunkIff(old(leaf), d, r, size);
      }
    }

    /** free_sections of the current process: every page of the heap is given back. */
    method FreeSections(d: nat)
      requires Inv(S()) && HeapsOk() && d in heapEnd
      modifies this`pages, this`refs, this`free, this`cnt, this`roots, this`role, this`hold, this`tab, this`leaf
      ensures Inv(S()) && HeapsOk() && Kept(old(S()), S())
      ensures leaf == Cut(old(leaf), d, 0, heapEnd[d] / PAGE_SIZE)
    {
      hide Inv;
      UnmapRange(d, 0, heapEnd[d]);
    }

    // ---------- pgfault_handler ----------

    /** The copy-on-write branch: the new page gets the contents, and takes over. */
    method CopyOnWrite(ghost k: Key, table: nat, index: nat, mem: nat)
      requires Inv(S()) && FreshPage(S(), mem) && k in leaf && k.pn < SPAN
      requires Node(k.dir, 3, k.pn / N_PTE) in tab && tab[Node(k.dir, 3, k.pn / N_PTE)] == table
        && index == k.pn % N_PTE
      requires table < |pages| && |pages[table]| == N_PTE && pages[table][index] == leaf[k] && mem < SPAN
      requires Frame(leaf[k]) < |role| && role[Frame(leaf[k])] == DataPage
      modifies this`pages, this`refs, this`free, this`cnt, this`role, this`leaf
      ensures Inv(S()) && leaf == old(leaf)[k := UserPage(mem)]
      ensures mem < |refs| && refs[mem] == 2 && role[mem] == DataPage
      ensures pages[mem] == old(pages)[Frame(old(leaf)[k])]
      ensures forall f :: 0 <= f < |old(role)| && f != Frame(old(leaf)[k]) ==> role[f] == old(role)[f]
      ensures |role| == |old(role)| && (Frame(old(leaf)[k]) == zero ==> role == old(role))
    {
      hide Count, ParentsOk, QueueOk, NodesOk, EntriesOk, LeavesOk, CountsOk, ZeroOk, UserPage, Frame, Inv;
      var orig := Frame(pages[table][index]);
      FreshUnmapped(S(), mem, k);
      SameSizes(S());
      TableNotData(S(), Node(k.dir, 3, k.pn / N_PTE));
      CopyPage(mem, orig);
      TakeOver(k, table, index, mem, orig);
    }

    /** memcpy of a page. */
    method CopyPage(mem: nat, orig: nat)
      requires Inv(S()) && mem < |pages| == |role| && orig < |pages| && role[mem] == DataPage && mem != zero
      modifies this`pages
      ensures Inv(S()) && pages == old(pages)[mem := old(pages)[orig]]
    {
      ghost var s := S();
      pages := pages[mem := pages[orig]];
      CopyKeeps(s, mem, s.pages[orig], S());
    }

    /** kfree_page(orig) and vmmap(mem), whose walk ends at the same descriptor again. */
    method TakeOver(ghost k: Key, table: nat, index: nat, mem: nat, orig: nat)
      requires Inv(S()) && k in leaf && k.pn < SPAN && mem < SPAN && mem < |refs| == |role| == |pages|
      requires Node(k.dir, 3, k.pn / N_PTE) in tab && tab[Node(k.dir, 3, k.pn / N_PTE)] == table
        && index == k.pn % N_PTE
      requires table < |pages| && |pages[table]| == N_PTE && role[mem] == DataPage && mem != orig && mem != table
      requires orig == Frame(leaf[k]) < |role| && refs[mem] == 1
      modifies this`pages, this`refs, this`free, this`cnt, this`role, this`leaf
      ensures Inv(S()) && leaf == old(leaf)[k := UserPage(mem)]
      ensures |refs| == |role| == |old(role)| == |pages| && refs[mem] == 2 && role[mem] == DataPage
      ensures pages[mem] == old(pages)[mem]
      ensures forall f :: 0 <= f < |role| && f != orig ==> role[f] == old(role)[f]
      ensures orig == zero ==> role == old(role)
    {
      hide Inv, UserPage, Frame, Swapped;
      ghost var s := S();
      var e := UserPage(mem);
      SameSizes(s);
      ghost var s' := Swapped(s, k, mem, e);
      SwappedKeeps(s, k, mem, e, s');
      ZeroStays(s, k, mem, e, s');
      Drop(orig);
      SwappedFields(s, k, mem, e, S(), s');
      var words: seq<nat> := pages[table];
      pages := pages[table := words[index := e]];
      refs := refs[mem := refs[mem] + 1];
      role, leaf := s'.role, s'.leaf;
      assert S() == s';
    }

    /** pgfault_handler for a fault at `addr`, `write` being bit 1 of the syndrome: a page of
        the heap gets a page of its own, with the contents of the shared one on a write to a
        read-only page, and zeros otherwise. Neither a read nor a write of that address faults
        then. The counts stay exact if and only if the address
        was not mapped, or mapped read-only and written. */
    method PageFault(d: nat, addr: nat, write: bool) returns (r: Fault)
      requires Inv(S()) && HeapsOk() && d in heapEnd
      modifies this`pages, this`refs, this`free, this`cnt, this`roots, this`role, this`hold, this`tab, this`leaf
      ensures r.OutsideHeap? <==> addr >= heapEnd[d]
      ensures r.Handled? ==> Inv(S()) && Served(old(S()), S(), Key(d, PageOf(addr)), r.page, write)
      ensures r.Handled? ==> roots.Keys == old(roots).Keys
      ensures r.Handled? ==> d in roots && forall w: bool ::
        UserAccess(pages, roots[d], addr, 0, w) == Reaches(r.page * PAGE_SIZE + addr % PAGE_SIZE)
      ensures r.OutOfPages? <==> addr < heapEnd[d] && |old(free)| < 1 + Missing(old(S()), d, PageOf(addr))
      ensures r.OutOfPages? ==> free == []
    {
      hide Inv, Served, Missing, PageOf, UserAccess;
      if addr >= heapEnd[d] { return OutsideHeap; }
      var ok, mem := ServeFault(d, addr, write);
      r := if ok then Handled(mem) else OutOfPages;
      if ok { RetryWorks(S(), d, addr, mem); }
    }

    method ServeFault(d: nat, addr: nat, write: bool) returns (ok: bool, mem: nat)
      requires Inv(S()) && d in roots
      modifies this`pages, this`refs, this`free, this`cnt, this`roots, this`role, this`hold, this`tab, this`leaf
      ensures ok ==> Inv(S()) && Served(old(S()), S(), Key(d, PageOf(addr)), mem, write)
      ensures ok ==> roots.Keys == old(roots).Keys && mem < SPAN && LeafOf(S(), Key(d, PageOf(addr))) == UserPage(mem)
      ensures ok <==> |old(free)| >= 1 + Missing(old(S()), d, PageOf(addr))
      ensures !ok ==> free == []
    {
      hide Inv, Walked, FreshPage, GotPage, Accounted, UserPage, PageOf, Exact, Shared, Contents;
      ghost var s, k := S(), Key(d, PageOf(addr));
      ok, mem := KallocPage();
      if !ok { return; }
      ghost var s1 := S();
      assert Missing(s1, d, PageOf(addr)) == Missing(s, d, PageOf(addr)) && |s1.free| == |s.free| - 1;
      hide Missing, TakePage;
      var table, index;
      ok, table, index := GetPte(d, addr, true);
      if !ok { return; }
      ghost var s2 := S();
      GotOne(s, s1, s2, mem);
      FinishFault(k, table, index, mem, write, addr);
      ExactIff(s, s2, S(), mem, k, write);
    }

    /** The new page is mapped, and the handler's own reference given up. */
    method FinishFault(ghost k: Key, table: nat, index: nat, mem: nat, write: bool, ghost addr: nat)
      requires Inv(S()) && FreshPage(S(), mem) && mem < SPAN && k.pn == PageOf(addr) && index == k.pn % N_PTE
      requires Node(k.dir, 3, k.pn / N_PTE) in tab && tab[Node(k.dir, 3, k.pn / N_PTE)] == table
      modifies this`pages, this`refs, this`free, this`cnt, this`role, this`hold, this`leaf
      ensures Inv(S()) && leaf == old(leaf)[k := UserPage(mem)]
      ensures mem < |pages| && pages[mem] == Contents(old(S()), k, write)
      ensures Accounted(old(S()), S(), mem, k, write)
    {
      hide Inv, FreshPage, Accounted, Contents, UserPage;
      LeafEntry(S(), k.dir, addr, table);
      var e := pages[table][index];
      if ReadOnly(e) && write {
        FinishShared(k, table, index, mem);
      } else {
        FinishLazy(k, table, index, mem, write);
      }
    }

    method FinishShared(ghost k: Key, table: nat, index: nat, mem: nat)
      requires Inv(S()) && FreshPage(S(), mem) && k in leaf && k.pn < SPAN && ReadOnly(leaf[k])
      requires Node(k.dir, 3, k.pn / N_PTE) in tab && tab[Node(k.dir, 3, k.pn / N_PTE)] == table
        && index == k.pn % N_PTE
      requires table < |pages| && |pages[table]| == N_PTE && pages[table][index] == leaf[k] && mem < SPAN
      requires Frame(leaf[k]) < |role| && role[Frame(leaf[k])] == DataPage
      modifies this`pages, this`refs, this`free, this`cnt, this`role, this`hold, this`leaf
      ensures Inv(S()) && leaf == old(leaf)[k := UserPage(mem)]
      ensures mem < |pages| && pages[mem] == Contents(old(S()), k, true)
      ensures Accounted(old(S()), S(), mem, k, true)
    {
      hide Inv, UserPage, Frame, ReadOnly, Count;
      ghost var s := S();
      FreshUnmapped(s, mem, k);
      CopyOnWrite(k, table, index, mem);
      ghost var s1 := S();
      SameSizes(s1);
      KfreePage(mem);
    }

    method FinishLazy(ghost k: Key, table: nat, index: nat, mem: nat, ghost write: bool)
      requires Inv(S()) && FreshPage(S(), mem) && k.pn < SPAN && !Shared(S(), k, write)
      requires Node(k.dir, 3, k.pn / N_PTE) in tab && tab[Node(k.dir, 3, k.pn / N_PTE)] == table
        && index == k.pn % N_PTE
      requires table < |pages| && |pages[table]| == N_PTE && mem < SPAN
      requires k in leaf ==> Frame(leaf[k]) < |role| && role[Frame(leaf[k])] == DataPage
      modifies this`pages, this`refs, this`free, this`cnt, this`role, this`hold, this`leaf
      ensures Inv(S()) && leaf == old(leaf)[k := UserPage(mem)]
      ensures mem < |pages| && pages[mem] == Contents(old(S()), k, write)
      ensures Accounted(old(S()), S(), mem, k, write)
    {
      hide Inv, UserPage, Frame, Shared, Count;
      ghost var s := S();
      TableNotData(s, Node(k.dir, 3, k.pn / N_PTE));
      if k in leaf { FreshUnmapped(s, mem, k); }
      MapAt(k, table, index, mem, UserPage(mem));
      ghost var s1 := S();
      SameSizes(s1);
      KfreePage(mem);
    }
  }

  /** The mappings after the heap of `d`, which ends at `r`, shrank by `-size`. */
  ghost function Shrunk(m: map<Key, nat>, d: nat, r: nat, size: int): (m': map<Key, nat>) {
    Cut(m, d, (r + size) % U64 / PAGE_SIZE, r / PAGE_SIZE)
  }

  /** No page of the heap that ends at `r` is mapped. */
  ghost predicate NoneMapped(m: map<Key, nat>, d: nat, r: nat) {
    forall k :: k in m ==> !Covered(k, d, 0, r / PAGE_SIZE)
  }

  lemma {:induction false} ShrunkIff(m: map<Key, nat>, d: nat, r: nat, size: int)
    requires r < U64 && -0x8000_0000_0000_0000 <= size < 0 && r % PAGE_SIZE == 0 && size % PAGE_SIZE == 0
    ensures Shrunk(m, d, r, size) == Without(m, d, (r + size) / PAGE_SIZE, r / PAGE_SIZE)
      <==> -size <= r || NoneMapped(m, d, r)
    ensures -size > r ==> Shrunk(m, d, r, size) == m
  {
    if -size <= r {
      CutIsWithout(m, d, (r + size) / PAGE_SIZE, r / PAGE_SIZE);
    } else {
      assert (r + size) % U64 == r + size + U64 > r;
      assert Shrunk(m, d, r, size) == m;
      var lo := (r + size) / PAGE_SIZE;
      assert forall k :: Covered(k, d, lo, r / PAGE_SIZE) <==> Covered(k, d, 0, r / PAGE_SIZE);
      if k :| k in m && Covered(k, d, 0, r / PAGE_SIZE) {
        assert k !in Without(m, d, lo, r / PAGE_SIZE);
      } else {
        assert Without(m, d, lo, r / PAGE_SIZE) == m;
      }
    }
  }

  /** A heap of one page that shrinks by two: its end moves up to the last page below two to
      the 64, and its page stays mapped. */
  lemma {:induction false} ShrunkTooFar(d: nat, e: nat)
    ensures (PAGE_SIZE - 2 * PAGE_SIZE) % U64 == U64 - PAGE_SIZE
    ensures Shrunk(map[Key(d, 0) := e], d, PAGE_SIZE, -2 * PAGE_SIZE) == map[Key(d, 0) := e]
    ensures Without(map[Key(d, 0) := e], d, -1, 1) == map[]
  {
    ShrunkIff(map[Key(d, 0) := e], d, PAGE_SIZE, -2 * PAGE_SIZE);
    assert 0 % SPAN == 0;
    assert Covered(Key(d, 0), d, -1, 1);
  }

  /** Pages left when a walk has made its tables. */
  ghost function Spare(s: St, d: nat, pn: nat): (n: int) {
    |s.free| - Missing(s, d, pn)
  }

  /** The descriptor that the fault handler writes permits reads and writes by user code. */
  lemma UserPagePermits(f: nat, write: bool)
    requires f < SPAN
    ensures Permits(UserPage(f), write) && Frame(UserPage(f)) == f
  {
    var e := UserPage(f);
    assert e == f * PAGE_SIZE + 0x647;
    DivIs(e, f * 2048 + 0x323, 2, 1);
    DivIs(f * 2048 + 0x323, f * 1024 + 0x191, 2, 1);
    DivIs(e, f * 64 + 0x19, 0x40, 7);
    DivIs(f * 64 + 0x19, f * 32 + 0xC, 2, 1);
    DivIs(e, f * 32 + 0xC, 0x80, 0x47);
    DivIs(f * 32 + 0xC, f * 16 + 6, 2, 0);
    DivIs(e, f * 4 + 1, 0x400, 0x247);
    DivIs(f * 4 + 1, f * 2, 2, 1);
  }

  /** With that descriptor an access of the page reaches it. */
  lemma {:induction false} RetryWorks(s: St, d: nat, va: nat, f: nat)
    requires Inv(s) && d in s.roots && f < SPAN && LeafOf(s, Key(d, PageOf(va))) == UserPage(f)
    ensures forall w: bool :: UserAccess(s.pages, s.roots[d], va, 0, w) == Reaches(f * PAGE_SIZE + va % PAGE_SIZE)
  {
    hide Inv, UserAccess, UserPage, PageOf, Permits;
    forall w: bool ensures UserAccess(s.pages, s.roots[d], va, 0, w) == Reaches(f * PAGE_SIZE + va % PAGE_SIZE) {
      AccessIsFlatMap(s, d, va, w);
      UserPagePermits(f, w);
    }
  }

  lemma WalkedSelf(s: St)
    requires Inv(s)
    ensures Walked(s, s)
  {
  }

  lemma {:induction false} PageNotNull(s: St, x: Node)
    requires Inv(s) && x in s.tab
    ensures 0 < s.tab[x] < |s.pages|
  {
    hide QueueOk, ParentsOk, LeavesOk, CountsOk, ZeroOk, EntriesOk, Count;
  }

  lemma {:induction false} RootIs(s: St, d: nat)
    requires Inv(s) && d in s.roots
    ensures s.roots[d] != 0 <==> Node(d, 0, 0) in s.tab
    ensures s.roots[d] != 0 ==> s.tab[Node(d, 0, 0)] == s.roots[d]
  {
    hide QueueOk, LeavesOk, CountsOk, ZeroOk, EntriesOk, Count;
  }

  lemma {:induction false} BelowIsThere(s: St, x: Node, pn: nat)
    requires Inv(s) && x.level < 3 && x.path == Path(pn, x.level) && pn < SPAN
    ensures Node(x.dir, 3, pn / N_PTE) in s.tab ==> Node(x.dir, x.level + 1, Path(pn, x.level + 1)) in s.tab
  {
    if Node(x.dir, 3, pn / N_PTE) in s.tab { Ancestors(s, x.dir, pn, 3, x.level + 1); }
  }

  lemma {:induction false} TableHasRoot(s: St, d: nat, pn: nat)
    requires Inv(s) && pn < SPAN
    ensures Node(d, 3, pn / N_PTE) in s.tab ==> Node(d, 0, 0) in s.tab
  {
    if Node(d, 3, pn / N_PTE) in s.tab { Ancestors(s, d, pn, 3, 0); }
  }

  /** The last table on the way to `va` has the descriptor at the page number's last part. */
  lemma LastTable(va: nat)
    ensures Path(PageOf(va), 3) == PageOf(va) / N_PTE && Index(va, 3) == PageOf(va) % N_PTE
  {
    PathStep(va, 3);
    Parts(Path(PageOf(va), 3), N_PTE, Index(va, 3));
  }

  lemma {:induction false} RootLacks(s: St, d: nat, pn: nat)
    requires pn < SPAN && Node(d, 0, 0) !in s.tab
    ensures Missing(s, d, pn) > 0
  {
  }

  lemma {:induction false} TableInside(s: St, x: Node)
    requires Inv(s) && x in s.tab
    ensures s.tab[x] < |s.pages| && |s.pages[s.tab[x]]| == N_PTE
  {
    hide QueueOk, ParentsOk, LeavesOk, CountsOk, ZeroOk, EntriesOk, Count;
  }

  lemma {:induction false} TableNotData(s: St, x: Node)
    requires Inv(s) && x in s.tab
    ensures s.tab[x] < |s.role| && s.role[s.tab[x]] == TablePage
  {
    hide QueueOk, ParentsOk, LeavesOk, CountsOk, ZeroOk, EntriesOk, Count;
  }

  /** The queue, the counts and the tables may change, but the zero page, the page
      directories and the references that are not mappings are kept. */
  ghost predicate Kept(s: St, s': St) {
    && s'.zero == s.zero && s'.total == s.total && s'.roots == s.roots && s'.hold == s.hold && s'.tab == s.tab
    && NoNewData(s, s')
  }

  ghost predicate NoNewData(s: St, s': St) {
    |s'.role| == |s.role| && forall f :: 0 <= f < |s.role| && s'.role[f] == DataPage ==> s.role[f] == DataPage
  }

  lemma KeptSelf(s: St)
    ensures Kept(s, s)
  {
  }

  /** What the descriptor of an address says. */
  lemma {:induction false} LeafEntry(s: St, d: nat, va: nat, table: nat)
    requires Inv(s) && Node(d, 3, PageOf(va) / N_PTE) in s.tab && s.tab[Node(d, 3, PageOf(va) / N_PTE)] == table
    ensures table < |s.pages| && |s.pages[table]| == N_PTE
    ensures s.pages[table][PageOf(va) % N_PTE] == LeafOf(s, Key(d, PageOf(va)))
    ensures Key(d, PageOf(va)) in s.leaf ==>
      var e := s.leaf[Key(d, PageOf(va))]; ValidBit(e) && Frame(e) < |s.role| && s.role[Frame(e)] == DataPage
  {
    hide QueueOk, ParentsOk, CountsOk, ZeroOk, Count;
    var x, i := Node(d, 3, PageOf(va) / N_PTE), PageOf(va) % N_PTE;
    assert s.pages[s.tab[x]][i] == EntryOf(s, x, i);
    assert PageOf(va) / N_PTE * N_PTE + PageOf(va) % N_PTE == PageOf(va);
  }

  lemma {:induction false} UnmapKept(s: St, k: Key, s': St)
    requires k in s.leaf && Frame(s.leaf[k]) < |s.refs| == |s.role|
    requires var x := Node(k.dir, 3, k.pn / N_PTE); x in s.tab && s.tab[x] < |s.pages| && |s.pages[s.tab[x]]| == N_PTE
    requires s' == Unmap(s, k)
    ensures Kept(s, s') && s'.leaf == s.leaf - {k}
  {
  }

  lemma WholePages(r: nat, size: int)
    requires r % PAGE_SIZE == 0 && size % PAGE_SIZE == 0
    ensures (r + size) % U64 % PAGE_SIZE == 0
  {
    var n, m := r / PAGE_SIZE, size / PAGE_SIZE;
    assert r + size == (n + m) * PAGE_SIZE;
    var k, rest := (r + size) / U64, (r + size) % U64;
    var pages := n + m - k * (U64 / PAGE_SIZE);
    assert rest == pages * PAGE_SIZE;
    DivIs(rest, pages, PAGE_SIZE, 0);
  }

  lemma {:induction false} FreshUnmapped(s: St, g: nat, k: Key)
    requires Inv(s) && FreshPage(s, g) && k in s.leaf
    ensures Frame(s.leaf[k]) != g
  {
    NoMapping(s, g);
  }

  lemma {:induction false} ZeroStays(s: St, k: Key, f: nat, e: nat, s': St)
    requires k in s.leaf && Frame(s.leaf[k]) < |s.refs| == |s.role| && f < |s.refs|
    requires var x := Node(k.dir, 3, k.pn / N_PTE); x in s.tab && s.tab[x] < |s.pages| && |s.pages[s.tab[x]]| == N_PTE
    requires s' == Swapped(s, k, f, e)
    ensures |s'.role| == |s.role| && forall g :: 0 <= g < |s.role| && g != Frame(s.leaf[k]) ==> s'.role[g] == s.role[g]
    ensures Frame(s.leaf[k]) == s.zero ==> s'.role == s.role
  {
  }

  /** A write to a page that is mapped read-only. */
  ghost predicate Shared(s: St, k: Key, write: bool) {
    k in s.leaf && ReadOnly(s.leaf[k]) && write
  }

  /** Those are exactly the faults by user code on a page that it may read and not write. */
  lemma {:induction false} CopiesWriteProtected(s: St, d: nat, va: nat)
    requires Inv(s) && d in s.roots && UserAccess(s.pages, s.roots[d], va, 0, false).Reaches?
    ensures UserAccess(s.pages, s.roots[d], va, 0, true).Faults? <==> Shared(s, Key(d, PageOf(va)), true)
  {
    hide Inv, UserAccess, PageOf;
    AccessIsFlatMap(s, d, va, false);
    AccessIsFlatMap(s, d, va, true);
    hide HasBit;
    assert HasBit(LeafOf(s, Key(d, PageOf(va))), 0x80) <==> ReadOnly(LeafOf(s, Key(d, PageOf(va)))) by {
      SameBit(LeafOf(s, Key(d, PageOf(va))));
    }
    ZeroFaults(false);
  }

  lemma SameBit(e: nat)
    ensures HasBit(e, 0x80) <==> ReadOnly(e)
  {
  }

  /** What the page of a handled fault holds. */
  ghost function Contents(s: St, k: Key, write: bool): (words: seq<nat>) {
    if Shared(s, k, write) && Frame(s.leaf[k]) < |s.pages| then s.pages[Frame(s.leaf[k])] else ZeroPage()
  }

  /** Between `s` and `s'` page `g` was taken from the queue, and tables may have been made. */
  ghost predicate GotPage(s: St, s': St, g: nat) {
    && g < |s.role| == |s'.role| == |s.hold| == |s'.hold| == |s.pages| == |s'.pages| && s.role[g] == FreePage
    && s'.leaf == s.leaf && s'.zero == s.zero
    && (forall f :: 0 <= f < |s.role| && f != g ==> (s'.role[f] == DataPage <==> s.role[f] == DataPage))
    && (forall f :: 0 <= f < |s.role| && s.role[f] == DataPage ==> s'.hold[f] == s.hold[f] && s'.pages[f] == s.pages[f])
  }

  lemma {:induction false} GotOne(s: St, s1: St, s': St, g: nat)
    requires Inv(s) && FreshPage(s1, g) && s.free != [] && s.free[0] == g < |s.pages| && s1 == TakePage(s)
      && s.role[g] == FreePage
    requires Walked(s1, s')
    ensures GotPage(s, s', g) && FreshPage(s', g) && g < SPAN
    ensures g < |s.role| && s'.leaf == s.leaf && s'.roots.Keys == s.roots.Keys
  {
    hide QueueOk, NodesOk, ParentsOk, EntriesOk, LeavesOk, CountsOk, ZeroOk;
  }

  /** The references that are not mappings, after a fault; the one of a mapping that was
      overwritten without being given back is among them. */
  ghost predicate Accounted(s: St, s': St, g: nat, k: Key, write: bool) {
    && g < |s.role| == |s'.role| == |s.hold| == |s'.hold| && s'.zero == s.zero && g != s.zero
    && s'.role[g] == DataPage && s'.hold[g] == 0
    && (forall f :: 0 <= f < |s.role| && f != g && s'.role[f] == DataPage ==>
          && s.role[f] == DataPage
          && s'.hold[f] == s.hold[f] + if k in s.leaf && !Shared(s, k, write) && f == Frame(s.leaf[k]) then 1 else 0)
    && (k in s.leaf && !Shared(s, k, write) ==>
          Frame(s.leaf[k]) < |s.role| && Frame(s.leaf[k]) != g && s'.role[Frame(s.leaf[k])] == DataPage)
  }

  lemma {:induction false} ExactIff(s: St, s2: St, s': St, g: nat, k: Key, write: bool)
    requires Inv(s) && GotPage(s, s2, g) && Accounted(s2, s', g, k, write)
    ensures Shared(s2, k, write) == Shared(s, k, write)
    ensures Contents(s2, k, write) == Contents(s, k, write)
    ensures Exact(s) ==> (Exact(s') <==> k !in s.leaf || Shared(s, k, write))
  {
    hide QueueOk, NodesOk, ParentsOk, EntriesOk, CountsOk, ZeroOk;
  }

  lemma {:induction false} SameSizes(s: St)
    requires Inv(s)
    ensures |s.pages| == |s.refs| == |s.role| == |s.hold|
  {
  }

  /** A handled fault: `page`, which was free, is mapped at `k` for user data and holds what
      it should; nothing else is mapped differently; counts that were exact still are if and
      only if no mapping was overwritten with its page not given back. */
  ghost predicate Served(s: St, s': St, k: Key, page: nat, write: bool) {
    && page < SPAN && page < |s.role| && s.role[page] == FreePage
    && s'.leaf == s.leaf[k := UserPage(page)]
    && page < |s'.pages| && s'.pages[page] == Contents(s, k, write)
    && (Exact(s) ==> (Exact(s') <==> k !in s.leaf || Shared(s, k, write)))
  }

  /** add_to_queue of every usable page in turn. */
  method BuildQueue(first: nat, n: nat) returns (queue: seq<nat>)
    requires 0 < first < n
    ensures NoDup(queue) && |queue| == n - first && forall f :: f in queue <==> first <= f < n
  {
    queue := [];
    var p := first;
    while p < n
      invariant first <= p <= n && NoDup(queue) && |queue| == p - first
      invariant forall f :: f in queue <==> first <= f < p
    {
      ghost var was := queue;
      queue := [p] + queue;
      assert forall i :: 0 < i < |queue| ==> queue[i] == was[i - 1] && queue[i] in was;
      p := p + 1;
    }
  }

  lemma {:induction false} Booted(first: nat, n: nat, queue: seq<nat>, s: St)
    requires 0 < first < n <= SPAN
    requires NoDup(queue) && |queue| == n - first && forall f :: f in queue <==> first <= f < n
    requires |s.pages| == |s.refs| == |s.role| == |s.hold| == n && s.zero == queue[0] && s.free == queue[1..]
    requires forall i :: 0 <= i < n ==> s.pages[i] == ZeroPage()
    requires forall i :: 0 <= i < n ==> s.refs[i] == s.hold[i] == if i == s.zero then 1 else 0
    requires forall i :: 0 <= i < n ==>
      s.role[i] == if i < first then Reserved else if i == s.zero then DataPage else FreePage
    requires s.cnt == 1 && s.total == n - first && s.roots == map[] && s.tab == map[] && s.leaf == map[]
    ensures Inv(s) && Exact(s)
  {
    var f := queue[0];
    assert f in queue;
    assert queue == [f] + s.free;
    assert forall g :: g in s.free <==> g in queue && g != f;
    CountNone(s.leaf, f);
    hide Count;
    assert QueueOk(s) && ZeroOk(s);
  }
}
