/** The size-class allocator of the kernel (src/kernel/mem.c). */
module KernelHeap {

  const PAGE_SIZE := 4096
  const U64 := 0x1_0000_0000_0000_0000
  /** Where the blocks of a page begin, behind its header. */
  const HEADER := 64
  const CLASSES := 13
  /** A size as the callers of kalloc pass it. */
  type isize = x: int | -0x8000_0000_0000_0000 <= x < 0x8000_0000_0000_0000

  // ---------- powers ----------

  function Power(a: nat, b: nat): (p: nat) {
    if b == 0 then 1 else a * Power(a, b - 1)
  }

  lemma {:induction false} PowerDouble(a: nat, b: nat)
    ensures Power(a, 2 * b) == Power(a * a, b)
  {
    if b > 0 {
      PowerDouble(a, b - 1);
      assert Power(a, 2 * b) == a * Power(a, 2 * b - 1) == a * (a * Power(a, 2 * (b - 1)));
    }
  }

  lemma ModMul(x: nat, y: nat, m: nat)
    requires m > 0
    ensures x * y % m == x % m * y % m
  {
    var q, r := x / m, x % m;
    assert x * y == (q * y) * m + r * y;
    ModAdd(r * y, q * y, m);
  }

  /** Quotient and remainder are unique. */
  lemma Unique(a: int, b: nat, q: int, r: nat, m: nat)
    requires b < m && r < m && a * m + b == q * m + r
    ensures b == r
  {
    var d := a - q;
    assert d * m == r - b;
    assert d >= 1 ==> d * m >= m;
    assert -d >= 1 ==> -d * m >= m;
  }

  lemma ModAdd(x: nat, k: nat, m: nat)
    requires m > 0
    ensures (k * m + x) % m == x % m
  {
    var y := k * m + x;
    var q := x / m;
    assert y == (k + q) * m + x % m by { assert (k + q) * m == k * m + q * m; }
    Unique(k + q, x % m, y / m, y % m, m);
  }

  lemma {:induction false} PowerMod(a: nat, b: nat, m: nat)
    requires m > 0
    ensures Power(a, b) % m == Power(a % m, b) % m
  {
    if b > 0 {
      PowerMod(a, b - 1, m);
      var p, p' := Power(a, b - 1), Power(a % m, b - 1);
      ModMul(a, p, m);
      assert a * p % m == a % m * p % m;
      ModMul(p, a % m, m);
      ModMul(p', a % m, m);
      assert p * (a % m) == a % m * p && p' * (a % m) == a % m * p';
    }
  }

  /** pow: fast exponentiation in 64-bit arithmetic. */
  method Pow(a0: nat, b0: nat) returns (ans: nat)
    ensures ans == Power(a0, b0) % 0x1_0000_0000_0000_0000
  {
    ans := 1;
    var a: nat, b: nat := a0, b0;
    while b > 0
      invariant 0 <= ans < U64 && ans * Power(a, b) % U64 == Power(a0, b0) % U64
      decreases b
    {
      ghost var ans1, a1, b1 := ans, a, b;
      if b % 2 == 1 { ans := ans * a % U64; }
      b := b / 2;
      a := a * a % U64;
      PowStep(ans1, a1, b1, ans, a, b);
    }
  }

  lemma {:induction false} PowStep(ans: nat, a: nat, b: nat, ans': nat, a': nat, b': nat)
    requires b > 0 && b' == b / 2 && a' == a * a % U64
    requires ans' == if b % 2 == 1 then ans * a % U64 else ans
    ensures ans' * Power(a', b') % U64 == ans * Power(a, b) % U64
  {
    var p := Power(a * a, b');
    PowerDouble(a, b');
    PowerMod(a * a, b', U64);
    SameMod(Power(a', b'), p, ans', U64);
    if b % 2 == 1 {
      assert b == 2 * b' + 1;
      Regroup(ans, a, p, U64);
    }
  }

  lemma Regroup(x: nat, a: nat, p: nat, m: nat)
    requires m > 0
    ensures x * a % m * p % m == x * (a * p) % m
  {
    ModMul(x * a, p, m);
    assert x * a * p == x * (a * p);
  }

  lemma SameMod(x: nat, y: nat, k: nat, m: nat)
    requires m > 0 && x % m == y % m
    ensures k * x % m == k * y % m
  {
    ModMul(x, k, m);
    ModMul(y, k, m);
    assert x * k == k * x && y * k == k * y;
  }

  /** get_lowest_pow: the class of a size is the least power of two that fits. */
  method GetLowestPow(size: nat) returns (k: nat)
    ensures k < CLASSES
    ensures 0 < size <= PAGE_SIZE ==> Power(2, k) >= size && (k > 0 ==> Power(2, k - 1) < size)
    ensures size == 0 ==> k == 0
    ensures size > PAGE_SIZE ==> k == 12
  {
    if size <= 0 { return 0; }
    var rest: nat := size - 1;
    k := 0;
    Powers();
    assert forall j: nat :: j <= 12 ==> Power(2, j) <= PAGE_SIZE by { PowersBound(); }
    hide Power;
    while k <= 12
      invariant 0 <= k <= 13 && rest * Power(2, k) <= size - 1 < (rest + 1) * Power(2, k)
      invariant k > 0 ==> Power(2, k - 1) < size
    {
      if rest == 0 { return; }
      PowerNext(k);
      Halve(rest, Power(2, k), size - 1);
      rest := rest / 2;
      k := k + 1;
    }
    k := 12;
  }

  lemma PowerNext(k: nat)
    ensures Power(2, k + 1) == 2 * Power(2, k)
  {
  }

  lemma PowersBound()
    ensures forall j: nat :: j <= 12 ==> Power(2, j) <= PAGE_SIZE
  {
    Powers();
    forall j: nat | j <= 12 ensures Power(2, j) <= PAGE_SIZE {
      if j < 12 { PowerMonotone(j, 12); }
    }
  }

  lemma Halve(rest: nat, p: nat, x: nat)
    requires rest > 0 && rest * p <= x < (rest + 1) * p
    ensures rest / 2 * (2 * p) <= x < (rest / 2 + 1) * (2 * p) && p <= x
  {
    var h := rest / 2;
    assert rest == 2 * h || rest == 2 * h + 1;
    assert h * (2 * p) == 2 * h * p && (h + 1) * (2 * p) == (2 * h + 2) * p;
    assert rest * p >= 2 * h * p && (rest + 1) * p <= (2 * h + 2) * p;
    assert rest * p >= p;
  }

  lemma Powers()
    ensures Power(2, 0) == 1 && Power(2, 1) == 2 && Power(2, 2) == 4 && Power(2, 3) == 8 && Power(2, 4) == 16
      && Power(2, 5) == 32
    ensures Power(2, 6) == 64 && Power(2, 7) == 128 && Power(2, 8) == 256 && Power(2, 9) == 512
    ensures Power(2, 10) == 1024 && Power(2, 11) == 2048 && Power(2, 12) == 4096 && Power(2, 13) == 8192
  {
    assert Power(2, 4) == 16 && Power(2, 8) == 256 && Power(2, 12) == 4096;
  }

  // ---------- blocks ----------

  /** get_page_header */
  function Base(p: nat): (b: nat) {
    p - p % PAGE_SIZE
  }

  /** Block `i` of a page of blocks of `size` bytes. */
  predicate Place(b: nat, size: nat, i: nat, p: nat) {
    p == b + HEADER + i * size && HEADER + i * size + size <= PAGE_SIZE
  }

  /** The lists and page headers, and the blocks that are in use with the size asked for. */
  datatype Heap = Heap(lists: seq<seq<nat>>, header: map<nat, nat>, live: map<nat, nat>)

  /** `p` is a block of some page. */
  ghost predicate Block(header: map<nat, nat>, p: nat) {
    Base(p) in header && exists i: nat :: Place(Base(p), header[Base(p)], i, p)
  }

  /** `p` is in free list `k`. */
  predicate Listed(h: Heap, k: nat, p: nat) {
    k < |h.lists| && p in h.lists[k]
  }

  ghost predicate NoDup(q: seq<nat>) {
    forall i, j :: 0 <= i < j < |q| ==> q[i] != q[j]
  }

  /** Pages belong to one class each, 8 to 2048 bytes. */
  ghost predicate HeadersOk(h: Heap) {
    forall b :: b in h.header ==> b % PAGE_SIZE == 0 && exists k: nat :: 3 <= k <= 11 && h.header[b] == Power(2, k)
  }

  /** Free lists hold blocks of their class, once each, none of which is in use. */
  ghost predicate ListsOk(h: Heap) {
    && |h.lists| == CLASSES
    && (forall k :: 0 <= k < CLASSES ==> NoDup(h.lists[k]))
    && (forall k, p :: Listed(h, k, p) ==> Block(h.header, p) && h.header[Base(p)] == Power(2, k) && p !in h.live)
  }

  /** Blocks in use are large enough. */
  ghost predicate LiveOk(h: Heap) {
    forall p :: p in h.live ==> Block(h.header, p) && h.live[p] <= h.header[Base(p)]
  }

  /** No block is lost, but for those of page `b` from `from` on. */
  ghost predicate AllThere(h: Heap, b: nat, from: nat) {
    forall p: nat :: Block(h.header, p) ==> p in h.live || (exists k :: Listed(h, k, p)) || (Base(p) == b && p >= from)
  }

  ghost predicate HeapOk(h: Heap, b: nat, from: nat) {
    HeadersOk(h) && ListsOk(h) && LiveOk(h) && AllThere(h, b, from)
  }

  lemma {:induction false} PowerMonotone(j: nat, k: nat)
    requires j < k
    ensures Power(2, j) < Power(2, k) && Power(2, j) > 0
    decreases k
  {
    if j + 1 < k { PowerMonotone(j, k - 1); } else { PowerPositive(j); }
  }

  lemma {:induction false} PowerPositive(k: nat)
    ensures Power(2, k) > 0
  {
    if k > 0 { PowerPositive(k - 1); }
  }

  lemma {:induction false} PowerInjective(j: nat, k: nat)
    requires Power(2, j) == Power(2, k)
    ensures j == k
  {
    if j < k { PowerMonotone(j, k); } else if k < j { PowerMonotone(k, j); }
  }

  /** A block lies in its page, behind the header. */
  lemma BlockInside(h: Heap, p: nat)
    requires HeadersOk(h) && Block(h.header, p)
    ensures Base(p) + HEADER <= p && p + h.header[Base(p)] <= Base(p) + PAGE_SIZE
  {
    var i: nat :| Place(Base(p), h.header[Base(p)], i, p);
    Inside(i, h.header[Base(p)]);
  }

  /** Different blocks do not overlap. */
  lemma BlocksDisjoint(h: Heap, p: nat, q: nat)
    requires HeadersOk(h) && Block(h.header, p) && Block(h.header, q) && p < q
    ensures p + h.header[Base(p)] <= q
  {
    var b, c := Base(p), Base(q);
    var i: nat :| Place(b, h.header[b], i, p);
    var j: nat :| Place(c, h.header[c], j, q);
    var k: nat :| 3 <= k <= 11 && h.header[b] == Power(2, k);
    PowerPositive(k);
    if b == c {
      Apart(i, j, h.header[b]);
    } else {
      BasesApart(p, q);
      BlockInside(h, p);
    }
  }

  lemma Inside(i: nat, size: nat)
    ensures i * size >= 0
  {
  }

  lemma Apart(i: nat, j: nat, size: nat)
    requires size > 0 && i * size < j * size
    ensures i * size + size <= j * size
  {
    if j > i { Mono(i + 1, j, size); } else { Mono(j, i, size); }
    assert (i + 1) * size == i * size + size;
  }

  lemma Mono(a: nat, b: nat, k: nat)
    requires a <= b
    ensures a * k <= b * k
  {
    assert b * k == a * k + (b - a) * k;
  }

  lemma BasesApart(p: nat, q: nat)
    requires p < q && Base(p) != Base(q)
    ensures Base(p) + PAGE_SIZE <= Base(q)
  {
  }

  // ---------- what the steps keep ----------

  /** add_memory of a block that is neither free nor in use. */
  function Added(h: Heap, k: nat, p: nat): (r: Heap)
    requires k < |h.lists|
  {
    h.(lists := h.lists[k := [p] + h.lists[k]])
  }

  lemma AddedListed(h: Heap, k: nat, p: nat)
    requires k < |h.lists|
    ensures forall j, q :: Listed(Added(h, k, p), j, q) <==> Listed(h, j, q) || (j == k && q == p)
  {
  }

  lemma {:induction false} AddedKeeps(h: Heap, k: nat, p: nat, b: nat, from: nat, from': nat)
    requires HeapOk(h, b, from) && k < CLASSES && Block(h.header, p) && h.header[Base(p)] == Power(2, k)
    requires p !in h.live && (forall j :: !Listed(h, j, p)) && from <= from'
    requires forall q: nat :: Block(h.header, q) && Base(q) == b && from <= q < from' ==> q == p
    ensures HeapOk(Added(h, k, p), b, from')
  {
    hide Block, Base, Power;
    var h' := Added(h, k, p);
    AddedListed(h, k, p);
    AddedThere(h, k, p, b, from, from');
    hide AllThere;
    assert !Listed(h, k, p);
    ConsNoDup(p, h.lists[k]);
  }

  lemma ConsNoDup(p: nat, q: seq<nat>)
    requires NoDup(q) && p !in q
    ensures NoDup([p] + q)
  {
  }

  lemma AddedThere(h: Heap, k: nat, p: nat, b: nat, from: nat, from': nat)
    requires AllThere(h, b, from) && k < |h.lists| && from <= from'
    requires forall q: nat :: Block(h.header, q) && Base(q) == b && from <= q < from' ==> q == p
    ensures AllThere(Added(h, k, p), b, from')
  {
    hide Block, Base;
    AddedListed(h, k, p);
    var h' := Added(h, k, p);
    hide Listed;
    forall q: nat | Block(h'.header, q)
      ensures q in h'.live || (exists j :: Listed(h', j, q)) || (Base(q) == b && q >= from')
    {
      if exists j :: Listed(h, j, q) {
        var j :| Listed(h, j, q);
        assert Listed(h', j, q);
      }
      if q == p { assert Listed(h', k, p); }
    }
  }

  /** A block leaves its list and is handed out. */
  function Handed(h: Heap, k: nat, size: nat): (r: Heap)
    requires k < |h.lists| && h.lists[k] != []
  {
    h.(lists := h.lists[k := h.lists[k][1..]], live := h.live[h.lists[k][0] := size])
  }

  lemma {:induction false} HandedKeeps(h: Heap, k: nat, size: nat, b: nat, from: nat)
    requires HeapOk(h, b, from) && k < CLASSES && h.lists[k] != [] && size <= Power(2, k)
    ensures HeapOk(Handed(h, k, size), b, from) && h.lists[k][0] !in h.live && Block(h.header, h.lists[k][0])
    ensures h.header[Base(h.lists[k][0])] == Power(2, k)
  {
    hide Block, Power, Base;
    var h', p := Handed(h, k, size), h.lists[k][0];
    assert Listed(h, k, p);
    HandedListed(h, k, size);
    HandedThere(h, k, size, b, from);
    hide AllThere;
    TailNoDup(h.lists[k]);
    hide NoDup;
    assert |h'.lists| == CLASSES && forall j :: 0 <= j < CLASSES ==> NoDup(h'.lists[j]);
  }

  lemma TailNoDup(q: seq<nat>)
    requires NoDup(q) && q != []
    ensures NoDup(q[1..])
  {
  }

  lemma HandedListed(h: Heap, k: nat, size: nat)
    requires ListsOk(h) && k < CLASSES && h.lists[k] != []
    ensures forall j, q :: Listed(Handed(h, k, size), j, q) <==> Listed(h, j, q) && q != h.lists[k][0]
  {
    hide Block, Base, Power;
    var h', p := Handed(h, k, size), h.lists[k][0];
    assert Listed(h, k, p);
    assert h.lists[k] == [p] + h'.lists[k];
    forall j, q ensures Listed(h', j, q) <==> Listed(h, j, q) && q != p {
      if Listed(h, j, p) { PowerInjective(j, k); }
    }
  }

  lemma HandedThere(h: Heap, k: nat, size: nat, b: nat, from: nat)
    requires AllThere(h, b, from) && k < |h.lists| && h.lists[k] != []
    requires forall j, q :: Listed(Handed(h, k, size), j, q) <==> Listed(h, j, q) && q != h.lists[k][0]
    ensures AllThere(Handed(h, k, size), b, from)
  {
    hide Block, Listed, Base;
    var h', p := Handed(h, k, size), h.lists[k][0];
    forall q: nat | Block(h'.header, q)
      ensures q in h'.live || (exists j :: Listed(h', j, q)) || (Base(q) == b && q >= from)
    {
      if exists j :: Listed(h, j, q) {
        var j :| Listed(h, j, q);
        assert q != p ==> Listed(h', j, q);
      }
    }
  }

  /** A new page of blocks. */
  lemma {:induction false} NewPage(h: Heap, b: nat, k: nat, h': Heap)
    requires HeapOk(h, 0, PAGE_SIZE) && b % PAGE_SIZE == 0 && b !in h.header && 3 <= k <= 11
    requires h' == h.(header := h.header[b := Power(2, k)])
    ensures HeapOk(h', b, b)
  {
    hide Block, Power, Base;
    NewPageBlocks(h, b, Power(2, k), h');
    assert forall j, q :: Listed(h', j, q) == Listed(h, j, q);
    NewPageThere(h, b, h');
    hide AllThere, Listed;
  }

  lemma NewPageBlocks(h: Heap, b: nat, size: nat, h': Heap)
    requires b !in h.header && h' == h.(header := h.header[b := size])
    ensures forall p: nat :: Block(h.header, p) ==>
      Block(h'.header, p) && Base(p) != b && h'.header[Base(p)] == h.header[Base(p)]
    ensures forall p: nat :: Block(h'.header, p) && Base(p) != b ==> Block(h.header, p)
  {
    hide Base, Place;
    forall p: nat | Block(h.header, p)
      ensures Block(h'.header, p) && Base(p) != b && h'.header[Base(p)] == h.header[Base(p)]
    {
      var i: nat :| Place(Base(p), h.header[Base(p)], i, p);
      assert Place(Base(p), h'.header[Base(p)], i, p);
    }
    forall p: nat | Block(h'.header, p) && Base(p) != b ensures Block(h.header, p) {
      var i: nat :| Place(Base(p), h'.header[Base(p)], i, p);
      assert Place(Base(p), h.header[Base(p)], i, p);
    }
  }

  lemma NewPageThere(h: Heap, b: nat, h': Heap)
    requires AllThere(h, 0, PAGE_SIZE) && h'.live == h.live && h'.lists == h.lists
    requires forall p: nat :: Block(h'.header, p) && Base(p) != b ==> Block(h.header, p)
    ensures AllThere(h', b, b)
  {
    hide Block, Base;
    forall p: nat | Block(h'.header, p)
      ensures p in h'.live || (exists j :: Listed(h', j, p)) || (Base(p) == b && p >= b)
    {
      BaseBelow(p);
      if Base(p) != b {
        assert Block(h.header, p);
        if exists j :: Listed(h, j, p) {
          var j :| Listed(h, j, p);
          assert Listed(h', j, p);
        }
      }
    }
  }

  lemma BaseBelow(p: nat)
    ensures Base(p) <= p < Base(p) + PAGE_SIZE
  {
  }

  /** Block `i` of the new page `b` is added. */
  lemma {:induction false} CarveStep(h: Heap, b: nat, k: nat, i: nat, p: nat, from: nat)
    requires HeapOk(h, b, from) && b % PAGE_SIZE == 0 && b in h.header && k < CLASSES && h.header[b] == Power(2, k)
    requires p == b + HEADER + i * Power(2, k) && p + Power(2, k) <= b + PAGE_SIZE
    requires from == if i == 0 then b else p
    requires p !in h.live && forall j :: !Listed(h, j, p)
    ensures HeapOk(Added(h, k, p), b, p + Power(2, k))
  {
    hide HeapOk, Power;
    var size := Power(2, k);
    PowerPositive(k);
    BaseOf(b, HEADER + i * size);
    assert Place(b, size, i, p);
    forall q: nat | Block(h.header, q) && Base(q) == b && from <= q < p + size ensures q == p {
      var j: nat :| Place(b, size, j, q);
      OnlyHere(b, size, i, j);
    }
    AddedKeeps(h, k, p, b, from, p + size);
  }

  lemma OnlyHere(b: nat, size: nat, i: nat, j: nat)
    requires size > 0 && (i == 0 || i * size <= j * size) && j * size < i * size + size
    ensures i == j
  {
    assert (i + 1) * size == i * size + size && (j + 1) * size == j * size + size;
    if i < j { Mono(i + 1, j, size); } else if j < i { Mono(j + 1, i, size); }
  }

  lemma BaseOf(b: nat, o: nat)
    requires b % PAGE_SIZE == 0 && o < PAGE_SIZE
    ensures Base(b + o) == b
  {
  }

  /** Behind the last block that fits there is none. */
  lemma CarveDone(h: Heap, b: nat, p: nat)
    requires HeapOk(h, b, p) && b in h.header && p + h.header[b] > b + PAGE_SIZE
    ensures HeapOk(h, 0, PAGE_SIZE)
  {
    hide HeadersOk, ListsOk, LiveOk;
    forall q: nat | Block(h.header, q) ensures !(Base(q) == b && q >= p) {
      if Base(q) == b {
        var j: nat :| Place(b, h.header[b], j, q);
      }
    }
  }

  // ---------- kalloc and kfree ----------

  datatype Option = None | Some(value: nat)

  class Allocator {
    /** memory_table, each list head first. */
    var lists: seq<seq<nat>>
    /** The block size in the header of every page of blocks. */
    var header: map<nat, nat>
    /** The pages kalloc_page will return. */
    var supply: seq<nat>
    ghost var live: map<nat, nat>

    ghost function H(): (h: Heap)
      reads this
    {
      Heap(lists, header, live)
    }

    ghost predicate Valid()
      reads this
    {
      && HeapOk(H(), 0, PAGE_SIZE)
      && NoDup(supply) && (forall b :: b in supply ==> b % PAGE_SIZE == 0 && b !in header)
    }

    constructor (pages: seq<nat>)
      requires NoDup(pages) && forall b :: b in pages ==> b % PAGE_SIZE == 0
      ensures Valid() && live == map[]
    {
      lists := seq(CLASSES, _ => []);
      header, supply, live := map[], pages, map[];
    }

    /** The blocks of a fresh page are added to the list of their class. */
    method Carve(b: nat, k: nat)
      requires HeapOk(H(), b, b) && |lists| == CLASSES && b % PAGE_SIZE == 0 && b in header && 3 <= k <= 11
        && header[b] == Power(2, k)
      requires forall p: nat :: Base(p) == b ==> p !in live && forall j :: !Listed(H(), j, p)
      modifies this`lists
      ensures HeapOk(H(), 0, PAGE_SIZE) && |lists| == CLASSES && lists[k] != []
    {
      hide HeapOk;
      Powers();
      assert HEADER + header[b] <= PAGE_SIZE;
      hide Power;
      var size := header[b];
      var p := b + HEADER;
      ghost var i: nat := 0;
      while p + size <= b + PAGE_SIZE
        invariant p == b + HEADER + i * size && size == header[b] == Power(2, k) > 0
        invariant HeapOk(H(), b, if i == 0 then b else p) && |lists| == CLASSES
        invariant forall q: nat :: Base(q) == b ==> q !in live && forall j :: Listed(H(), j, q) ==> q < p
        invariant i > 0 ==> lists[k] != []
        decreases b + PAGE_SIZE - p
      {
        BaseOf(b, p - b);
        CarveStep(H(), b, k, i, p, if i == 0 then b else p);
        AddedListed(H(), k, p);
        lists := lists[k := [p] + lists[k]];
        assert i * size + size == (i + 1) * size;
        i, p := i + 1, p + size;
      }
      CarveDone(H(), b, p);
    }

    /** A fresh page of blocks of `size` bytes, which is class `k`. */
    method NewBlocks(k: nat, size: nat)
      requires Valid() && 3 <= k <= 11 && size == Power(2, k) && supply != []
      modifies this`lists, this`header, this`supply
      ensures Valid() && lists[k] != []
    {
      hide Power, Base, HeapOk;
      SupplyHead(supply);
      ghost var h := H();
      var b := supply[0];
      supply := supply[1..];
      header := header[b := size];
      NewPage(h, b, k, H());
      NotYet(h, b);
      assert forall j, p :: Listed(H(), j, p) == Listed(h, j, p);
      Carve(b, k);
    }

    /** kalloc: a block of the least class that fits, from a fresh page if there is none
        free. It fails, which stops the kernel, exactly on sizes above 2048, negative ones
        among them, and when neither a block of the class nor a page is free. */
    method Kalloc(size: isize) returns (r: Option)
      requires Valid()
      modifies this
      ensures r.None? <==>
        size < 0 || size > 2048 || (old(supply) == [] && NoneOf(old(lists), if size < 8 then 8 else size))
      ensures r.None? ==> Valid() && H() == old(H()) && supply == old(supply)
      ensures r.Some? ==> forall k: nat :: k < |old(lists)| && ClassFor(k, if size < 8 then 8 else size) ==>
        old(lists)[k] != [] ==> r.value == old(lists)[k][0] && lists == old(lists)[k := old(lists)[k][1..]]
      ensures r.Some? ==> Valid() && r.value !in old(live) && live == old(live)[r.value := if size < 8 then 8 else size]
      ensures r.Some? ==> Base(r.value) in header && Least(header[Base(r.value)], if size < 8 then 8 else size)
    {
      var u: nat := if size < 0 then size + U64 else size;
      if u < 8 { u := 8; }
      var k := GetLowestPow(u);
      ClassOf(u, k);
      var block := Pow(2, k);
      if k == 12 {
        // a page has no room for a block of its own size: the head of the list is NULL, which
        // pop_memory follows
        TopIsEmpty(H());
        assert lists[k] == [];
        return None;
      }
      NoneOfClass(lists, k, u);
      hide Power, HeapOk, Base, Least, NoneOf, ClassFor;
      if lists[k] == [] {
        if supply == [] { return None; }
        NewBlocks(k, block);
      }
      OneClass(k, u);
      HandedKeeps(H(), k, u, 0, PAGE_SIZE);
      var p := lists[k][0];
      lists := lists[k := lists[k][1..]];
      live := live[p := u];
      r := Some(p);
    }

    /** kfree: the block goes back to the list of the class it came from. */
    method Kfree(p: nat)
      requires Valid() && p in live
      modifies this`lists, this`live
      ensures Valid() && live == old(live) - {p} && Base(p) in header
      ensures exists k: nat ::
        k < CLASSES && header[Base(p)] == Power(2, k) && lists == old(lists)[k := [p] + old(lists)[k]]
    {
      ghost var h := H();
      var size := header[Base(p)];
      ghost var c := LiveBlock(h, p);
      var k := GetLowestPow(size);
      LowestOfPower(c, k);
      FreedKeeps(h, p, k);
      hide HeapOk, Power, Base;
      lists := lists[k := [p] + lists[k]];
      live := live - {p};
    }
  }

  /** Class `k` is the least one, from 8 bytes on, that holds `size` bytes. */
  ghost predicate ClassFor(k: nat, size: nat) {
    3 <= k <= 11 && size <= Power(2, k) && (k > 3 ==> Power(2, k - 1) < size)
  }

  /** Blocks of `block` bytes are the smallest that hold `size` bytes. */
  ghost predicate Least(block: nat, size: nat) {
    exists k: nat :: ClassFor(k, size) && block == Power(2, k)
  }

  /** No block of the least class that holds `size` bytes is free. */
  ghost predicate NoneOf(lists: seq<seq<nat>>, size: nat) {
    forall k: nat :: ClassFor(k, size) && k < |lists| ==> lists[k] == []
  }

  lemma {:induction false} OneClass(k: nat, size: nat)
    requires ClassFor(k, size)
    ensures forall j: nat :: ClassFor(j, size) ==> j == k
  {
    forall j: nat | ClassFor(j, size) ensures j == k {
      if j + 1 < k { PowerMonotone(j, k - 1); }
      if k + 1 < j { PowerMonotone(k, j - 1); }
    }
  }

  lemma {:induction false} NoneOfClass(lists: seq<seq<nat>>, k: nat, size: nat)
    requires ClassFor(k, size) && k < |lists|
    ensures NoneOf(lists, size) <==> lists[k] == []
  {
    OneClass(k, size);
  }

  /** The classes of sizes up to 2048 are 3 to 11, larger sizes get class 12. */
  lemma ClassOf(u: nat, k: nat)
    requires u >= 8 && k < CLASSES && (u <= PAGE_SIZE ==> Power(2, k) >= u && (k > 0 ==> Power(2, k - 1) < u))
    requires u > PAGE_SIZE ==> k == 12
    ensures k == 12 <==> u > 2048
    ensures k < 12 ==> ClassFor(k, u) && Least(Power(2, k), u) && Power(2, k) % U64 == Power(2, k)
  {
    Powers();
  }

  /** There is never a block of class 12. */
  lemma TopIsEmpty(h: Heap)
    requires HeapOk(h, 0, PAGE_SIZE)
    ensures |h.lists| == CLASSES && h.lists[12] == []
  {
    if h.lists[12] != [] {
      var p := h.lists[12][0];
      assert Listed(h, 12, p);
      var k: nat :| 3 <= k <= 11 && h.header[Base(p)] == Power(2, k);
      PowerInjective(k, 12);
    }
  }

  lemma SupplyHead(supply: seq<nat>)
    requires NoDup(supply) && supply != []
    ensures NoDup(supply[1..]) && supply[0] in supply && forall b :: b in supply[1..] ==> b in supply && b != supply[0]
  {
  }

  /** No block of a page without a header is known. */
  lemma NotYet(h: Heap, b: nat)
    requires HeapOk(h, 0, PAGE_SIZE) && b !in h.header
    ensures |h.lists| == CLASSES
    ensures forall p: nat :: Base(p) == b ==> p !in h.live && forall j :: !Listed(h, j, p)
  {
    hide Base, AllThere, HeadersOk;
  }

  lemma LiveBlock(h: Heap, p: nat) returns (k: nat)
    requires HeapOk(h, 0, PAGE_SIZE) && p in h.live
    ensures Base(p) in h.header && 3 <= k <= 11 && h.header[Base(p)] == Power(2, k) && Block(h.header, p)
    ensures |h.lists| == CLASSES && 0 < Power(2, k) <= PAGE_SIZE
  {
    k :| 3 <= k <= 11 && h.header[Base(p)] == Power(2, k);
    Powers();
  }

  lemma LowestOfPower(c: nat, k: nat)
    requires Power(2, k) >= Power(2, c) && (k > 0 ==> Power(2, k - 1) < Power(2, c))
    ensures k == c
  {
    if k < c { PowerMonotone(k, c); }
    else if k > c { if k - 1 > c { PowerMonotone(c, k - 1); } }
  }

  /** kfree is add_memory of a block that is not in use any more. */
  lemma {:induction false} FreedKeeps(h: Heap, p: nat, k: nat)
    requires HeapOk(h, 0, PAGE_SIZE) && p in h.live && k < CLASSES && Block(h.header, p)
      && h.header[Base(p)] == Power(2, k)
    ensures HeapOk(Added(h.(live := h.live - {p}), k, p), 0, PAGE_SIZE)
  {
    hide Power, Base, Block;
    var h1 := h.(live := h.live - {p});
    assert forall j :: !Listed(h, j, p);
    assert forall j, q :: Listed(h1, j, q) == Listed(h, j, q);
    AddedListed(h1, k, p);
    FreedThere(h, p, k);
    hide AllThere;
    assert !Listed(h, k, p);
    ConsNoDup(p, h.lists[k]);
  }

  lemma FreedThere(h: Heap, p: nat, k: nat)
    requires AllThere(h, 0, PAGE_SIZE) && k < |h.lists|
    ensures AllThere(Added(h.(live := h.live - {p}), k, p), 0, PAGE_SIZE)
  {
    hide Block, Base;
    var h' := Added(h.(live := h.live - {p}), k, p);
    forall q: nat | Block(h'.header, q)
      ensures q in h'.live || (exists j :: Listed(h', j, q)) || (Base(q) == 0 && q >= PAGE_SIZE)
    {
      if q == p { assert Listed(h', k, p); }
      if exists j :: Listed(h, j, q) {
        var j :| Listed(h, j, q);
        assert Listed(h', j, q);
      }
    }
  }

  /** What callers rely on: a block in use is aligned, large enough, behind the header of its
      page and inside the page, and in no free list. */
  ghost predicate SafeBlock(h: Heap, p: nat)
    requires p in h.live
  {
    && p % 8 == 0 && Base(p) in h.header && h.live[p] <= h.header[Base(p)]
    && Base(p) + 64 <= p && p + h.header[Base(p)] <= Base(p) + 4096
    && forall k :: !Listed(h, k, p)
  }

  /** In use or free. */
  ghost predicate Known(h: Heap, q: nat) {
    q in h.live || exists k :: Listed(h, k, q)
  }

  ghost predicate NoOverlap(h: Heap, p: nat, q: nat) {
    && Base(p) in h.header && Base(q) in h.header
    && (p + h.header[Base(p)] <= q || q + h.header[Base(q)] <= p)
  }

  /** Every block in use is safe, and overlaps no other block, in use or free. */
  ghost predicate AllSafe(h: Heap) {
    && (forall p :: p in h.live ==> SafeBlock(h, p))
    && (forall p, q :: p in h.live && Known(h, q) && p != q ==> NoOverlap(h, p, q))
  }

  lemma LiveBlockSafe(h: Heap, p: nat)
    requires HeapOk(h, 0, PAGE_SIZE) && p in h.live
    ensures SafeBlock(h, p)
  {
    BlockInside(h, p);
    Aligned(h, p);
  }

  lemma LiveBlockAlone(h: Heap, p: nat, q: nat)
    requires HeapOk(h, 0, PAGE_SIZE) && p in h.live && Known(h, q) && p != q
    ensures NoOverlap(h, p, q)
  {
    if p < q { BlocksDisjoint(h, p, q); } else { BlocksDisjoint(h, q, p); }
  }

  /** Every block that fits behind a page's header is in use or in a free list. */
  ghost predicate NoneLost(h: Heap) {
    forall b, i: nat :: b in h.header ==> Fits(b, h.header[b], i) ==> Kept(h, BlockAt(b, h.header[b], i))
  }

  ghost predicate Kept(h: Heap, p: nat) {
    p in h.live || exists k :: Listed(h, k, p)
  }

  function BlockAt(b: nat, size: nat, i: nat): (p: nat) {
    b + 64 + i * size
  }

  predicate Fits(b: nat, size: nat, i: nat) {
    BlockAt(b, size, i) + size <= b + 4096
  }

  lemma BlocksKept(h: Heap)
    requires HeapOk(h, 0, PAGE_SIZE)
    ensures NoneLost(h)
  {
    hide HeapOk, Kept, Fits, BlockAt;
    forall b, i: nat | b in h.header && Fits(b, h.header[b], i)
      ensures Kept(h, BlockAt(b, h.header[b], i))
    {
      BlockKept(h, b, i);
    }
  }

  lemma BlockKept(h: Heap, b: nat, i: nat)
    requires HeapOk(h, 0, PAGE_SIZE) && b in h.header && Fits(b, h.header[b], i)
    ensures Kept(h, BlockAt(b, h.header[b], i))
  {
    var k: nat :| 3 <= k <= 11 && h.header[b] == Power(2, k);
    PowerPositive(k);
    PlaceOf(b, h.header[b], i);
    hide Base, Power, Place, Fits, BlockAt;
  }

  lemma PlaceOf(b: nat, size: nat, i: nat)
    requires b % PAGE_SIZE == 0 && size > 0 && Fits(b, size, i)
    ensures var p := BlockAt(b, size, i);
      Base(p) == b && Place(b, size, i, p) && (b == 0 ==> p < PAGE_SIZE)
  {
    BaseOf(b, HEADER + i * size);
  }

  lemma LiveBlocksSafe(h: Heap)
    requires HeapOk(h, 0, PAGE_SIZE)
    ensures AllSafe(h)
  {
    hide HeapOk, SafeBlock, NoOverlap, Known;
    forall p | p in h.live ensures SafeBlock(h, p) { LiveBlockSafe(h, p); }
    forall p, q | p in h.live && Known(h, q) && p != q ensures NoOverlap(h, p, q) { LiveBlockAlone(h, p, q); }
  }

  lemma Aligned(h: Heap, p: nat)
    requires HeadersOk(h) && Block(h.header, p)
    ensures p % 8 == 0
  {
    var b := Base(p);
    var i: nat :| Place(b, h.header[b], i, p);
    var k: nat :| 3 <= k <= 11 && h.header[b] == Power(2, k);
    PowerSum(3, k);
    Powers();
    Eights(b, i, Power(2, k - 3), p);
  }

  lemma Eights(b: nat, i: nat, m: nat, p: nat)
    requires b % PAGE_SIZE == 0 && p == b + HEADER + i * (8 * m)
    ensures p % 8 == 0
  {
    var n := i * m;
    assert i * (8 * m) == 8 * n;
    assert p == b + HEADER + 8 * n;
  }

  lemma Twice(a: nat, b: nat)
    ensures a * (2 * b) == 2 * (a * b)
  {
  }

  lemma {:induction false} PowerSum(j: nat, k: nat)
    requires j <= k
    ensures Power(2, k) == Power(2, j) * Power(2, k - j)
    decreases k
  {
    if j < k {
      PowerSum(j, k - 1);
      var a, b := Power(2, j), Power(2, k - 1 - j);
      PowerNext(k - 1 - j);
      PowerNext(k - 1);
      hide Power;
      Twice(a, b);
    }
  }

  // ---------- any run ----------

  datatype Request = Ask(size: isize) | GiveBack(block: nat)

  /** Over any run of kalloc and kfree of blocks in use, blocks in use stay safe. The run
      ends early, after `n` requests, only at a size that no class holds, or without pages. */
  method Serve(a: Allocator, reqs: seq<Request>, inUse: set<nat>) returns (ok: bool, n: nat)
    requires a.Valid() && inUse == a.live.Keys
    modifies a
    ensures a.Valid() && AllSafe(a.H()) && NoneLost(a.H())
    ensures ok ==> n == |reqs|
    ensures !ok ==> n < |reqs| && reqs[n].Ask? && (reqs[n].size < 0 || reqs[n].size > 2048 || a.supply == [])
  {
    hide HeapOk, Base, Power, Least;
    var used := inUse;
    ok, n := true, 0;
    while n < |reqs|
      invariant 0 <= n <= |reqs| && a.Valid() && used == a.live.Keys
    {
      match reqs[n] {
        case Ask(size) =>
          var r := a.Kalloc(size);
          if r.None? {
            LiveBlocksSafe(a.H());
            BlocksKept(a.H());
            return false, n;
          }
          used := used + {r.value};
        case GiveBack(p) =>
          if p in used {
            a.Kfree(p);
            used := used - {p};
          }
      }
      n := n + 1;
    }
    LiveBlocksSafe(a.H());
    BlocksKept(a.H());
  }
}
