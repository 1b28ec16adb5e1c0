/** What inodes mean: the blocks they reach, the bytes of their files, and which blocks
    belong to whom (src/fs/inode.c over the contents that src/fs/cache.c keeps). */
module FileSpec {
  import opened FsLayout
  import opened Bitmaps
  import opened InodeFormat

  /** The last synced contents of the disk, and the current entry of every inode. */
  datatype Image = Image(d: Disk, es: seq<Entry>)

  // ---------- slots: the places where an inode keeps block numbers ----------

  const SLOTS := 141
  const INDIRECT := 12

  /** Slot `k` of inode `i`: the direct addresses, the indirect block, its addresses. */
  function Slot(im: Image, i: nat, k: nat): (b: nat) {
    if i >= |im.es| || k >= SLOTS then 0
    else if k < INODE_NUM_DIRECT then im.es[i].addrs[k]
    else if k == INDIRECT then im.es[i].indirect
    else if 0 < im.es[i].indirect < |im.d| then GetAddr(im.d[im.es[i].indirect], k - 13)
    else 0
  }

  /** The slot of block `k` of a file. */
  function FileSlot(k: nat): (r: nat) {
    if k < INODE_NUM_DIRECT then k else k + 1
  }

  /** The image after storing `b` in a slot. */
  function SetSlot(im: Image, i: nat, k: nat, b: nat): (r: Image)
    requires i < |im.es| && k < SLOTS
    requires k > INDIRECT ==> 0 < im.es[i].indirect < |im.d|
    ensures |r.es| == |im.es| && |r.d| == |im.d|
  {
    var e := im.es[i];
    if k < INODE_NUM_DIRECT then im.(es := im.es[i := e.(addrs := e.addrs[k := b])])
    else if k == INDIRECT then im.(es := im.es[i := e.(indirect := b)])
    else im.(d := im.d[e.indirect := PutAddr(im.d[e.indirect], k - 13, b)])
  }

  lemma SetDirect(im: Image, n: nat, k: nat, b: nat)
    requires n < |im.es| && k < INODE_NUM_DIRECT
    ensures forall i, l :: Slot(SetSlot(im, n, k, b), i, l) == if i == n && l == k then b else Slot(im, i, l)
  {
  }

  lemma SetAddr(im: Image, n: nat, k: nat, b: nat)
    requires n < |im.es| && INDIRECT < k < SLOTS && 0 < im.es[n].indirect < |im.d| && b < 0x1_0000_0000
    requires forall i :: 0 <= i < |im.es| && i != n ==> im.es[i].indirect != im.es[n].indirect
    ensures forall i, l :: Slot(SetSlot(im, n, k, b), i, l) == if i == n && l == k then b else Slot(im, i, l)
  {
    var r := SetSlot(im, n, k, b);
    forall i: nat, l: nat ensures Slot(r, i, l) == if i == n && l == k then b else Slot(im, i, l) {
      if i == n && INDIRECT < l < SLOTS { GetPutAddr(im.d[im.es[n].indirect], k - 13, b, l - 13); }
    }
  }

  lemma SetIndirect(im: Image, n: nat, b: nat)
    requires n < |im.es|
    requires forall l :: INDIRECT < l < SLOTS ==> Slot(im, n, l) == 0
    requires b == 0 || (b < |im.d| && im.d[b] == ZeroBlock())
    ensures forall i, l ::
      Slot(SetSlot(im, n, INDIRECT, b), i, l) == if i == n && l == INDIRECT then b else Slot(im, i, l)
  {
    var r := SetSlot(im, n, INDIRECT, b);
    forall i: nat, l: nat ensures Slot(r, i, l) == if i == n && l == INDIRECT then b else Slot(im, i, l) {
      if i == n && INDIRECT < l < SLOTS { ZeroAddrs(l - 13); }
    }
  }

  // ---------- the layout of the disk ----------

  function NumInodeBlocks(sb: SuperBlock): (n: nat) {
    (sb.numInodes + INODE_PER_BLOCK - 1) / INODE_PER_BLOCK
  }

  predicate InInodes(sb: SuperBlock, b: nat) {
    sb.inodeStart <= b < sb.inodeStart + NumInodeBlocks(sb)
  }

  /** Blocks that are never given to files. Address 0 stands for no block. */
  predicate Meta(sb: SuperBlock, b: nat) {
    b == 0 || sb.InLog(b) || InInodes(sb, b) || InBitmap(sb, b)
  }

  predicate Layout(sb: SuperBlock) {
    && sb.numBlocks <= 0x1_0000_0000
    && sb.bitmapStart + NumBitmapBlocks(sb) <= sb.numBlocks
    && sb.inodeStart + NumInodeBlocks(sb) <= sb.numBlocks
    && (sb.inodeStart + NumInodeBlocks(sb) <= sb.bitmapStart
        || sb.bitmapStart + NumBitmapBlocks(sb) <= sb.inodeStart)
  }

  /** Block `b` is marked in the bitmap. */
  predicate InUse(sb: SuperBlock, d: Disk, b: nat) {
    b < sb.numBlocks == |d| && sb.bitmapStart + NumBitmapBlocks(sb) <= sb.numBlocks && Used(sb, d, b)
  }

  /** The entry of inode `i` on the disk. */
  function EntryAt(sb: SuperBlock, d: Disk, i: nat): (e: Entry)
    requires i < sb.numInodes && sb.inodeStart + NumInodeBlocks(sb) <= |d|
  {
    GetEntry(d[sb.inodeStart + i / INODE_PER_BLOCK], i % INODE_PER_BLOCK)
  }

  function WithEntry(sb: SuperBlock, d: Disk, i: nat, e: Entry): (r: Disk)
    requires i < sb.numInodes && sb.inodeStart + NumInodeBlocks(sb) <= |d|
    ensures |r| == |d|
  {
    var b := sb.inodeStart + i / INODE_PER_BLOCK;
    d[b := PutEntry(d[b], i % INODE_PER_BLOCK, e)]
  }

  lemma {:induction false} WithEntryOnly(sb: SuperBlock, d: Disk, i: nat, e: Entry)
    requires Layout(sb) && |d| == sb.numBlocks && i < sb.numInodes && Fits(e)
    ensures forall j :: 0 <= j < sb.numInodes ==>
      EntryAt(sb, WithEntry(sb, d, i, e), j) == if j == i then e else EntryAt(sb, d, j)
    ensures forall b :: 0 <= b < |d| && !InInodes(sb, b) ==> WithEntry(sb, d, i, e)[b] == d[b]
  {
    forall j | 0 <= j < sb.numInodes
      ensures EntryAt(sb, WithEntry(sb, d, i, e), j) == if j == i then e else EntryAt(sb, d, j)
    {
      if j / INODE_PER_BLOCK == i / INODE_PER_BLOCK {
        GetPutEntry(d[sb.inodeStart + i / INODE_PER_BLOCK], i % INODE_PER_BLOCK, e, j % INODE_PER_BLOCK);
      }
    }
  }

  // ---------- who owns which block ----------

  /** Slots hold distinct marked data blocks. */
  ghost predicate SlotsOk(sb: SuperBlock, im: Image) {
    && (forall i, k :: Slot(im, i, k) != 0 ==> !Meta(sb, Slot(im, i, k)) && InUse(sb, im.d, Slot(im, i, k)))
    && (forall i, k, j, l :: Slot(im, i, k) == Slot(im, j, l) != 0 ==> i == j && k == l)
  }

  ghost predicate Ok(sb: SuperBlock, im: Image) {
    && Layout(sb) && |im.d| == sb.numBlocks && |im.es| == sb.numInodes
    && (forall b :: 0 <= b < sb.numBlocks && Meta(sb, b) ==> InUse(sb, im.d, b))
    && SlotsOk(sb, im)
  }

  /** Every entry but `n`'s is on the disk as it is in memory. */
  ghost predicate Stored(sb: SuperBlock, im: Image, n: nat)
    requires Layout(sb) && |im.d| == sb.numBlocks && |im.es| == sb.numInodes
  {
    forall i :: 0 <= i < sb.numInodes && i != n ==> EntryAt(sb, im.d, i) == im.es[i]
  }

  ghost predicate Owned(im: Image, b: nat) {
    exists i, k :: Slot(im, i, k) == b
  }

  /** Marked, but in no inode's reach. */
  ghost predicate Extra(sb: SuperBlock, im: Image, b: nat) {
    InUse(sb, im.d, b) && !Owned(im, b)
  }

  /** No block was lost or gained: what is marked and not owned is as before. */
  ghost predicate Conserved(sb: SuperBlock, im: Image, im': Image) {
    forall b: nat :: b != 0 ==> (Extra(sb, im', b) <==> Extra(sb, im, b))
  }

  // ---------- steps on blocks ----------

  /** Writing a block that is neither metadata nor an indirect block. */
  lemma {:induction false} TouchBlock(sb: SuperBlock, im: Image, b: nat, data: Block)
    requires Layout(sb) && |im.d| == sb.numBlocks && b < sb.numBlocks && !Meta(sb, b)
    requires forall i :: 0 <= i < |im.es| ==> im.es[i].indirect != b
    ensures var d := im.d[b := data];
      && (forall i, k :: Slot(Image(d, im.es), i, k) == Slot(im, i, k))
      && (forall x :: InUse(sb, d, x) == InUse(sb, im.d, x))
      && (forall i :: 0 <= i < sb.numInodes ==> EntryAt(sb, d, i) == EntryAt(sb, im.d, i))
  {
    forall i | 0 <= i < sb.numInodes ensures !(sb.inodeStart + i / INODE_PER_BLOCK == b) {
      assert InInodes(sb, sb.inodeStart + i / INODE_PER_BLOCK);
    }
    forall x | 0 <= x < sb.numBlocks ensures sb.bitmapStart + x / BIT_PER_BLOCK != b {
      assert InBitmap(sb, sb.bitmapStart + x / BIT_PER_BLOCK);
    }
  }

  /** Writing a bitmap block. */
  lemma {:induction false} TouchBitmap(sb: SuperBlock, im: Image, b: nat, data: Block)
    requires Layout(sb) && |im.d| == sb.numBlocks && b < sb.numBlocks && InBitmap(sb, b)
    requires forall i :: 0 <= i < |im.es| && im.es[i].indirect != 0 ==> !Meta(sb, im.es[i].indirect)
    ensures var d := im.d[b := data];
      && (forall i, k :: Slot(Image(d, im.es), i, k) == Slot(im, i, k))
      && (forall i :: 0 <= i < sb.numInodes ==> EntryAt(sb, d, i) == EntryAt(sb, im.d, i))
  {
    forall i | 0 <= i < sb.numInodes ensures !(sb.inodeStart + i / INODE_PER_BLOCK == b) {
      assert InInodes(sb, sb.inodeStart + i / INODE_PER_BLOCK);
    }
  }

  /** Writing an inode block. */
  lemma {:induction false} TouchInodes(sb: SuperBlock, im: Image, b: nat, data: Block)
    requires Layout(sb) && |im.d| == sb.numBlocks && b < sb.numBlocks && InInodes(sb, b)
    requires forall i :: 0 <= i < |im.es| && im.es[i].indirect != 0 ==> !Meta(sb, im.es[i].indirect)
    ensures var d := im.d[b := data];
      && (forall i, k :: Slot(Image(d, im.es), i, k) == Slot(im, i, k))
      && (forall x :: InUse(sb, d, x) == InUse(sb, im.d, x))
  {
    forall x | 0 <= x < sb.numBlocks ensures sb.bitmapStart + x / BIT_PER_BLOCK != b {
      assert InBitmap(sb, sb.bitmapStart + x / BIT_PER_BLOCK);
    }
  }

  lemma {:induction false} IndirectsAreData(sb: SuperBlock, im: Image)
    requires Ok(sb, im)
    ensures forall i :: 0 <= i < |im.es| && im.es[i].indirect != 0 ==>
      !Meta(sb, im.es[i].indirect) && InUse(sb, im.d, im.es[i].indirect)
    ensures forall i, j :: 0 <= i < |im.es| && 0 <= j < |im.es| && i != j && im.es[i].indirect != 0 ==>
      im.es[i].indirect != im.es[j].indirect
  {
    assert forall i :: 0 <= i < |im.es| ==> Slot(im, i, INDIRECT) == im.es[i].indirect;
  }

  /** The contents of data blocks are kept, slot by slot, but for slot `k` of inode `n`. */
  ghost predicate DataKept(im: Image, im': Image, n: nat, k: nat) {
    |im'.d| == |im.d| &&
    forall i, l :: Slot(im, i, l) != 0 && l != INDIRECT && !(i == n && l == k) && Slot(im, i, l) < |im.d| ==>
      Slot(im', i, l) == Slot(im, i, l) && im'.d[Slot(im, i, l)] == im.d[Slot(im, i, l)]
  }

  /** The contents after cache_alloc has returned `b`. */
  function Allocated(sb: SuperBlock, d: Disk, b: nat): (r: Disk)
    requires |d| == sb.numBlocks && b < sb.numBlocks && sb.bitmapStart + NumBitmapBlocks(sb) <= sb.numBlocks
    ensures |r| == |d|
  {
    Marked(sb, d, b)[b := ZeroBlock()]
  }

  /** What the inode layer relies on when cache_alloc returns `b`, or finds no block: the
      least block that is not marked is marked and zeroed, or all are marked. */
  ghost predicate AllocPromise(sb: SuperBlock, d: Disk, ok: bool, b: nat, d': Disk)
    requires |d| == sb.numBlocks && sb.bitmapStart + NumBitmapBlocks(sb) <= sb.numBlocks
  {
    && (forall x: nat :: x < (if ok then b else sb.numBlocks) ==> InUse(sb, d, x))
    && if ok then b < sb.numBlocks && !InUse(sb, d, b) && d' == Allocated(sb, d, b) else d' == d
  }

  /** cache_alloc touches no slot and no entry, and marks one block. */
  lemma {:induction false} AllocView(sb: SuperBlock, im: Image, b: nat, im': Image)
    requires Ok(sb, im) && b < sb.numBlocks && !InUse(sb, im.d, b)
    requires im' == Image(Allocated(sb, im.d, b), im.es)
    ensures forall i, k :: Slot(im', i, k) == Slot(im, i, k)
    ensures forall x: nat :: InUse(sb, im'.d, x) <==> x == b || InUse(sb, im.d, x)
    ensures !Meta(sb, b)
    ensures forall i :: 0 <= i < sb.numInodes ==> EntryAt(sb, im'.d, i) == EntryAt(sb, im.d, i)
    ensures forall x :: 0 <= x < |im.d| && x != b && !InBitmap(sb, x) ==> im'.d[x] == im.d[x]
  {
    IndirectsAreData(sb, im);
    hide Slot, EntryAt, SlotsOk;
    var q := sb.bitmapStart + b / BIT_PER_BLOCK;
    assert InBitmap(sb, q);
    assert !Meta(sb, b);
    var d1 := Marked(sb, im.d, b);
    assert d1 == im.d[q := d1[q]];
    TouchBitmap(sb, im, q, d1[q]);
    TouchBlock(sb, Image(d1, im.es), b, ZeroBlock());
    forall x: nat ensures InUse(sb, im'.d, x) <==> x == b || InUse(sb, im.d, x) {
      if x < sb.numBlocks { MarkedOnly(sb, im.d, b, x); }
    }
  }

  /** cache_alloc takes a data block that nobody owns. */
  lemma {:induction false} AllocKeeps(sb: SuperBlock, im: Image, b: nat, im': Image)
    requires Ok(sb, im) && b < sb.numBlocks && !InUse(sb, im.d, b)
    requires im' == Image(Allocated(sb, im.d, b), im.es)
    ensures Ok(sb, im')
    ensures forall i, k :: Slot(im', i, k) == Slot(im, i, k) != b
    ensures forall x: nat :: InUse(sb, im'.d, x) <==> x == b || InUse(sb, im.d, x)
    ensures !Meta(sb, b)
    ensures forall i :: 0 <= i < sb.numInodes ==> EntryAt(sb, im'.d, i) == EntryAt(sb, im.d, i)
    ensures DataKept(im, im', 0, SLOTS)
  {
    hide Slot, InUse, EntryAt, Allocated;
    AllocView(sb, im, b, im');
  }

  /** A slot may be given `b`. */
  ghost predicate MaySet(im: Image, n: nat, k: nat, b: nat) {
    && n < |im.es| && k < SLOTS && b < 0x1_0000_0000
    && (k > INDIRECT ==> 0 < im.es[n].indirect < |im.d|)
    && (k == INDIRECT ==>
          && (forall l :: INDIRECT < l < SLOTS ==> Slot(im, n, l) == 0)
          && (b == 0 || (b < |im.d| && im.d[b] == ZeroBlock())))
  }

  lemma {:induction false} SetSlotView(sb: SuperBlock, im: Image, n: nat, k: nat, b: nat)
    requires Ok(sb, im) && MaySet(im, n, k, b)
    ensures forall i, l :: Slot(SetSlot(im, n, k, b), i, l) == if i == n && l == k then b else Slot(im, i, l)
    ensures forall x: nat :: InUse(sb, SetSlot(im, n, k, b).d, x) == InUse(sb, im.d, x)
    ensures forall i :: 0 <= i < sb.numInodes ==> EntryAt(sb, SetSlot(im, n, k, b).d, i) == EntryAt(sb, im.d, i)
  {
    IndirectsAreData(sb, im);
    if k < INDIRECT {
      SetDirect(im, n, k, b);
    } else if k == INDIRECT {
      SetIndirect(im, n, b);
    } else {
      var e := im.es[n];
      SetAddr(im, n, k, b);
      var rest := Image(im.d, []);
      TouchBlock(sb, rest, e.indirect, PutAddr(im.d[e.indirect], k - 13, b));
    }
  }

  lemma {:induction false} SetSlotData(sb: SuperBlock, im: Image, n: nat, k: nat, b: nat, im': Image)
    requires Ok(sb, im) && MaySet(im, n, k, b) && im' == SetSlot(im, n, k, b)
    requires forall i, l :: Slot(im', i, l) == if i == n && l == k then b else Slot(im, i, l)
    ensures DataKept(im, im', n, k)
  {
    assert k > INDIRECT ==> Slot(im, n, INDIRECT) == im.es[n].indirect;
  }

  /** Storing a block that nobody owns in an empty slot. */
  lemma {:induction false} GiveKeeps(sb: SuperBlock, im: Image, n: nat, k: nat, b: nat, im': Image)
    requires Ok(sb, im) && MaySet(im, n, k, b) && im' == SetSlot(im, n, k, b)
    requires Slot(im, n, k) == 0 && b != 0 && !Meta(sb, b) && InUse(sb, im.d, b)
    requires forall i, l :: Slot(im, i, l) != b
    ensures Ok(sb, im')
    ensures forall i, l :: Slot(im', i, l) == if i == n && l == k then b else Slot(im, i, l)
    ensures forall x: nat :: InUse(sb, im'.d, x) == InUse(sb, im.d, x)
    ensures forall i :: 0 <= i < sb.numInodes ==> EntryAt(sb, im'.d, i) == EntryAt(sb, im.d, i)
    ensures DataKept(im, im', 0, SLOTS)
  {
    SetSlotView(sb, im, n, k, b);
    SetSlotData(sb, im, n, k, b, im');
    hide Slot, SetSlot, MaySet, Meta, InUse;
  }

  /** Allocation and storing together: everything else is kept, and no block is lost. */
  lemma {:induction false} AllocGive(sb: SuperBlock, im: Image, n: nat, k: nat, b: nat, im1: Image, im': Image)
    requires Ok(sb, im) && b < sb.numBlocks && !InUse(sb, im.d, b)
    requires im1 == Image(Allocated(sb, im.d, b), im.es)
    requires n < |im.es| && k < SLOTS && (k > INDIRECT ==> 0 < im.es[n].indirect < |im.d|)
    requires k == INDIRECT ==> forall l :: INDIRECT < l < SLOTS ==> Slot(im, n, l) == 0
    requires Slot(im, n, k) == 0 && im' == SetSlot(im1, n, k, b)
    ensures Ok(sb, im') && b != 0
    ensures forall i, l :: Slot(im', i, l) == if i == n && l == k then b else Slot(im, i, l)
    ensures forall x: nat :: InUse(sb, im'.d, x) <==> x == b || InUse(sb, im.d, x)
    ensures forall i :: 0 <= i < sb.numInodes ==> EntryAt(sb, im'.d, i) == EntryAt(sb, im.d, i)
    ensures DataKept(im, im', 0, SLOTS)
    ensures Conserved(sb, im, im')
  {
    AllocKeeps(sb, im, b, im1);
    hide Ok, Slot, Meta, InUse;
    assert MaySet(im1, n, k, b);
    GiveKeeps(sb, im1, n, k, b, im');
    hide SetSlot, MaySet;
    OwnedGrows(im, im', n, k, b);
  }

  lemma OwnedGrows(im: Image, im': Image, n: nat, k: nat, b: nat)
    requires Slot(im, n, k) == 0
    requires forall i, l :: Slot(im', i, l) == if i == n && l == k then b else Slot(im, i, l)
    ensures forall x: nat :: x != 0 ==> (Owned(im', x) <==> x == b || Owned(im, x))
  {
    forall x: nat | x != 0 ensures Owned(im', x) <==> x == b || Owned(im, x) {
      if Owned(im, x) {
        var i, l :| Slot(im, i, l) == x;
        assert Slot(im', i, l) == x;
      }
      if x == b { assert Slot(im', n, k) == b; }
      if Owned(im', x) && x != b {
        var i, l :| Slot(im', i, l) == x;
        assert Slot(im, i, l) == x;
      }
    }
  }

  lemma OwnedShrinks(sb: SuperBlock, im: Image, im': Image, n: nat, k: nat, b: nat)
    requires SlotsOk(sb, im) && b != 0 && Slot(im, n, k) == b
    requires forall i, l :: Slot(im', i, l) == if i == n && l == k then 0 else Slot(im, i, l)
    ensures forall x: nat :: x != 0 ==> (Owned(im', x) <==> x != b && Owned(im, x))
  {
    forall x: nat | x != 0 ensures Owned(im', x) <==> x != b && Owned(im, x) {
      if Owned(im, x) && x != b {
        var i, l :| Slot(im, i, l) == x;
        assert Slot(im', i, l) == x;
      }
      if Owned(im', x) {
        var i, l :| Slot(im', i, l) == x;
        assert Slot(im, i, l) == x;
      }
    }
  }

  /** cache_free of the block in a slot. */
  lemma {:induction false} UnmarkView(sb: SuperBlock, im: Image, b: nat, im1: Image)
    requires Ok(sb, im) && b < sb.numBlocks && !Meta(sb, b) && im1 == Image(Unmarked(sb, im.d, b), im.es)
    ensures forall i, k :: Slot(im1, i, k) == Slot(im, i, k)
    ensures forall x: nat :: InUse(sb, im1.d, x) <==> x != b && InUse(sb, im.d, x)
    ensures forall i :: 0 <= i < sb.numInodes ==> EntryAt(sb, im1.d, i) == EntryAt(sb, im.d, i)
    ensures forall x :: 0 <= x < sb.numBlocks && !InBitmap(sb, x) ==> im1.d[x] == im.d[x]
  {
    IndirectsAreData(sb, im);
    var q := sb.bitmapStart + b / BIT_PER_BLOCK;
    assert InBitmap(sb, q);
    TouchBitmap(sb, im, q, im1.d[q]);
    forall x: nat ensures InUse(sb, im1.d, x) <==> x != b && InUse(sb, im.d, x) {
      if x < sb.numBlocks { UnmarkedOnly(sb, im.d, b, x); }
    }
  }

  lemma {:induction false} ClearSlotView(sb: SuperBlock, im: Image, im1: Image, n: nat, k: nat, im': Image)
    requires Ok(sb, im) && MaySet(im, n, k, 0) && im1.es == im.es && |im1.d| == |im.d| && im' == SetSlot(im1, n, k, 0)
    requires forall x :: 0 <= x < sb.numBlocks && !InBitmap(sb, x) ==> im1.d[x] == im.d[x]
    requires forall i, l :: Slot(im1, i, l) == Slot(im, i, l)
    ensures forall i, l :: Slot(im', i, l) == if i == n && l == k then 0 else Slot(im, i, l)
    ensures forall x: nat :: InUse(sb, im'.d, x) == InUse(sb, im1.d, x)
    ensures forall i :: 0 <= i < sb.numInodes ==> EntryAt(sb, im'.d, i) == EntryAt(sb, im1.d, i)
  {
    IndirectsAreData(sb, im);
    if k < INDIRECT {
      SetDirect(im1, n, k, 0);
    } else if k == INDIRECT {
      SetIndirect(im1, n, 0);
    } else {
      var e := im.es[n];
      SetAddr(im1, n, k, 0);
      TouchBlock(sb, Image(im1.d, []), e.indirect, PutAddr(im1.d[e.indirect], k - 13, 0));
    }
  }

  lemma {:induction false} ClearSlotData(sb: SuperBlock, im: Image, im1: Image, n: nat, k: nat, im': Image)
    requires Ok(sb, im) && MaySet(im, n, k, 0) && im1.es == im.es && |im1.d| == |im.d| && im' == SetSlot(im1, n, k, 0)
    requires forall x :: 0 <= x < sb.numBlocks && !InBitmap(sb, x) ==> im1.d[x] == im.d[x]
    requires forall i, l :: Slot(im', i, l) == if i == n && l == k then 0 else Slot(im, i, l)
    ensures DataKept(im, im', n, k)
  {
    assert k > INDIRECT ==> Slot(im, n, INDIRECT) == im.es[n].indirect;
  }

  /** Freeing the block of a slot and clearing the slot: that block and no other is
      unmarked, everything else is kept, and no block is lost. */
  lemma {:induction false} FreeClear(sb: SuperBlock, im: Image, n: nat, k: nat, im1: Image, im': Image)
    requires Ok(sb, im) && MaySet(im, n, k, 0) && Slot(im, n, k) != 0 && Slot(im, n, k) < |im.d|
    requires im1 == Image(Unmarked(sb, im.d, Slot(im, n, k)), im.es) && im' == SetSlot(im1, n, k, 0)
    ensures Ok(sb, im')
    ensures forall i, l :: Slot(im', i, l) == if i == n && l == k then 0 else Slot(im, i, l)
    ensures forall x: nat :: InUse(sb, im'.d, x) <==> x != Slot(im, n, k) && InUse(sb, im.d, x)
    ensures forall i :: 0 <= i < sb.numInodes ==> EntryAt(sb, im'.d, i) == EntryAt(sb, im.d, i)
    ensures DataKept(im, im', n, k)
    ensures Conserved(sb, im, im')
  {
    var b := Slot(im, n, k);
    hide Meta, InUse, MaySet, SetSlot, Slot;
    assert !Meta(sb, b);
    UnmarkView(sb, im, b, im1);
    ClearSlotView(sb, im, im1, n, k, im');
    ClearSlotData(sb, im, im1, n, k, im');
    OwnedShrinks(sb, im, im', n, k, b);
  }

  // ---------- files as byte sequences ----------

  /** Exactly the blocks of the first `size` bytes of inode `i` exist. */
  ghost predicate Sized(im: Image, i: nat, size: nat) {
    && size <= INODE_MAX_BYTES
    && (Slot(im, i, INDIRECT) != 0 <==> size > INODE_NUM_DIRECT * BLOCK_SIZE)
    && (forall k :: 0 <= k < INODE_MAX_BLOCKS ==> (Slot(im, i, FileSlot(k)) != 0 <==> k * BLOCK_SIZE < size))
  }

  function ByteAt(im: Image, i: nat, p: nat): (x: Byte) {
    var b := Slot(im, i, FileSlot(p / BLOCK_SIZE));
    if b < |im.d| then im.d[b][p % BLOCK_SIZE] else 0
  }

  /** The first `size` bytes of the file of inode `i`. */
  function Content(im: Image, i: nat, size: nat): (s: seq<Byte>)
    ensures |s| == size
    ensures forall p :: 0 <= p < size ==> s[p] == ByteAt(im, i, p)
  {
    seq(size, p requires p >= 0 => ByteAt(im, i, p))
  }

  lemma ContentKept(im: Image, im': Image, i: nat, size: nat, n: nat, k: nat)
    requires Sized(im, i, size) && DataKept(im, im', n, k) && (i != n || k >= SLOTS || k == INDIRECT)
    requires forall l :: Slot(im, i, l) < |im.d|
    ensures Content(im', i, size) == Content(im, i, size)
  {
    forall p | 0 <= p < size ensures ByteAt(im', i, p) == ByteAt(im, i, p) {
      var q := p / BLOCK_SIZE;
      assert q * BLOCK_SIZE < size && q < INODE_MAX_BLOCKS;
      assert Slot(im, i, FileSlot(q)) != 0;
    }
  }

  /** `c` with `t` written over it at `o`, growing it if need be. */
  function Overwrite(c: seq<Byte>, o: nat, t: seq<Byte>): (r: seq<Byte>)
    requires o <= |c|
    ensures |r| == if o + |t| > |c| then o + |t| else |c|
    ensures forall p :: 0 <= p < |r| ==> r[p] == if o <= p < o + |t| then t[p - o] else c[p]
  {
    c[..o] + t + (if o + |t| < |c| then c[o + |t|..] else [])
  }

  lemma OverwriteTwice(c: seq<Byte>, o: nat, t: seq<Byte>, u: seq<Byte>)
    requires o <= |c|
    ensures Overwrite(Overwrite(c, o, t), o + |t|, u) == Overwrite(c, o, t + u)
  {
  }

  /** memmove into one block of a file. */
  lemma {:induction false} ChunkWritten(sb: SuperBlock, im: Image, n: nat, size: nat, o: nat, t: seq<Byte>, im': Image)
    requires Ok(sb, im) && n < |im.es| && o <= size && Sized(im, n, if o < size then size else o + 1)
    requires o % BLOCK_SIZE + |t| <= BLOCK_SIZE && |t| > 0
    requires var b := Slot(im, n, FileSlot(o / BLOCK_SIZE));
      b < |im.d| && im' == im.(d := im.d[b := Splice(im.d[b], o % BLOCK_SIZE, t)])
    ensures Ok(sb, im')
    ensures forall i, l :: Slot(im', i, l) == Slot(im, i, l)
    ensures forall x: nat :: InUse(sb, im'.d, x) == InUse(sb, im.d, x)
    ensures forall i :: 0 <= i < sb.numInodes ==> EntryAt(sb, im'.d, i) == EntryAt(sb, im.d, i)
    ensures DataKept(im, im', n, FileSlot(o / BLOCK_SIZE))
    ensures Slot(im, n, FileSlot(o / BLOCK_SIZE)) != 0
  {
    var k := o / BLOCK_SIZE;
    assert k * BLOCK_SIZE < (if o < size then size else o + 1) && k < INODE_MAX_BLOCKS;
    var b := Slot(im, n, FileSlot(k));
    assert b != 0;
    assert forall i :: 0 <= i < |im.es| ==> Slot(im, i, INDIRECT) == im.es[i].indirect;
    assert forall i :: 0 <= i < |im.es| ==> im.es[i].indirect != b;
    TouchBlock(sb, im, b, im'.d[b]);
    hide Slot, InUse, Meta;
  }

  lemma SameBlocks(im: Image, i: nat, size: nat, size': nat)
    requires Sized(im, i, size) && size' <= INODE_MAX_BYTES
    requires (size + BLOCK_SIZE - 1) / BLOCK_SIZE == (size' + BLOCK_SIZE - 1) / BLOCK_SIZE
    ensures Sized(im, i, size')
  {
    assert forall k :: 0 <= k < INODE_MAX_BLOCKS ==> (k * BLOCK_SIZE < size <==> k * BLOCK_SIZE < size');
  }

  lemma SizedKept(im: Image, im': Image, i: nat, size: nat)
    requires Sized(im, i, size) && forall l :: Slot(im', i, l) == Slot(im, i, l)
    ensures Sized(im', i, size)
  {
  }

  /** After the memmove the file is the old one with `t` written at `o`. */
  lemma {:induction false} ChunkContent(sb: SuperBlock, im: Image, n: nat, size: nat, o: nat, t: seq<Byte>, im': Image,
      size': nat)
    requires Ok(sb, im) && n < |im.es| && o <= size && Sized(im, n, if o < size then size else o + 1)
    requires o % BLOCK_SIZE + |t| <= BLOCK_SIZE && |t| > 0 && o + |t| <= INODE_MAX_BYTES
    requires var b := Slot(im, n, FileSlot(o / BLOCK_SIZE));
      b < |im.d| && im' == im.(d := im.d[b := Splice(im.d[b], o % BLOCK_SIZE, t)])
    requires size' == if o + |t| > size then o + |t| else size
    ensures Sized(im', n, size')
    ensures Content(im', n, size') == Overwrite(Content(im, n, size), o, t)
  {
    ChunkWritten(sb, im, n, size, o, t, im');
    hide Slot, Ok;
    var was := if o < size then size else o + 1;
    SizedKept(im, im', n, was);
    ChunkEnds(o, |t|, size, was, size');
    SameBlocks(im', n, was, size');
    hide Sized, DataKept;
    forall p: nat | p < size'
      ensures ByteAt(im', n, p) == if o <= p < o + |t| then t[p - o] else ByteAt(im, n, p)
    {
      ChunkByte(im, n, was, o, t, im', p);
    }
  }

  lemma ChunkEnds(o: nat, m: nat, size: nat, was: nat, size': nat)
    requires m > 0 && o % BLOCK_SIZE + m <= BLOCK_SIZE && o <= size
    requires was == (if o < size then size else o + 1) && size' == if o + m > size then o + m else size
    ensures (was + BLOCK_SIZE - 1) / BLOCK_SIZE == (size' + BLOCK_SIZE - 1) / BLOCK_SIZE
    ensures forall p: nat :: p < size' ==> p / BLOCK_SIZE == o / BLOCK_SIZE || p < was
  {
  }

  lemma ChunkByte(im: Image, n: nat, was: nat, o: nat, t: seq<Byte>, im': Image, p: nat)
    requires o % BLOCK_SIZE + |t| <= BLOCK_SIZE && Sized(im, n, was) && (p / BLOCK_SIZE == o / BLOCK_SIZE || p < was)
    requires var b := Slot(im, n, FileSlot(o / BLOCK_SIZE));
      b < |im.d| && im' == im.(d := im.d[b := Splice(im.d[b], o % BLOCK_SIZE, t)])
    requires forall l :: Slot(im', n, l) == Slot(im, n, l)
    requires DataKept(im, im', n, FileSlot(o / BLOCK_SIZE))
    ensures ByteAt(im', n, p) == if o <= p < o + |t| then t[p - o] else ByteAt(im, n, p)
  {
    hide Slot;
    var q, k := p / BLOCK_SIZE, o / BLOCK_SIZE;
    if q == k {
      assert p % BLOCK_SIZE - o % BLOCK_SIZE == p - o;
    } else {
      assert q * BLOCK_SIZE < was && q < INODE_MAX_BLOCKS;
      assert Slot(im, n, FileSlot(q)) != 0;
      assert FileSlot(q) != FileSlot(k) && FileSlot(q) != INDIRECT;
      assert !(o <= p < o + |t|);
    }
  }

  /** Reading one chunk. */
  lemma ChunkRead(im: Image, n: nat, size: nat, o: nat, m: nat)
    requires o % BLOCK_SIZE + m <= BLOCK_SIZE && o + m <= size && m > 0
    requires Slot(im, n, FileSlot(o / BLOCK_SIZE)) < |im.d|
    ensures im.d[Slot(im, n, FileSlot(o / BLOCK_SIZE))][o % BLOCK_SIZE..o % BLOCK_SIZE + m]
      == Content(im, n, size)[o..o + m]
  {
    var b := Slot(im, n, FileSlot(o / BLOCK_SIZE));
    var r := o % BLOCK_SIZE;
    forall y | r <= y < r + m ensures im.d[b][y] == Content(im, n, size)[o - r + y] {
      assert (o - r + y) / BLOCK_SIZE == o / BLOCK_SIZE && (o - r + y) % BLOCK_SIZE == y;
    }
  }

  // ---------- the whole file system ----------

  /** Consistency, while inode `n` has blocks for `size` bytes and its entry need not be on
      the disk; with `n` past the inodes, of a file system at rest. */
  ghost predicate FsOk(sb: SuperBlock, im: Image, n: nat, size: nat) {
    && Ok(sb, im) && Stored(sb, im, n)
    && (forall i :: 0 <= i < |im.es| ==> Fits(im.es[i]) && (im.es[i].kind == INODE_INVALID ==> im.es[i].numBytes == 0))
    && (forall i :: 0 <= i < |im.es| ==> Sized(im, i, if i == n then size else im.es[i].numBytes))
  }

  /** What giving inode `n` more blocks changes, and what it does not. */
  ghost predicate Grown(sb: SuperBlock, im: Image, im': Image, n: nat) {
    && Ok(sb, im) && Ok(sb, im') && n < |im.es|
    && (forall i :: 0 <= i < |im.es| && i != n ==> im'.es[i] == im.es[i])
    && im'.es[n] == im.es[n].(addrs := im'.es[n].addrs, indirect := im'.es[n].indirect)
    && (forall i, l :: i != n ==> Slot(im', i, l) == Slot(im, i, l))
    && (forall i :: 0 <= i < sb.numInodes ==> EntryAt(sb, im'.d, i) == EntryAt(sb, im.d, i))
    && DataKept(im, im', 0, SLOTS)
    && Conserved(sb, im, im')
  }

  lemma {:induction false} GrownTwice(sb: SuperBlock, im: Image, im': Image, im'': Image, n: nat)
    requires Grown(sb, im, im', n) && Grown(sb, im', im'', n)
    ensures Grown(sb, im, im'', n)
  {
    assert |im.es| == |im'.es| == |im''.es| && |im.d| == |im'.d|;
    hide Ok, Slot, Extra;
  }

  lemma {:induction false} AllocGrows(sb: SuperBlock, im: Image, n: nat, k: nat, b: nat, im1: Image, im': Image)
    requires Ok(sb, im) && b < sb.numBlocks && !InUse(sb, im.d, b)
    requires im1 == Image(Allocated(sb, im.d, b), im.es)
    requires n < |im.es| && k < SLOTS && (k > INDIRECT ==> 0 < im.es[n].indirect < |im.d|)
    requires k == INDIRECT ==> forall l :: INDIRECT < l < SLOTS ==> Slot(im, n, l) == 0
    requires Slot(im, n, k) == 0 && im' == SetSlot(im1, n, k, b)
    ensures Grown(sb, im, im', n) && b != 0
    ensures forall l :: Slot(im', n, l) == if l == k then b else Slot(im, n, l)
  {
    AllocGive(sb, im, n, k, b, im1, im');
    hide Slot, InUse, Allocated, DataKept, Conserved;
  }

  lemma MapSized(im: Image, im': Image, n: nat, size: nat, o: nat)
    requires Sized(im, n, size) && o <= size && o < INODE_MAX_BYTES
    requires forall l :: Slot(im', n, l) != Slot(im, n, l) ==> l == FileSlot(o / BLOCK_SIZE) || l == INDIRECT
    requires Slot(im', n, FileSlot(o / BLOCK_SIZE)) != 0
    requires Slot(im', n, INDIRECT) != 0 <==> Slot(im, n, INDIRECT) != 0 || o / BLOCK_SIZE >= INODE_NUM_DIRECT
    ensures Sized(im', n, if o < size then size else o + 1)
  {
    hide Slot;
    var was := if o < size then size else o + 1;
    var q := o / BLOCK_SIZE;
    assert q * BLOCK_SIZE <= o;
    forall k | 0 <= k < INODE_MAX_BLOCKS ensures Slot(im', n, FileSlot(k)) != 0 <==> k * BLOCK_SIZE < was {
      assert k != q ==> FileSlot(k) != FileSlot(q) && FileSlot(k) != INDIRECT;
    }
  }

  lemma {:induction false} SlotsFit(sb: SuperBlock, im: Image, n: nat)
    requires Ok(sb, im) && n < |im.es|
    ensures forall k :: 0 <= k < INODE_NUM_DIRECT ==> im.es[n].addrs[k] < 0x1_0000_0000
    ensures im.es[n].indirect < 0x1_0000_0000
  {
    assert forall k :: 0 <= k < INODE_NUM_DIRECT ==> Slot(im, n, k) == im.es[n].addrs[k];
    assert Slot(im, n, INDIRECT) == im.es[n].indirect;
  }

  lemma {:induction false} GrownOk(sb: SuperBlock, im: Image, im': Image, n: nat, size: nat, size': nat)
    requires FsOk(sb, im, n, size) && Grown(sb, im, im', n) && Sized(im', n, size')
    ensures FsOk(sb, im', n, size')
  {
    SlotsFit(sb, im', n);
    forall i | 0 <= i < |im'.es| && i != n ensures Sized(im', i, im'.es[i].numBytes) {
      SizedKept(im, im', i, im.es[i].numBytes);
    }
    hide Slot, Ok, Sized, Conserved, DataKept;
  }

  lemma {:induction false} FileBlock(sb: SuperBlock, im: Image, n: nat, size: nat, o: nat)
    requires Ok(sb, im) && Sized(im, n, size) && o < size
    ensures o / BLOCK_SIZE < INODE_MAX_BLOCKS
    ensures InUse(sb, im.d, Slot(im, n, FileSlot(o / BLOCK_SIZE)))
  {
    hide Slot, InUse;
    var k := o / BLOCK_SIZE;
    assert k * BLOCK_SIZE < size;
    assert Slot(im, n, FileSlot(k)) != 0;
  }

  lemma {:induction false} SameSlots(sb: SuperBlock, im: Image, im': Image)
    requires Ok(sb, im) && |im'.d| == |im.d| && |im'.es| == |im.es|
    requires forall i, l :: Slot(im', i, l) == Slot(im, i, l)
    requires forall x: nat :: InUse(sb, im'.d, x) == InUse(sb, im.d, x)
    ensures Ok(sb, im') && Conserved(sb, im, im')
  {
    hide Slot, InUse, Meta;
  }

  /** Storing the entry of inode `n` completes its change. */
  lemma {:induction false} StoredKeeps(sb: SuperBlock, im: Image, n: nat, size: nat, im': Image)
    requires FsOk(sb, im, n, size) && n < |im.es| && size == im.es[n].numBytes
    requires im' == im.(d := WithEntry(sb, im.d, n, im.es[n]))
    ensures FsOk(sb, im', sb.numInodes, 0)
    ensures forall i, l :: Slot(im', i, l) == Slot(im, i, l)
    ensures DataKept(im, im', 0, SLOTS) && Conserved(sb, im, im')
  {
    StoredSlots(sb, im, n, im.es[n], im');
    WithEntryOnly(sb, im.d, n, im.es[n]);
    hide Slot, WithEntry, DataKept, Ok, Conserved;
    forall i | 0 <= i < |im.es| ensures Sized(im', i, im.es[i].numBytes) {
      SizedKept(im, im', i, im.es[i].numBytes);
    }
  }

  /** Writing an entry moves no block. */
  lemma {:induction false} StoredSlots(sb: SuperBlock, im: Image, n: nat, e: Entry, im': Image)
    requires Ok(sb, im) && n < |im.es| && im' == im.(d := WithEntry(sb, im.d, n, e))
    ensures Ok(sb, im')
    ensures forall i, l :: Slot(im', i, l) == Slot(im, i, l)
    ensures DataKept(im, im', 0, SLOTS) && Conserved(sb, im, im')
  {
    var b := sb.inodeStart + n / INODE_PER_BLOCK;
    IndirectsAreData(sb, im);
    assert InInodes(sb, b);
    TouchInodes(sb, im, b, im'.d[b]);
    SameSlots(sb, im, im');
    hide Slot, InUse;
  }

  /** `t` has been written at `o` of the file of inode `n`, and nothing else. */
  ghost predicate WrittenTo(sb: SuperBlock, im: Image, n: nat, size: nat, im': Image, size': nat, o: nat, t: seq<Byte>)
    requires o <= size
  {
    && |im'.es| == |im.es| && n < |im.es| && Layout(sb) && |im.d| == |im'.d| == sb.numBlocks && |im.es| == sb.numInodes
    && (forall i :: 0 <= i < |im.es| && i != n ==> im'.es[i] == im.es[i])
    && im'.es[n] == im.es[n].(addrs := im'.es[n].addrs, indirect := im'.es[n].indirect)
    && (forall i :: 0 <= i < |im.es| ==> EntryAt(sb, im'.d, i) == EntryAt(sb, im.d, i))
    && (forall i :: 0 <= i < |im.es| && i != n ==>
          Content(im', i, im.es[i].numBytes) == Content(im, i, im.es[i].numBytes))
    && Content(im', n, size') == Overwrite(Content(im, n, size), o, t)
    && Conserved(sb, im, im')
  }

  lemma {:induction false} WriteChunkProof(sb: SuperBlock, im: Image, n: nat, size: nat, o: nat, t: seq<Byte>,
      im1: Image, im': Image)
    requires FsOk(sb, im, n, size) && Grown(sb, im, im1, n) && o <= size
    requires FsOk(sb, im1, n, if o < size then size else o + 1)
    requires o % BLOCK_SIZE + |t| <= BLOCK_SIZE && |t| > 0 && o + |t| <= INODE_MAX_BYTES
    requires var b := Slot(im1, n, FileSlot(o / BLOCK_SIZE));
      b < |im1.d| && im' == im1.(d := im1.d[b := Splice(im1.d[b], o % BLOCK_SIZE, t)])
    ensures var size' := if o + |t| > size then o + |t| else size;
      FsOk(sb, im', n, size') && WrittenTo(sb, im, n, size, im', size', o, t)
  {
    var was, size' := if o < size then size else o + 1, if o + |t| > size then o + |t| else size;
    assert Sized(im1, n, was) && Sized(im, n, size);
    ChunkWritten(sb, im1, n, size, o, t, im');
    ChunkContent(sb, im1, n, size, o, t, im', size');
    SameSlots(sb, im1, im');
    ChunkOk(sb, im1, n, was, im', size');
    hide FsOk, Slot, Stored, InUse;
    GrownContents(sb, im, im1, n, size);
    hide Sized;
    OthersContents(sb, im1, im', n, FileSlot(o / BLOCK_SIZE), was);
    assert Conserved(sb, im, im');
    hide Conserved, DataKept, Ok;
  }

  lemma {:induction false} ChunkOk(sb: SuperBlock, im: Image, n: nat, was: nat, im': Image, size': nat)
    requires FsOk(sb, im, n, was) && im'.es == im.es && Ok(sb, im') && n < |im.es|
    requires forall i, l :: Slot(im', i, l) == Slot(im, i, l)
    requires forall i :: 0 <= i < sb.numInodes ==> EntryAt(sb, im'.d, i) == EntryAt(sb, im.d, i)
    requires Sized(im', n, size')
    ensures FsOk(sb, im', n, size')
  {
    hide Slot, Ok;
    forall i | 0 <= i < |im.es| && i != n ensures Sized(im', i, im.es[i].numBytes) {
      SizedKept(im, im', i, im.es[i].numBytes);
    }
    hide Sized;
  }

  lemma {:induction false} SlotsInside(sb: SuperBlock, im: Image)
    requires Ok(sb, im) && sb.numBlocks > 0
    ensures forall i, l :: Slot(im, i, l) < |im.d|
  {
    hide Slot;
  }

  /** New blocks change no file. */
  lemma {:induction false} GrownContents(sb: SuperBlock, im: Image, im': Image, n: nat, size: nat)
    requires FsOk(sb, im, n, size) && Grown(sb, im, im', n)
    ensures Content(im', n, size) == Content(im, n, size)
    ensures forall i :: 0 <= i < |im.es| && i != n ==>
      Content(im', i, im.es[i].numBytes) == Content(im, i, im.es[i].numBytes)
  {
    hide Slot;
    SlotsInside(sb, im);
    forall i: nat | i < |im.es|
      ensures var z := if i == n then size else im.es[i].numBytes; Content(im', i, z) == Content(im, i, z)
    {
      ContentKept(im, im', i, if i == n then size else im.es[i].numBytes, 0, SLOTS);
    }
  }

  lemma {:induction false} OthersContents(sb: SuperBlock, im: Image, im': Image, n: nat, k: nat, size: nat)
    requires FsOk(sb, im, n, size) && DataKept(im, im', n, k) && sb.numBlocks > 0
    ensures forall i :: 0 <= i < |im.es| && i != n ==>
      Content(im', i, im.es[i].numBytes) == Content(im, i, im.es[i].numBytes)
  {
    hide Slot;
    SlotsInside(sb, im);
    forall i: nat | i < |im.es| && i != n
      ensures Content(im', i, im.es[i].numBytes) == Content(im, i, im.es[i].numBytes)
    {
      ContentKept(im, im', i, im.es[i].numBytes, n, k);
    }
  }

  lemma {:induction false} WrittenTwice(sb: SuperBlock, im: Image, n: nat, size: nat, im1: Image, size1: nat, o: nat,
      t: seq<Byte>, im2: Image, size2: nat, u: seq<Byte>)
    requires o <= size && WrittenTo(sb, im, n, size, im1, size1, o, t) && o + |t| <= size1
    requires WrittenTo(sb, im1, n, size1, im2, size2, o + |t|, u)
    ensures WrittenTo(sb, im, n, size, im2, size2, o, t + u)
  {
    OverwriteTwice(Content(im, n, size), o, t, u);
    hide Content, Extra;
  }

  lemma {:induction false} WrittenNothing(sb: SuperBlock, im: Image, n: nat, size: nat, o: nat)
    requires Ok(sb, im) && n < |im.es| && o <= size
    ensures WrittenTo(sb, im, n, size, im, size, o, [])
  {
    assert Overwrite(Content(im, n, size), o, []) == Content(im, n, size);
  }

  /** A completed inode_write: the file of inode `n` is the old one with `t` written over it
      at `o`; every other entry and file is as before; no block is lost. */
  ghost predicate FileWritten(sb: SuperBlock, im: Image, n: nat, im': Image, o: nat, t: seq<Byte>) {
    && |im'.es| == |im.es| && n < |im.es| && o <= im.es[n].numBytes
    && (forall i :: 0 <= i < |im.es| && i != n ==> im'.es[i] == im.es[i])
    && im'.es[n] == im.es[n].(addrs := im'.es[n].addrs, indirect := im'.es[n].indirect, numBytes := im'.es[n].numBytes)
    && (forall i :: 0 <= i < |im.es| && i != n ==>
          Content(im', i, im.es[i].numBytes) == Content(im, i, im.es[i].numBytes))
    && Content(im', n, im'.es[n].numBytes) == Overwrite(Content(im, n, im.es[n].numBytes), o, t)
    && Conserved(sb, im, im')
  }

  lemma {:induction false} Resized(sb: SuperBlock, im: Image, n: nat, size: nat, im': Image)
    requires FsOk(sb, im, n, size) && n < |im.es| && 0 < size
    requires im.es[n].kind != INODE_INVALID && im' == im.(es := im.es[n := im.es[n].(numBytes := size)])
    ensures FsOk(sb, im', n, size)
    ensures forall i, l :: Slot(im', i, l) == Slot(im, i, l)
    ensures Conserved(sb, im, im')
  {
    assert forall i, l :: Slot(im', i, l) == Slot(im, i, l);
    SameSlots(sb, im, im');
    hide Slot, Ok, InUse;
    forall i | 0 <= i < |im.es| ensures Sized(im', i, if i == n then size else im.es[i].numBytes) {
      SizedKept(im, im', i, if i == n then size else im.es[i].numBytes);
    }
    hide Sized;
  }

  lemma SameContents(im: Image, im': Image, i: nat, size: nat)
    requires |im'.d| == |im.d| && (forall l :: Slot(im', i, l) == Slot(im, i, l)) && DataKept(im, im', 0, SLOTS)
      && Sized(im, i, size)
    requires forall l :: Slot(im, i, l) < |im.d|
    ensures Content(im', i, size) == Content(im, i, size)
  {
    hide Slot;
    ContentKept(im, im', i, size, 0, SLOTS);
  }

  /** The end of a write that made the file longer: the new size and the entry are stored. */
  lemma {:induction false} GrowthStored(sb: SuperBlock, im: Image, n: nat, im1: Image, size: nat, o: nat, t: seq<Byte>,
      im2: Image, im3: Image)
    requires FsOk(sb, im1, n, size) && 0 < size && n < |im1.es| == |im.es|
    requires im1.es[n].kind != INODE_INVALID && o <= im.es[n].numBytes
    requires WrittenTo(sb, im, n, im.es[n].numBytes, im1, size, o, t)
    requires im2 == im1.(es := im1.es[n := im1.es[n].(numBytes := size)])
    requires im3 == im2.(d := WithEntry(sb, im2.d, n, im2.es[n]))
    ensures FsOk(sb, im3, sb.numInodes, 0) && FileWritten(sb, im, n, im3, o, t)
  {
    Resized(sb, im1, n, size, im2);
    StoredKeeps(sb, im2, n, size, im3);
    StoredContents(sb, im1, n, size, im3);
    hide FsOk, Content, WithEntry, Slot, DataKept;
  }

  lemma {:induction false} FsSized(sb: SuperBlock, im: Image, n: nat, size: nat, i: nat)
    requires FsOk(sb, im, n, size) && i < |im.es|
    ensures Sized(im, i, if i == n then size else im.es[i].numBytes)
  {
    assert Fits(im.es[i]);
  }

  lemma {:induction false} StoredContents(sb: SuperBlock, im: Image, n: nat, size: nat, im': Image)
    requires FsOk(sb, im, n, size) && |im'.d| == |im.d| && sb.numBlocks > 0
    requires (forall i, l :: Slot(im', i, l) == Slot(im, i, l)) && DataKept(im, im', 0, SLOTS)
    ensures forall i :: 0 <= i < |im.es| ==>
      var z := if i == n then size else im.es[i].numBytes; Content(im', i, z) == Content(im, i, z)
  {
    hide Slot;
    SlotsInside(sb, im);
    forall i: nat | i < |im.es|
      ensures var z := if i == n then size else im.es[i].numBytes; Content(im', i, z) == Content(im, i, z)
    {
      FsSized(sb, im, n, size, i);
      SameContents(im, im', i, if i == n then size else im.es[i].numBytes);
    }
  }

  /** The end of a write inside the file: nothing is left to store. */
  lemma {:induction false} NothingToStore(sb: SuperBlock, im: Image, n: nat, im1: Image, o: nat, t: seq<Byte>)
    requires FsOk(sb, im, sb.numInodes, 0) && n < |im.es| && o <= im.es[n].numBytes
    requires FsOk(sb, im1, n, im.es[n].numBytes) && im1.es == im.es
    requires WrittenTo(sb, im, n, im.es[n].numBytes, im1, im.es[n].numBytes, o, t)
    ensures FsOk(sb, im1, sb.numInodes, 0) && FileWritten(sb, im, n, im1, o, t)
  {
    hide Content, Ok, Sized, Conserved;
  }

  // ---------- giving blocks back ----------

  function Below(n: nat): (s: set<nat>)
    ensures forall l: nat :: l in s <==> l < n
  {
    if n == 0 then {} else Below(n - 1) + {n - 1}
  }

  /** The blocks in the slots `gone` of inode `n`, and no others, have been freed. */
  ghost predicate Emptied(sb: SuperBlock, im: Image, im': Image, n: nat, gone: set<nat>) {
    && Ok(sb, im) && Ok(sb, im') && n < |im.es|
    && (forall i :: 0 <= i < |im.es| && i != n ==> im'.es[i] == im.es[i])
    && im'.es[n] == im.es[n].(addrs := im'.es[n].addrs, indirect := im'.es[n].indirect)
    && (forall i, l :: Slot(im', i, l) == if i == n && l in gone then 0 else Slot(im, i, l))
    && (forall x: nat :: InUse(sb, im'.d, x) <==> InUse(sb, im.d, x) && (x == 0 || !InSlots(im, n, gone, x)))
    && (forall i :: 0 <= i < sb.numInodes ==> EntryAt(sb, im'.d, i) == EntryAt(sb, im.d, i))
    && OthersKept(im, im', n)
    && Conserved(sb, im, im')
  }

  ghost predicate InSlots(im: Image, n: nat, gone: set<nat>, x: nat) {
    exists l :: l in gone && Slot(im, n, l) == x
  }

  /** The data blocks of the other inodes are as they were. */
  ghost predicate OthersKept(im: Image, im': Image, n: nat) {
    |im'.d| == |im.d| &&
    forall i, l :: i != n && Slot(im, i, l) != 0 && l != INDIRECT && Slot(im, i, l) < |im.d| ==>
      Slot(im', i, l) == Slot(im, i, l) && im'.d[Slot(im, i, l)] == im.d[Slot(im, i, l)]
  }

  lemma EmptiedNone(sb: SuperBlock, im: Image, n: nat)
    requires Ok(sb, im) && n < |im.es|
    ensures Emptied(sb, im, im, n, {})
  {
    hide Ok, Slot;
  }

  lemma EmptiedSkip(sb: SuperBlock, im: Image, im': Image, n: nat, gone: set<nat>, k: nat)
    requires Emptied(sb, im, im', n, gone) && (k in gone || Slot(im', n, k) == 0)
    ensures Emptied(sb, im, im', n, gone + {k})
  {
    hide Ok, Slot, Extra, OthersKept, InUse;
    forall x: nat | x != 0 ensures InSlots(im, n, gone + {k}, x) <==> InSlots(im, n, gone, x) {
      if InSlots(im, n, gone, x) {
        var l :| l in gone && Slot(im, n, l) == x;
        assert l in gone + {k};
      }
    }
  }

  lemma InSlotsMore(im: Image, n: nat, gone: set<nat>, k: nat, x: nat)
    ensures InSlots(im, n, gone + {k}, x) <==> InSlots(im, n, gone, x) || Slot(im, n, k) == x
  {
    if InSlots(im, n, gone, x) {
      var l :| l in gone && Slot(im, n, l) == x;
      assert l in gone + {k};
    }
    if Slot(im, n, k) == x { assert k in gone + {k}; }
  }

  /** Storing a slot changes at most the addresses in one entry. */
  lemma OneEntry(im: Image, n: nat, k: nat, b: nat)
    requires n < |im.es| && k < SLOTS && (k > INDIRECT ==> 0 < im.es[n].indirect < |im.d|)
    ensures var r := SetSlot(im, n, k, b);
      && (forall i :: 0 <= i < |im.es| && i != n ==> r.es[i] == im.es[i])
      && r.es[n] == im.es[n].(addrs := r.es[n].addrs, indirect := r.es[n].indirect)
  {
  }

  lemma {:induction false} EmptiedMore(sb: SuperBlock, im: Image, im0: Image, n: nat, gone: set<nat>, k: nat,
      im1: Image, im': Image)
    requires Emptied(sb, im, im0, n, gone) && k !in gone && MaySet(im0, n, k, 0)
    requires Slot(im0, n, k) != 0 && Slot(im0, n, k) < |im0.d|
    requires im1 == Image(Unmarked(sb, im0.d, Slot(im0, n, k)), im0.es) && im' == SetSlot(im1, n, k, 0)
    ensures Emptied(sb, im, im', n, gone + {k})
  {
    FreeClear(sb, im0, n, k, im1, im');
    OneEntry(im1, n, k, 0);
    hide Ok, Slot, SetSlot, MaySet, Extra, InUse, InSlots, Unmarked, SlotsOk, Meta, EntryAt;
    assert OthersKept(im, im', n);
    hide DataKept, OthersKept;
    assert Slot(im0, n, k) == Slot(im, n, k);
    EmptiedUse(sb, im, im0, n, gone, k, im');
  }

  lemma EmptiedUse(sb: SuperBlock, im: Image, im0: Image, n: nat, gone: set<nat>, k: nat, im': Image)
    requires forall x: nat :: InUse(sb, im0.d, x) <==> InUse(sb, im.d, x) && (x == 0 || !InSlots(im, n, gone, x))
    requires Slot(im, n, k) != 0 && forall x: nat :: InUse(sb, im'.d, x) <==> x != Slot(im, n, k) && InUse(sb, im0.d, x)
    ensures forall x: nat :: InUse(sb, im'.d, x) <==> InUse(sb, im.d, x) && (x == 0 || !InSlots(im, n, gone + {k}, x))
  {
    hide Slot, InUse, InSlots;
    forall x: nat ensures InUse(sb, im'.d, x) <==> InUse(sb, im.d, x) && (x == 0 || !InSlots(im, n, gone + {k}, x)) {
      InSlotsMore(im, n, gone, k, x);
    }
  }

  lemma UnmarkCommutes(sb: SuperBlock, d: Disk, b: nat, x: nat, data: Block)
    requires |d| == sb.numBlocks && b < sb.numBlocks && x < sb.numBlocks && !InBitmap(sb, x)
    requires sb.bitmapStart + NumBitmapBlocks(sb) <= sb.numBlocks
    ensures Unmarked(sb, d[x := data], b) == Unmarked(sb, d, b)[x := data]
  {
    assert InBitmap(sb, sb.bitmapStart + b / BIT_PER_BLOCK);
  }

  ghost predicate OwnedBy(im: Image, n: nat, x: nat) {
    exists l :: Slot(im, n, l) == x
  }

  /** Inode `n` has been truncated: exactly its blocks are free again, every other entry and
      file is as before, no block is lost. */
  ghost predicate Truncated(sb: SuperBlock, im: Image, n: nat, im': Image) {
    && |im'.es| == |im.es| && n < |im.es|
    && (forall i :: 0 <= i < |im.es| && i != n ==> im'.es[i] == im.es[i])
    && im'.es[n] == im.es[n].(addrs := ZeroEntry().addrs, indirect := 0, numBytes := 0)
    && (forall i :: 0 <= i < |im.es| && i != n ==>
          Content(im', i, im.es[i].numBytes) == Content(im, i, im.es[i].numBytes))
    && (forall x: nat :: x != 0 ==> (InUse(sb, im'.d, x) <==> InUse(sb, im.d, x) && !OwnedBy(im, n, x)))
    && Conserved(sb, im, im')
  }

  /** All slots of inode `n` are gone. */
  lemma {:induction false} EmptyEntry(sb: SuperBlock, im: Image, im1: Image, n: nat, im2: Image)
    requires Emptied(sb, im, im1, n, Below(SLOTS)) && im2 == im1.(es := im1.es[n := im1.es[n].(numBytes := 0)])
    ensures forall i, l :: Slot(im2, i, l) == if i == n then 0 else Slot(im, i, l)
    ensures im2.es[n] == im.es[n].(addrs := ZeroEntry().addrs, indirect := 0, numBytes := 0)
    ensures Ok(sb, im2) && Conserved(sb, im, im2)
  {
    assert forall l :: l >= SLOTS ==> Slot(im1, n, l) == 0;
    assert forall k :: 0 <= k < INODE_NUM_DIRECT ==> Slot(im1, n, k) == im1.es[n].addrs[k];
    assert im1.es[n].addrs == ZeroEntry().addrs;
    assert im1.es[n].indirect == Slot(im1, n, INDIRECT);
    assert forall i, l :: Slot(im2, i, l) == Slot(im1, i, l);
    SameSlots(sb, im1, im2);
    hide Slot, Ok, InUse, OthersKept, Extra;
  }

  /** The size is 0 too: only the entry has to be stored. */
  lemma {:induction false} AllEmptied(sb: SuperBlock, im: Image, im1: Image, n: nat, im2: Image)
    requires n < |im.es| && FsOk(sb, im, sb.numInodes, 0) && Emptied(sb, im, im1, n, Below(SLOTS))
    requires im2 == im1.(es := im1.es[n := im1.es[n].(numBytes := 0)])
    ensures FsOk(sb, im2, n, 0)
  {
    hide Slot, Conserved, EntryAt, InUse, OthersKept, InSlots, Sized;
    EmptyEntry(sb, im, im1, n, im2);
    assert |im2.es| == |im.es| == sb.numInodes && forall i :: 0 <= i < |im.es| && i != n ==> im2.es[i] == im.es[i];
    assert Fits(im.es[n]);
    assert Fits(im2.es[n]);
    assert Stored(sb, im2, n);
    SizedRest(sb, im, im2, n);
    hide Emptied;
  }

  lemma {:induction false} SizedRest(sb: SuperBlock, im: Image, im': Image, n: nat)
    requires FsOk(sb, im, sb.numInodes, 0) && |im'.es| == |im.es| && n < |im.es|
    requires forall i :: 0 <= i < |im.es| && i != n ==> im'.es[i] == im.es[i]
    requires forall i, l :: Slot(im', i, l) == if i == n then 0 else Slot(im, i, l)
    ensures Sized(im', n, 0)
    ensures forall i :: 0 <= i < |im.es| && i != n ==> Sized(im', i, im'.es[i].numBytes)
  {
    hide Slot;
    forall i: nat | i < |im.es| && i != n ensures Sized(im', i, im'.es[i].numBytes) {
      FsSized(sb, im, sb.numInodes, 0, i);
      SizedKept(im, im', i, im.es[i].numBytes);
    }
  }

  lemma {:induction false} OthersKeep(sb: SuperBlock, im: Image, im': Image, n: nat)
    requires FsOk(sb, im, sb.numInodes, 0) && n < |im.es| && OthersKept(im, im', n) && sb.numBlocks > 0
    ensures forall i :: 0 <= i < |im.es| && i != n ==>
      Content(im', i, im.es[i].numBytes) == Content(im, i, im.es[i].numBytes)
  {
    hide Slot;
    SlotsInside(sb, im);
    forall i: nat | i < |im.es| && i != n
      ensures Content(im', i, im.es[i].numBytes) == Content(im, i, im.es[i].numBytes)
    {
      FsSized(sb, im, sb.numInodes, 0, i);
      forall p | 0 <= p < im.es[i].numBytes ensures ByteAt(im', i, p) == ByteAt(im, i, p) {
        FileBlock(sb, im, i, im.es[i].numBytes, p);
        assert Slot(im, i, FileSlot(p / BLOCK_SIZE)) != 0 by { assert p / BLOCK_SIZE * BLOCK_SIZE < im.es[i].numBytes; }
      }
    }
  }

  /** inode_clear as a whole. */
  lemma {:induction false} ClearDone(sb: SuperBlock, im: Image, im1: Image, n: nat, im2: Image, im3: Image)
    requires n < |im.es| && FsOk(sb, im, sb.numInodes, 0) && Emptied(sb, im, im1, n, Below(SLOTS))
    requires im2 == im1.(es := im1.es[n := im1.es[n].(numBytes := 0)])
    requires n < sb.numInodes && sb.inodeStart + NumInodeBlocks(sb) <= |im2.d|
      && im3 == im2.(d := WithEntry(sb, im2.d, n, im2.es[n]))
    ensures FsOk(sb, im3, sb.numInodes, 0) && Truncated(sb, im, n, im3)
  {
    hide Slot, InUse, EntryAt, OwnedBy, DataKept, WithEntry, Content, Sized, Fits;
    AllEmptied(sb, im, im1, n, im2);
    EmptyEntry(sb, im, im1, n, im2);
    StoredKeeps(sb, im2, n, 0, im3);
    ClearUse(sb, im, im1, n);
    EntryKeepsUse(sb, im2, n, im2.es[n], im3);
    ClearKeepsOthers(sb, im, im1, n, im2, im3);
    assert |im.es| == |im1.es| && forall i :: 0 <= i < |im.es| && i != n ==> im3.es[i] == im.es[i];
    hide FsOk, Emptied, Ok;
  }

  lemma {:induction false} ClearKeepsOthers(sb: SuperBlock, im: Image, im1: Image, n: nat, im2: Image, im3: Image)
    requires n < |im.es| && FsOk(sb, im, sb.numInodes, 0) && Emptied(sb, im, im1, n, Below(SLOTS))
    requires im2.d == im1.d && DataKept(im2, im3, 0, SLOTS)
    requires forall i, l :: i != n ==> Slot(im2, i, l) == Slot(im, i, l)
    ensures forall i :: 0 <= i < |im.es| && i != n ==>
      Content(im3, i, im.es[i].numBytes) == Content(im, i, im.es[i].numBytes)
  {
    assert sb.numBlocks > 0;
    assert OthersKept(im, im3, n) by { hide FsOk, Slot, EntryAt, InUse, Ok; }
    hide Emptied, Slot, DataKept, OthersKept;
    OthersKeep(sb, im, im3, n);
  }

  lemma {:induction false} EntryKeepsUse(sb: SuperBlock, im: Image, n: nat, e: Entry, im': Image)
    requires Ok(sb, im) && n < |im.es| && im' == im.(d := WithEntry(sb, im.d, n, e))
    ensures forall x: nat :: InUse(sb, im'.d, x) == InUse(sb, im.d, x)
  {
    var b := sb.inodeStart + n / INODE_PER_BLOCK;
    IndirectsAreData(sb, im);
    assert InInodes(sb, b);
    TouchInodes(sb, im, b, im'.d[b]);
  }

  lemma {:induction false} ClearUse(sb: SuperBlock, im: Image, im1: Image, n: nat)
    requires Emptied(sb, im, im1, n, Below(SLOTS))
    ensures forall x: nat :: x != 0 ==> (InUse(sb, im1.d, x) <==> InUse(sb, im.d, x) && !OwnedBy(im, n, x))
  {
    assert forall l :: l >= SLOTS ==> Slot(im, n, l) == 0;
    hide Slot, Ok, OthersKept, Conserved, InUse;
    forall x: nat | x != 0 ensures InSlots(im, n, Below(SLOTS), x) <==> OwnedBy(im, n, x) {
      if OwnedBy(im, n, x) {
        var l :| Slot(im, n, l) == x;
        assert l in Below(SLOTS);
      }
    }
  }

  /** Freeing the block of address `j` while the indirect block is held as `data`. */
  lemma {:induction false} FreeAddr(sb: SuperBlock, im: Image, d: Disk, es: seq<Entry>, n: nat, data: Block, j: nat,
      gone: set<nat>, b: nat)
    requires j < INODE_NUM_INDIRECT && n < |es| && |es| == sb.numInodes && 0 < es[n].indirect < |d| && 13 + j !in gone
    requires Emptied(sb, im, Image(d[es[n].indirect := data], es), n, gone)
    requires b == GetAddr(data, j) && b != 0
    ensures b < |d| == sb.numBlocks && Layout(sb)
    ensures Emptied(sb, im, Image(Unmarked(sb, d, b)[es[n].indirect := PutAddr(data, j, 0)], es), n, gone + {13 + j})
  {
    var ind := es[n].indirect;
    var im0 := Image(d[ind := data], es);
    assert Ok(sb, im0);
    hide Emptied;
    AddrInUse(sb, im0, n, j);
    hide Ok;
    UnmarkCommutes(sb, d, b, ind, data);
    var im1 := Image(Unmarked(sb, im0.d, b), es);
    assert Image(Unmarked(sb, d, b)[ind := PutAddr(data, j, 0)], es) == SetSlot(im1, n, 13 + j, 0);
    hide Unmarked, PutAddr;
    EmptiedMore(sb, im, im0, n, gone, 13 + j, im1, SetSlot(im1, n, 13 + j, 0));
  }

  lemma {:induction false} AddrInUse(sb: SuperBlock, im: Image, n: nat, j: nat)
    requires Ok(sb, im) && n < |im.es| && j < INODE_NUM_INDIRECT && 0 < im.es[n].indirect < |im.d|
    ensures Slot(im, n, 13 + j) == GetAddr(im.d[im.es[n].indirect], j)
    ensures Slot(im, n, 13 + j) != 0 ==> InUse(sb, im.d, Slot(im, n, 13 + j))
    ensures !InBitmap(sb, im.es[n].indirect)
  {
    IndirectsAreData(sb, im);
  }
}
