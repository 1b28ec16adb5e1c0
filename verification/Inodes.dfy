/** The inode layer (src/fs/inode.c) over the contents that the block cache keeps: an
    acquired block is read from `view`, a synced one is stored there. */
module Inodes {
  import opened FsLayout
  import opened Bitmaps
  import opened InodeFormat
  import opened FileSpec

  const USIZE := 0x1_0000_0000_0000_0000

  type usize = x: int | 0 <= x < USIZE

  /** `Assertion` and `NoSpace` stop the kernel. */
  datatype Outcome<T> = Done(value: T) | Assertion | NoSpace

  /** The block number that inode_map looks for, which it keeps in 32 bits. */
  function BlockNo(offset: nat): (k: nat)
    ensures offset < INODE_MAX_BYTES ==> k == offset / BLOCK_SIZE < INODE_MAX_BLOCKS
  {
    offset / BLOCK_SIZE % 0x1_0000_0000
  }

  /** All entries on a disk. */
  function EntriesOf(sb: SuperBlock, d: Disk): (es: seq<Entry>)
    requires Layout(sb) && |d| == sb.numBlocks
  {
    seq(sb.numInodes, i requires 0 <= i < sb.numInodes => EntryAt(sb, d, i))
  }

  /** An inode in memory. */
  class Inode {
    const inodeNo: nat
    var valid: bool
    var entry: Entry
    var rc: int

    constructor (inodeNo: nat)
      ensures this.inodeNo == inodeNo && !valid && rc == 0
    {
      this.inodeNo, valid, entry, rc := inodeNo, false, ZeroEntry(), 0;
    }
  }

  class InodeLayer {
    const sb: SuperBlock
    var view: Disk
    var list: seq<Inode>
    /** The current entry of every inode: the one in memory while it is being changed. */
    ghost var es: seq<Entry>

    /** init_inodes on a consistent disk: no inode is in memory. */
    constructor (sb: SuperBlock, view: Disk)
      requires Layout(sb) && |view| == sb.numBlocks && FsOk(sb, Image(view, EntriesOf(sb, view)), sb.numInodes, 0)
      ensures Valid() && this.sb == sb && this.view == view && list == [] && es == EntriesOf(sb, view)
    {
      this.sb, this.view, list := sb, view, [];
      es := EntriesOf(sb, view);
      new;
      hide FsOk;
    }

    ghost function Im(): (im: Image)
      reads this
    {
      Image(view, es)
    }

    /** A loaded inode whose file has blocks for `size` bytes. */
    ghost predicate Open(inode: Inode, size: nat)
      reads this, inode
    {
      && inode.inodeNo < sb.numInodes && inode.valid
      && FsOk(sb, Im(), inode.inodeNo, size)
      && es[inode.inodeNo] == inode.entry
    }

    /** A loaded inode in use, every entry being on the disk as it is in memory. */
    ghost predicate AtRest(inode: Inode)
      reads this, inode
    {
      && inode.inodeNo < sb.numInodes && inode.valid && inode.entry.kind != INODE_INVALID
      && FsOk(sb, Im(), sb.numInodes, 0)
      && es[inode.inodeNo] == inode.entry
    }

    /** The inodes in memory: one per number, loaded ones up to date. */
    ghost predicate Known()
      reads this, list
    {
      && |es| == sb.numInodes
      && (forall x :: x in list ==> 0 < x.inodeNo < sb.numInodes && x.rc >= 0)
      && (forall x :: x in list && x.valid ==> x.entry == es[x.inodeNo] && x.entry.kind != INODE_INVALID)
      && (forall i, j :: 0 <= i < j < |list| ==> list[i].inodeNo != list[j].inodeNo)
    }

    ghost predicate Valid()
      reads this, list
    {
      FsOk(sb, Im(), sb.numInodes, 0) && Known()
    }

    // ---------- blocks ----------

    /** cache_alloc, with what BlockAllocator.Alloc promises (AllocatorLink.OutcomeIsPromise). */
    method AllocBlock() returns (ok: bool, b: nat)
      requires Layout(sb) && |view| == sb.numBlocks
      modifies this`view
      ensures AllocPromise(sb, old(view), ok, b, view)
    {
      b := 0;
      while b < sb.numBlocks && InUse(sb, view, b)
        invariant b <= sb.numBlocks
        invariant forall x: nat :: x < b ==> InUse(sb, view, x)
      {
        b := b + 1;
      }
      ok := b < sb.numBlocks;
      if ok {
        view := Allocated(sb, view, b);
      }
    }

    // ---------- inode_map ----------

    /** Slot `k` of the inode gets a fresh block. */
    method FillSlot(inode: Inode, k: nat, ghost size: nat) returns (ok: bool, b: nat)
      requires Open(inode, size) && k < INODE_NUM_DIRECT + 1 && Slot(Im(), inode.inodeNo, k) == 0
      requires k == INDIRECT ==> forall l :: INDIRECT < l < SLOTS ==> Slot(Im(), inode.inodeNo, l) == 0
      modifies this`view, this`es, inode`entry
      ensures ok ==> b != 0 && Grown(sb, old(Im()), Im(), inode.inodeNo) && es[inode.inodeNo] == inode.entry
      ensures ok ==> forall l :: Slot(Im(), inode.inodeNo, l) == if l == k then b else Slot(old(Im()), inode.inodeNo, l)
      ensures !ok ==> forall x: nat :: x < sb.numBlocks ==> InUse(sb, view, x)
    {
      ghost var n := inode.inodeNo;
      ok, b := AllocBlock();
      if ok {
        ghost var im1 := Im();
        if k < INODE_NUM_DIRECT {
          inode.entry := inode.entry.(addrs := inode.entry.addrs[k := b]);
        } else {
          inode.entry := inode.entry.(indirect := b);
        }
        es := es[n := inode.entry];
        assert Im() == SetSlot(im1, n, k, b);
        AllocGrows(sb, old(Im()), n, k, b, im1, Im());
      }
    }

    lemma {:induction false} FinishMap(inode: Inode, size: nat, offset: nat, im: Image)
      requires inode.inodeNo < sb.numInodes && inode.valid && |es| == sb.numInodes && es[inode.inodeNo] == inode.entry
      requires FsOk(sb, im, inode.inodeNo, size) && Grown(sb, im, Im(), inode.inodeNo)
      requires offset <= size && offset < INODE_MAX_BYTES
      requires var n, k := inode.inodeNo, offset / BLOCK_SIZE;
        && (forall l :: Slot(Im(), n, l) != Slot(im, n, l) ==> l == FileSlot(k) || l == INDIRECT)
        && Slot(Im(), n, FileSlot(k)) != 0
        && (Slot(Im(), n, INDIRECT) != 0 <==> Slot(im, n, INDIRECT) != 0 || k >= INODE_NUM_DIRECT)
      ensures Open(inode, if offset < size then size else offset + 1)
    {
      assert inode.inodeNo < |im.es|;
      assert Sized(im, inode.inodeNo, size);
      hide Slot, Grown;
      MapSized(im, Im(), inode.inodeNo, size, offset);
      hide FsOk;
      GrownOk(sb, im, Im(), inode.inodeNo, size, if offset < size then size else offset + 1);
    }

    /** The indirect block is acquired; its address `j` is read, or filled. */
    method FillAddr(inode: Inode, j: nat) returns (ok: bool, b: nat)
      requires Ok(sb, Im()) && inode.inodeNo < sb.numInodes && es[inode.inodeNo] == inode.entry
      requires j < INODE_NUM_INDIRECT && inode.entry.indirect != 0
      modifies this`view
      ensures ok ==> b != 0 && Grown(sb, old(Im()), Im(), inode.inodeNo)
      ensures ok ==> forall l ::
        Slot(Im(), inode.inodeNo, l) == if l == 13 + j then b else Slot(old(Im()), inode.inodeNo, l)
      ensures Slot(old(Im()), inode.inodeNo, 13 + j) != 0 ==> ok && view == old(view)
      ensures !ok ==> forall x: nat :: x < sb.numBlocks ==> InUse(sb, view, x)
    {
      ghost var n, im := inode.inodeNo, Im();
      var ind := inode.entry.indirect;
      IndirectsAreData(sb, im);
      var data := view[ind];
      b := GetAddr(data, j);
      assert b == Slot(im, n, 13 + j);
      if b == 0 {
        ok, b := AllocBlock();
        if !ok { return; }
        ghost var im1 := Im();
        AllocKeeps(sb, im, b, im1);
        assert view[ind] == data by {
          assert !InBitmap(sb, ind);
          assert InBitmap(sb, sb.bitmapStart + b / BIT_PER_BLOCK);
        }
        data := PutAddr(data, j, b);
        view := view[ind := data];
        assert Im() == SetSlot(im1, n, 13 + j, b);
        AllocGrows(sb, im, n, 13 + j, b, im1, Im());
      } else {
        ok := true;
        view := view[ind := data];
        assert view == im.d;
      }
    }

    /** inode_map with a context: the block of byte `offset`, allocated if it is missing. An
        offset whose block number, cut to 32 bits, is behind the largest file has none. */
    method Map(inode: Inode, offset: nat, ghost size: nat) returns (ok: bool, addr: nat, modified: bool)
      requires Open(inode, size)
      modifies this`view, this`es, inode`entry
      ensures !ok ==> forall x: nat :: x < sb.numBlocks ==> InUse(sb, view, x)
      ensures ok ==> Grown(sb, old(Im()), Im(), inode.inodeNo) && es[inode.inodeNo] == inode.entry
      ensures ok && offset <= size && offset < INODE_MAX_BYTES ==>
        Open(inode, if offset < size then size else offset + 1)
      ensures ok && BlockNo(offset) < INODE_MAX_BLOCKS ==>
        && addr != 0 && addr == Slot(Im(), inode.inodeNo, FileSlot(BlockNo(offset)))
        && (modified <==> Slot(old(Im()), inode.inodeNo, FileSlot(BlockNo(offset))) == 0)
      ensures BlockNo(offset) >= INODE_MAX_BLOCKS ==> ok && addr == 0 && !modified
      ensures ok && !modified ==> Im() == old(Im()) && inode.entry == old(inode.entry)
      ensures offset < size ==> ok && !modified
    {
      hide Conserved, DataKept;
      modified, ok := false, true;
      ghost var n, im := inode.inodeNo, Im();
      var k := BlockNo(offset);
      assert Sized(im, n, size);
      assert offset < size ==> k < INODE_MAX_BLOCKS && Slot(im, n, FileSlot(k)) != 0;
      if k < INODE_NUM_DIRECT {
        addr := inode.entry.addrs[k];
        if addr == 0 {
          ok, addr := FillSlot(inode, k, size);
          if !ok { return; }
          modified := true;
        } else {
          GrownSelf(sb, im, n);
        }
        if offset <= size && offset < INODE_MAX_BYTES { FinishMap(inode, size, offset, im); }
      } else if k - INODE_NUM_DIRECT < INODE_NUM_INDIRECT {
        ok, addr, modified := MapIndirect(inode, k - INODE_NUM_DIRECT, size, offset);
      } else {
        GrownSelf(sb, im, n);
        addr := 0;
      }
    }

    method MapIndirect(inode: Inode, j: nat, ghost size: nat, ghost offset: nat)
        returns (ok: bool, addr: nat, modified: bool)
      requires Open(inode, size) && BlockNo(offset) == j + INODE_NUM_DIRECT && j < INODE_NUM_INDIRECT
      modifies this`view, this`es, inode`entry
      ensures !ok ==> forall x: nat :: x < sb.numBlocks ==> InUse(sb, view, x)
      ensures ok ==> Grown(sb, old(Im()), Im(), inode.inodeNo) && es[inode.inodeNo] == inode.entry
      ensures ok && offset <= size && offset < INODE_MAX_BYTES ==>
        Open(inode, if offset < size then size else offset + 1)
      ensures ok ==> addr != 0 && addr == Slot(Im(), inode.inodeNo, 13 + j)
      ensures ok ==> (modified <==> Slot(old(Im()), inode.inodeNo, 13 + j) == 0)
      ensures ok && !modified ==> Im() == old(Im()) && inode.entry == old(inode.entry)
      ensures offset < size ==> ok && !modified
    {
      ghost var n, im := inode.inodeNo, Im();
      IndirectSlots(im, n, size, j, offset) by { hide Ok, Stored; }
      addr := 0;
      ok, modified := FillIndirect(inode, size);
      if !ok { return; }
      ghost var im1 := Im();
      hide Grown, FsOk, Sized, Conserved, DataKept;
      var missing := GetAddr(view[inode.entry.indirect], j) == 0;
      assert missing <==> Slot(im1, n, 13 + j) == 0;
      hide Slot;
      ok, addr := FillAddr(inode, j);
      if !ok { return; }
      modified := modified || missing;
      GrownTwice(sb, im, im1, Im(), n);
      if offset <= size && offset < INODE_MAX_BYTES { FinishMap(inode, size, offset, im); }
    }

    /** The indirect block exists afterwards. */
    method FillIndirect(inode: Inode, ghost size: nat) returns (ok: bool, modified: bool)
      requires Open(inode, size)
      modifies this`view, this`es, inode`entry
      ensures !ok ==> forall x: nat :: x < sb.numBlocks ==> InUse(sb, view, x)
      ensures ok ==> Grown(sb, old(Im()), Im(), inode.inodeNo) && Ok(sb, Im()) && es[inode.inodeNo] == inode.entry
      ensures ok ==> 0 < inode.entry.indirect < |view| && Slot(Im(), inode.inodeNo, INDIRECT) == inode.entry.indirect
      ensures ok ==> forall l :: l != INDIRECT ==> Slot(Im(), inode.inodeNo, l) == Slot(old(Im()), inode.inodeNo, l)
      ensures modified ==> Slot(old(Im()), inode.inodeNo, INDIRECT) == 0
      ensures ok && !modified ==>
        Slot(old(Im()), inode.inodeNo, INDIRECT) != 0 && Im() == old(Im()) && inode.entry == old(inode.entry)
      ensures Slot(old(Im()), inode.inodeNo, INDIRECT) != 0 ==> ok
    {
      ghost var n, im := inode.inodeNo, Im();
      ok, modified := true, false;
      if inode.entry.indirect == 0 {
        var b;
        ok, b := FillSlot(inode, INDIRECT, size);
        modified := true;
      } else {
        GrownSelf(sb, im, n);
      }
      if ok { IndirectsAreData(sb, Im()); }
    }

    // ---------- inode_read ----------

    /** inode_map without a context: the block of byte `offset`, or 0; nothing changes. */
    method Peek(inode: Inode, offset: nat) returns (addr: nat)
      requires Ok(sb, Im()) && inode.inodeNo < sb.numInodes && es[inode.inodeNo] == inode.entry
      ensures addr ==
        if BlockNo(offset) < INODE_MAX_BLOCKS then Slot(Im(), inode.inodeNo, FileSlot(BlockNo(offset))) else 0
    {
      var k := BlockNo(offset);
      IndirectsAreData(sb, Im());
      if k < INODE_NUM_DIRECT {
        return inode.entry.addrs[k];
      } else if k < INODE_MAX_BLOCKS && inode.entry.indirect != 0 {
        return GetAddr(view[inode.entry.indirect], k - INODE_NUM_DIRECT);
      }
      addr := 0;
    }

    /** inode_read: the bytes of the file from `offset` on, at most `count` of them. */
    method Read(inode: Inode, offset: usize, count: usize) returns (r: Outcome<seq<Byte>>)
      requires Open(inode, inode.entry.numBytes)
      ensures !r.NoSpace?
      ensures r.Assertion? <==> offset > inode.entry.numBytes || offset + count >= USIZE
      ensures r.Done? ==>
        var size := inode.entry.numBytes;
        r.value == Content(Im(), inode.inodeNo, size)[offset..if offset + count > size then size else offset + count]
    {
      assert inode.entry.numBytes <= INODE_MAX_BYTES by {
        FsSized(sb, Im(), inode.inodeNo, inode.entry.numBytes, inode.inodeNo);
      }
      hide FsOk, Content;
      var size := inode.entry.numBytes;
      var len: usize := if (count + offset) % USIZE > size then (size - offset) % USIZE else count;
      var end: usize := (offset + len) % USIZE;
      if !(offset <= size && end <= size && offset <= end) {
        return Assertion;
      }
      var bytes := Fetch(inode, offset, len);
      r := Done(bytes);
    }

    /** One block's part of inode_read. */
    method FetchChunk(inode: Inode, o: nat, left: nat) returns (m: nat, bytes: seq<Byte>)
      requires Open(inode, inode.entry.numBytes) && o + left <= inode.entry.numBytes && left > 0
      ensures 0 < m <= left && bytes == Content(Im(), inode.inodeNo, inode.entry.numBytes)[o..o + m]
    {
      ghost var n, size := inode.inodeNo, inode.entry.numBytes;
      assert Sized(Im(), n, size);
      var b := Peek(inode, o);
      m := if left < BLOCK_SIZE - o % BLOCK_SIZE then left else BLOCK_SIZE - o % BLOCK_SIZE;
      FileBlock(sb, Im(), n, size, o);
      hide Ok, FsOk, Sized, Slot;
      ChunkRead(Im(), n, size, o, m);
      bytes := view[b][o % BLOCK_SIZE..o % BLOCK_SIZE + m];
    }

    /** The copy loop of inode_read. */
    method Fetch(inode: Inode, offset: nat, len: nat) returns (dest: seq<Byte>)
      requires Open(inode, inode.entry.numBytes) && offset + len <= inode.entry.numBytes
      ensures dest == Content(Im(), inode.inodeNo, inode.entry.numBytes)[offset..offset + len]
    {
      hide FsOk, Content;
      ghost var whole := Content(Im(), inode.inodeNo, inode.entry.numBytes);
      dest := [];
      while |dest| < len
        invariant |dest| <= len && dest == whole[offset..offset + |dest|]
      {
        var o := offset + |dest|;
        var m, bytes := FetchChunk(inode, o, len - |dest|);
        dest := dest + bytes;
        Slices(whole, offset, o, o + m);
      }
    }

    /** What writing `t` at `o` makes of the file system: the file is the old one with `t`
        written over it, every other file and entry is as before, no block is lost. */
    ghost predicate Written(im: Image, size: nat, inode: Inode, size': nat, o: nat, t: seq<Byte>)
      reads this, inode
    {
      && Open(inode, size') && o <= size
      && WrittenTo(sb, im, inode.inodeNo, size, Im(), size', o, t)
    }

    // ---------- inode_sync and inode_write ----------

    /** inode_sync with do_write, of a loaded inode: its entry is stored. */
    method StoreEntry(inode: Inode)
      requires Layout(sb) && |view| == sb.numBlocks && inode.inodeNo < sb.numInodes && inode.valid
      modifies this`view
      ensures view == WithEntry(sb, old(view), inode.inodeNo, inode.entry)
    {
      view := WithEntry(sb, view, inode.inodeNo, inode.entry);
    }

    /** One block's part of inode_write. */
    method WriteChunk(inode: Inode, o: nat, t: seq<Byte>, ghost size: nat) returns (ok: bool)
      requires Open(inode, size) && o <= size && |t| > 0 && o + |t| <= INODE_MAX_BYTES
        && o % BLOCK_SIZE + |t| <= BLOCK_SIZE
      modifies this`view, this`es, inode`entry
      ensures !ok ==> forall x: nat :: x < sb.numBlocks ==> InUse(sb, view, x)
      ensures ok ==> Written(old(Im()), size, inode, if o + |t| > size then o + |t| else size, o, t)
      ensures ok ==> inode.entry.numBytes == old(inode.entry.numBytes)
      ensures ok && o < size ==> es == old(es) && inode.entry == old(inode.entry)
    {
      ghost var n, im := inode.inodeNo, Im();
      var b, modified;
      ok, b, modified := Map(inode, o, size);
      if !ok { return; }
      ghost var im1, was := Im(), if o < size then size else o + 1;
      view := view[b := Splice(view[b], o % BLOCK_SIZE, t)];
      WriteChunkProof(sb, im, n, size, o, t, im1, Im());
    }

    /** inode_write: `src` is written over the file at `offset`. */
    method Write(inode: Inode, offset: usize, src: seq<Byte>) returns (r: Outcome<nat>)
      requires Valid() && inode in list && inode.valid && |src| < USIZE
      modifies this`view, this`es, inode`entry
      ensures r.Assertion? <==> offset > old(inode.entry.numBytes) || offset + |src| > 71680
      ensures r.Assertion? ==> Im() == old(Im()) && inode.entry == old(inode.entry)
      ensures r.NoSpace? ==> forall x: nat :: x < sb.numBlocks ==> InUse(sb, view, x)
      ensures r.Done? ==> r.value == |src| && Valid()
      ensures r.Done? ==> FileWritten(sb, old(Im()), inode.inodeNo, Im(), offset, src)
    {
      hide FsOk, Content, Conserved, Overwrite, InUse;
      var end: usize := (offset + |src|) % USIZE;
      if !(offset <= inode.entry.numBytes && end <= INODE_MAX_BYTES && offset <= end) {
        return Assertion;
      }
      OnlyOne(inode);
      var ok := WriteAll(inode, offset, src);
      if !ok { return NoSpace; }
      r := Done(|src|);
    }

    /** No other inode in memory has the number of `inode`. */
    lemma OnlyOne(inode: Inode)
      requires inode in list && forall i, j :: 0 <= i < j < |list| ==> list[i].inodeNo != list[j].inodeNo
      ensures forall x :: x in list && x != inode ==> x.inodeNo != inode.inodeNo
    {
    }

    /** After `total` bytes of `src`: `im` was the image before, `num` the size. */
    ghost predicate Writing(inode: Inode, im: Image, num: nat, offset: nat, done: seq<Byte>)
      reads this, inode
    {
      var size := if offset + |done| > num then offset + |done| else num;
      && Open(inode, size) && inode.entry.numBytes == num && offset <= num
      && WrittenTo(sb, im, inode.inodeNo, num, Im(), size, offset, done)
      && (size == num ==> es == im.es)
    }

    /** One turn of the copy loop of inode_write. */
    method WriteStep(inode: Inode, offset: nat, src: seq<Byte>, total: nat, ghost im: Image, ghost num: nat)
        returns (ok: bool, m: nat)
      requires total < |src| && offset + |src| <= INODE_MAX_BYTES && Writing(inode, im, num, offset, src[..total])
      modifies this`view, this`es, inode`entry
      ensures !ok ==> forall x: nat :: x < sb.numBlocks ==> InUse(sb, view, x)
      ensures ok ==> 0 < m <= |src| - total && Writing(inode, im, num, offset, src[..total + m])
    {
      hide FsOk, WrittenTo;
      var o := offset + total;
      m := if |src| - total < BLOCK_SIZE - o % BLOCK_SIZE then |src| - total else BLOCK_SIZE - o % BLOCK_SIZE;
      ghost var im1, size := Im(), if o > num then o else num;
      assert |src[..total]| == total;
      ok := WriteChunk(inode, o, src[total..total + m], size);
      if !ok { return; }
      ghost var size' := if o + m > size then o + m else size;
      WrittenTwice(sb, im, inode.inodeNo, num, im1, size, offset, src[..total], Im(), size', src[total..total + m]);
      assert src[..total] + src[total..total + m] == src[..total + m];
    }

    lemma {:induction false} StartWriting(inode: Inode, offset: nat)
      requires AtRest(inode) && offset <= inode.entry.numBytes
      ensures Writing(inode, Im(), inode.entry.numBytes, offset, [])
    {
      WrittenNothing(sb, Im(), inode.inodeNo, inode.entry.numBytes, offset);
      assert Open(inode, inode.entry.numBytes);
      hide FsOk, WrittenTo;
    }

    /** The copy loop of inode_write. */
    method WriteLoop(inode: Inode, offset: nat, src: seq<Byte>) returns (ok: bool)
      requires AtRest(inode) && offset <= inode.entry.numBytes && offset + |src| <= INODE_MAX_BYTES
      modifies this`view, this`es, inode`entry
      ensures !ok ==> forall x: nat :: x < sb.numBlocks ==> InUse(sb, view, x)
      ensures ok ==> Writing(inode, old(Im()), old(inode.entry.numBytes), offset, src)
    {
      hide FsOk, WrittenTo;
      ghost var im, num := Im(), inode.entry.numBytes;
      StartWriting(inode, offset);
      var total := 0;
      assert src[..total] == [];
      while total < |src|
        invariant 0 <= total <= |src| && Writing(inode, im, num, offset, src[..total])
      {
        var m;
        ok, m := WriteStep(inode, offset, src, total, im, num);
        if !ok { return; }
        total := total + m;
      }
      assert src[..total] == src;
      ok := true;
    }

    /** The copies, and the new size. */
    method WriteAll(inode: Inode, offset: nat, src: seq<Byte>) returns (ok: bool)
      requires AtRest(inode) && offset <= inode.entry.numBytes && offset + |src| <= INODE_MAX_BYTES
      modifies this`view, this`es, inode`entry
      ensures !ok ==> forall x: nat :: x < sb.numBlocks ==> InUse(sb, view, x)
      ensures ok ==> AtRest(inode) && FileWritten(sb, old(Im()), inode.inodeNo, Im(), offset, src)
    {
      ghost var im, n := Im(), inode.inodeNo;
      ok := WriteLoop(inode, offset, src);
      if !ok { return; }
      ghost var size := if offset + |src| > inode.entry.numBytes then offset + |src| else inode.entry.numBytes;
      ghost var im1 := Im();
      assert n < |im1.es| == |im.es| && inode.entry.kind == old(inode.entry.kind);
      if |src| > 0 && inode.entry.numBytes < offset + |src| {
        assert Layout(sb) && |view| == sb.numBlocks;
        hide FsOk, WrittenTo, FileWritten;
        inode.entry := inode.entry.(numBytes := offset + |src|);
        es := es[n := inode.entry];
        StoreEntry(inode);
        GrowthStored(sb, im, n, im1, size, offset, src, im1.(es := es), Im());
      } else {
        hide FsOk, WrittenTo, FileWritten;
        NothingToStore(sb, im, n, Im(), offset, src);
      }
    }

    // ---------- inode_clear ----------

    /** One direct address. */
    method ClearSlot(inode: Inode, i: nat, ghost im: Image, ghost gone: set<nat>)
      requires inode.inodeNo < sb.numInodes && inode.inodeNo < |es| && es[inode.inodeNo] == inode.entry
      requires i < INODE_NUM_DIRECT && i !in gone && Emptied(sb, im, Im(), inode.inodeNo, gone)
      modifies this`view, this`es, inode`entry
      ensures inode.inodeNo < |es| && es[inode.inodeNo] == inode.entry
      ensures Emptied(sb, im, Im(), inode.inodeNo, gone + {i})
    {
      ghost var n, im0 := inode.inodeNo, Im();
      var b := inode.entry.addrs[i];
      assert b == Slot(im0, n, i);
      if b != 0 {
        assert InUse(sb, view, b) && MaySet(im0, n, i, 0);
        hide Emptied;
        view := Unmarked(sb, view, b);
        inode.entry := inode.entry.(addrs := inode.entry.addrs[i := 0]);
        es := es[n := inode.entry];
        EmptiedMore(sb, im, im0, n, gone, i, Image(view, im0.es), Im());
      } else {
        hide Emptied;
        EmptiedSkip(sb, im, im0, n, gone, i);
      }
    }

    /** The loop over the direct addresses. */
    method ClearDirect(inode: Inode)
      requires Ok(sb, Im()) && inode.inodeNo < sb.numInodes && es[inode.inodeNo] == inode.entry
      modifies this`view, this`es, inode`entry
      ensures Emptied(sb, old(Im()), Im(), inode.inodeNo, Below(INODE_NUM_DIRECT))
      ensures es[inode.inodeNo] == inode.entry
    {
      hide Emptied;
      ghost var n, im := inode.inodeNo, Im();
      ghost var gone: set<nat> := {};
      EmptiedNone(sb, im, n);
      hide Ok;
      var i := 0;
      while i < INODE_NUM_DIRECT
        invariant 0 <= i <= INODE_NUM_DIRECT && gone == Below(i)
        invariant Emptied(sb, im, Im(), n, gone) && n < |es| && es[n] == inode.entry
      {
        ClearSlot(inode, i, im, gone);
        gone, i := gone + {i}, i + 1;
      }
    }

    /** One address of the indirect block, whose buffer is `data`. */
    method ClearAddr(inode: Inode, data: Block, j: nat, ghost im: Image, ghost gone: set<nat>) returns (data': Block)
      requires inode.inodeNo < sb.numInodes && |es| == sb.numInodes && es[inode.inodeNo] == inode.entry
        && j < INODE_NUM_INDIRECT
      requires 0 < inode.entry.indirect < |view| && 13 + j !in gone
      requires Emptied(sb, im, Image(view[inode.entry.indirect := data], es), inode.inodeNo, gone)
      modifies this`view
      ensures |view| == |old(view)|
      ensures Emptied(sb, im, Image(view[inode.entry.indirect := data'], es), inode.inodeNo, gone + {13 + j})
    {
      ghost var n, ind := inode.inodeNo, inode.entry.indirect;
      ghost var im0 := Image(view[ind := data], es);
      var b := GetAddr(data, j);
      assert b == Slot(im0, n, 13 + j);
      data' := data;
      hide Emptied;
      if b != 0 {
        FreeAddr(sb, im, view, es, n, data, j, gone, b);
        view := Unmarked(sb, view, b);
        data' := PutAddr(data, j, 0);
      } else {
        EmptiedSkip(sb, im, im0, n, gone, 13 + j);
      }
    }

    /** The loop over the addresses of the indirect block. */
    method ClearAddrs(inode: Inode, ghost im: Image)
      requires inode.inodeNo < sb.numInodes && |es| == sb.numInodes && es[inode.inodeNo] == inode.entry
      requires Emptied(sb, im, Im(), inode.inodeNo, Below(INODE_NUM_DIRECT))
      requires 0 < inode.entry.indirect < |view|
      modifies this`view
      ensures Emptied(sb, im, Im(), inode.inodeNo, Below(SLOTS) - {INDIRECT})
    {
      hide Emptied;
      var ind := inode.entry.indirect;
      var data := view[ind];
      assert view[ind := data] == view;
      ghost var gone := Below(INODE_NUM_DIRECT);
      assert gone == Below(13) - {INDIRECT};
      var j := 0;
      while j < INODE_NUM_INDIRECT
        invariant 0 <= j <= INODE_NUM_INDIRECT && gone == Below(13 + j) - {INDIRECT}
        invariant |view| == |old(view)| && Emptied(sb, im, Image(view[ind := data], es), inode.inodeNo, gone)
      {
        data := ClearAddr(inode, data, j, im, gone);
        gone, j := gone + {13 + j}, j + 1;
      }
      view := view[ind := data];
    }

    /** inode_clear: the file is empty, and exactly its blocks are free. */
    method Clear(inode: Inode)
      requires Valid() && inode in list && inode.valid
      modifies this`view, this`es, inode`entry, inode`valid
      ensures Valid() && inode.valid && Truncated(sb, old(Im()), inode.inodeNo, Im())
    {
      hide FsOk;
      ClearAll(inode);
      OnlyOne(inode);
    }

    method ClearAll(inode: Inode)
      requires AtRest(inode)
      modifies this`view, this`es, inode`entry, inode`valid
      ensures AtRest(inode) && Truncated(sb, old(Im()), inode.inodeNo, Im())
    {
      ghost var n, im := inode.inodeNo, Im();
      ClearBlocks(inode);
      ghost var im1 := Im();
      assert Layout(sb) && |view| == sb.numBlocks;
      inode.entry := inode.entry.(numBytes := 0);
      es := es[n := inode.entry];
      ghost var im2 := Im();
      inode.valid := true;
      hide Emptied, WithEntry;
      StoreEntry(inode);
      ClearDone(sb, im, im1, n, im2, Im());
      hide FsOk;
    }

    /** All blocks of the file are freed. */
    method ClearBlocks(inode: Inode)
      requires AtRest(inode)
      modifies this`view, this`es, inode`entry
      ensures Emptied(sb, old(Im()), Im(), inode.inodeNo, Below(SLOTS)) && es[inode.inodeNo] == inode.entry
    {
      ghost var n, im := inode.inodeNo, Im();
      assert Ok(sb, im);
      hide FsOk, Slot;
      ClearDirect(inode);
      assert Ok(sb, Im());
      hide Emptied;
      if inode.entry.indirect != 0 {
        IndirectsAreData(sb, Im());
        hide Ok;
        ClearAddrs(inode, im);
        ClearIndirect(inode, im);
      } else {
        SkipIndirect(sb, im, n, Im());
      }
    }

    method ClearIndirect(inode: Inode, ghost im: Image)
      requires inode.inodeNo < sb.numInodes && |es| == sb.numInodes && es[inode.inodeNo] == inode.entry
      requires Emptied(sb, im, Im(), inode.inodeNo, Below(SLOTS) - {INDIRECT}) && inode.entry.indirect != 0
      modifies this`view, this`es, inode`entry
      ensures Emptied(sb, im, Im(), inode.inodeNo, Below(SLOTS)) && es[inode.inodeNo] == inode.entry
    {
      ghost var n, im0 := inode.inodeNo, Im();
      var b := inode.entry.indirect;
      assert b == Slot(im0, n, INDIRECT);
      assert InUse(sb, view, b) && MaySet(im0, n, INDIRECT, 0);
      hide Emptied;
      view := Unmarked(sb, view, b);
      inode.entry := inode.entry.(indirect := 0);
      es := es[n := inode.entry];
      EmptiedMore(sb, im, im0, n, Below(SLOTS) - {INDIRECT}, INDIRECT, Image(view, im0.es), Im());
      assert Below(SLOTS) - {INDIRECT} + {INDIRECT} == Below(SLOTS);
    }
  }

  lemma Slices(s: seq<Byte>, a: nat, b: nat, c: nat)
    requires a <= b <= c <= |s|
    ensures s[a..b] + s[b..c] == s[a..c]
  {
  }

  /** Without an indirect block there is nothing behind the direct addresses. */
  lemma {:induction false} SkipIndirect(sb: SuperBlock, im: Image, n: nat, im': Image)
    requires Emptied(sb, im, im', n, Below(INODE_NUM_DIRECT)) && n < |im'.es| && im'.es[n].indirect == 0
    ensures Emptied(sb, im, im', n, Below(SLOTS))
  {
    assert forall l :: l >= INODE_NUM_DIRECT ==> Slot(im', n, l) == 0;
    hide Emptied, Slot;
    SkipUpTo(sb, im, n, im', SLOTS);
  }

  lemma {:induction false} SkipUpTo(sb: SuperBlock, im: Image, n: nat, im': Image, k: nat)
    requires Emptied(sb, im, im', n, Below(INODE_NUM_DIRECT)) && INODE_NUM_DIRECT <= k
    requires forall l :: l >= INODE_NUM_DIRECT ==> Slot(im', n, l) == 0
    ensures Emptied(sb, im, im', n, Below(k))
  {
    hide Emptied, Slot;
    if k > INODE_NUM_DIRECT {
      SkipUpTo(sb, im, n, im', k - 1);
      EmptiedSkip(sb, im, im', n, Below(k - 1), k - 1);
    }
  }

  /** A file that has no indirect block ends before byte `offset` of an indirect address. */
  lemma IndirectSlots(im: Image, n: nat, size: nat, j: nat, offset: nat)
    requires Sized(im, n, size) && j < INODE_NUM_INDIRECT && BlockNo(offset) == j + INODE_NUM_DIRECT
    ensures offset < size ==> Slot(im, n, 13 + j) != 0 && Slot(im, n, INDIRECT) != 0
    ensures Slot(im, n, INDIRECT) == 0 ==> Slot(im, n, 13 + j) == 0
  {
    assert FileSlot(j + INODE_NUM_DIRECT) == 13 + j;
    if offset < size { assert (j + INODE_NUM_DIRECT) * BLOCK_SIZE <= offset; }
  }

  lemma GrownSelf(sb: SuperBlock, im: Image, n: nat)
    requires Ok(sb, im) && n < |im.es|
    ensures Grown(sb, im, im, n)
  {
    hide Ok;
  }
}
