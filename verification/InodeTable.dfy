/** Allocation, loading, sharing and release of inodes (src/fs/inode.c). */
module InodeTable {
  import opened FsLayout
  import opened Bitmaps
  import opened InodeFormat
  import opened FileSpec
  import opened Inodes

  // ---------- what allocation and release mean ----------

  /** Only the entry of inode `n` differs; no block changes hands. */
  ghost predicate OnlyEntry(sb: SuperBlock, im: Image, n: nat, im': Image) {
    && |im'.es| == |im.es| && n < |im.es|
    && (forall i :: 0 <= i < |im.es| && i != n ==> im'.es[i] == im.es[i])
    && (forall i :: 0 <= i < |im.es| && i != n ==>
          Content(im', i, im.es[i].numBytes) == Content(im, i, im.es[i].numBytes))
    && (forall x: nat :: InUse(sb, im'.d, x) == InUse(sb, im.d, x))
    && Conserved(sb, im, im')
  }

  /** What consistency says of one inode. */
  lemma {:induction false} AtRestFacts(sb: SuperBlock, im: Image, n: nat)
    requires FsOk(sb, im, sb.numInodes, 0) && n < |im.es|
    ensures Layout(sb) && |im.d| == sb.numBlocks && |im.es| == sb.numInodes
    ensures n < sb.numInodes && EntryAt(sb, im.d, n) == im.es[n] && Fits(im.es[n])
    ensures im.es[n].kind == INODE_INVALID ==> im.es[n].numBytes == 0
    ensures forall i :: 0 <= i < sb.numInodes ==> EntryAt(sb, im.d, i) == im.es[i]
  {
  }

  /** An inode without bytes has no blocks, and neither has a zeroed one. */
  lemma {:induction false} NoSlots(sb: SuperBlock, im: Image, n: nat)
    requires FsOk(sb, im, sb.numInodes, 0) && n < |im.es| && im.es[n].numBytes == 0
    ensures forall l :: Slot(im, n, l) == 0
  {
    FsSized(sb, im, sb.numInodes, 0, n);
    forall l: nat ensures Slot(im, n, l) == 0 {
      if l < INODE_NUM_DIRECT { assert FileSlot(l) == l; }
      else if INDIRECT < l < SLOTS { assert FileSlot(l - 1) == l; }
    }
  }

  /** Replacing the entry of an inode without blocks by another one without blocks, in
      memory and on the disk. */
  lemma {:induction false} EntryReplaced(sb: SuperBlock, im: Image, n: nat, e: Entry, im': Image)
    requires FsOk(sb, im, sb.numInodes, 0) && n < |im.es| && im.es[n].numBytes == 0
    requires Fits(e) && e.numBytes == 0 && e.indirect == 0 && e.addrs == ZeroEntry().addrs
    requires im'.es == im.es[n := e] && |im'.d| == |im.d|
    requires forall b :: 0 <= b < |im.d| && !InInodes(sb, b) ==> im'.d[b] == im.d[b]
    requires forall i :: 0 <= i < sb.numInodes ==> EntryAt(sb, im'.d, i) == if i == n then e else EntryAt(sb, im.d, i)
    ensures FsOk(sb, im', sb.numInodes, 0) && OnlyEntry(sb, im, n, im')
  {
    hide Sized, Conserved, Stored;
    NoSlots(sb, im, n);
    IndirectsAreData(sb, im);
    assert forall i, l :: Slot(im', i, l) == Slot(im, i, l);
    assert forall x: nat :: InUse(sb, im'.d, x) == InUse(sb, im.d, x) by {
      forall x | 0 <= x < sb.numBlocks ensures !InInodes(sb, sb.bitmapStart + x / BIT_PER_BLOCK) {
        assert InBitmap(sb, sb.bitmapStart + x / BIT_PER_BLOCK);
      }
    }
    hide Slot, InUse;
    SameSlots(sb, im, im');
    assert DataKept(im, im', 0, SLOTS);
    ReplacedRest(sb, im, n, e, im');
  }

  lemma {:induction false} ReplacedRest(sb: SuperBlock, im: Image, n: nat, e: Entry, im': Image)
    requires FsOk(sb, im, sb.numInodes, 0) && n < |im.es| && im.es[n].numBytes == 0
    requires Fits(e) && e.numBytes == 0 && im'.es == im.es[n := e] && Ok(sb, im') && Conserved(sb, im, im')
    requires forall i :: 0 <= i < sb.numInodes ==> EntryAt(sb, im'.d, i) == if i == n then e else EntryAt(sb, im.d, i)
    requires (forall i, l :: Slot(im', i, l) == Slot(im, i, l)) && DataKept(im, im', 0, SLOTS)
    requires forall x: nat :: InUse(sb, im'.d, x) == InUse(sb, im.d, x)
    ensures FsOk(sb, im', sb.numInodes, 0) && OnlyEntry(sb, im, n, im')
  {
    hide Slot, InUse, Conserved, Sized, DataKept;
    forall i: nat | i < |im.es| ensures Sized(im', i, im'.es[i].numBytes) {
      FsSized(sb, im, sb.numInodes, 0, i);
      SizedKept(im, im', i, im.es[i].numBytes);
    }
    StoredContents(sb, im, sb.numInodes, 0, im');
    hide Content, Ok;
  }

  // ---------- inode_alloc ----------

  /** inode_alloc: the least inode from 1 on that is free becomes an empty one of type
      `kind`; it fails for lack of space exactly when none is free. */
  method Alloc(layer: InodeLayer, kind: nat) returns (r: Outcome<nat>)
    requires layer.Valid() && kind < 0x1_0000
    modifies layer`view, layer`es
    ensures r.Assertion? <==> kind == INODE_INVALID
    ensures r.NoSpace? ==> forall i :: 1 <= i < layer.sb.numInodes ==> old(layer.es)[i].kind != INODE_INVALID
    ensures !r.Done? ==> layer.Im() == old(layer.Im())
    ensures r.Done? ==>
      && 1 <= r.value < layer.sb.numInodes && old(layer.es)[r.value].kind == INODE_INVALID
      && (forall i :: 1 <= i < r.value ==> old(layer.es)[i].kind != INODE_INVALID)
      && OnlyEntry(layer.sb, old(layer.Im()), r.value, layer.Im())
      && layer.es[r.value] == ZeroEntry().(kind := kind)
    ensures layer.Valid()
  {
    if kind == INODE_INVALID { return Assertion; }
    ghost var im, sb := layer.Im(), layer.sb;
    var i := 1;
    while i < layer.sb.numInodes
      invariant 1 <= i && layer.Im() == im
      invariant forall k :: 1 <= k < i && k < sb.numInodes ==> im.es[k].kind != INODE_INVALID
    {
      var e := EntryAt(layer.sb, layer.view, i);
      assert e == im.es[i];
      if e.kind == INODE_INVALID {
        AllocAt(layer, i, kind);
        return Done(i);
      }
      i := i + 1;
    }
    r := NoSpace;
  }

  method AllocAt(layer: InodeLayer, i: nat, kind: nat)
    requires layer.Valid() && 1 <= i < layer.sb.numInodes && 0 < kind < 0x1_0000 && layer.es[i].kind == INODE_INVALID
    modifies layer`view, layer`es
    ensures layer.Valid() && layer.es[i] == ZeroEntry().(kind := kind)
    ensures OnlyEntry(layer.sb, old(layer.Im()), i, layer.Im())
  {
    hide FsOk, OnlyEntry, WithEntry, EntryAt, Ok;
    ghost var im, sb := layer.Im(), layer.sb;
    var e: Entry := ZeroEntry().(kind := kind);
    AtRestFacts(sb, im, i);
    WithEntryOnly(sb, layer.view, i, e);
    layer.view := WithEntry(layer.sb, layer.view, i, e);
    layer.es := layer.es[i := e];
    EntryReplaced(sb, im, i, e, layer.Im());
  }

  // ---------- inode_get, inode_share, inode_lock ----------

  /** inode_get: the inode in memory with that number, loaded into the list if need be,
      with one more reference. */
  method Get(layer: InodeLayer, inodeNo: nat) returns (r: Outcome<Inode>)
    requires layer.Valid()
    modifies layer`list, layer.list
    ensures !r.NoSpace?
    ensures r.Assertion? <==> inodeNo == 0 || inodeNo >= layer.sb.numInodes
    ensures r.Assertion? ==> layer.list == old(layer.list)
    ensures layer.Valid()
    ensures r.Done? ==> r.value in layer.list && r.value.inodeNo == inodeNo
    ensures r.Done? ==> forall x :: x in old(layer.list) ==>
      && x in layer.list && x.valid == old(x.valid) && x.entry == old(x.entry)
      && x.rc == old(x.rc) + if x == r.value then 1 else 0
    ensures r.Done? && r.value !in old(layer.list) ==>
      fresh(r.value) && r.value.rc == 1 && !r.value.valid && layer.list == [r.value] + old(layer.list)
    ensures r.Done? && r.value in old(layer.list) ==> layer.list == old(layer.list)
  {
    hide FsOk;
    if inodeNo == 0 || inodeNo >= layer.sb.numInodes { return Assertion; }
    var i := 0;
    while i < |layer.list|
      invariant 0 <= i <= |layer.list|
      invariant forall k :: 0 <= k < i ==> layer.list[k].inodeNo != inodeNo
    {
      var x := layer.list[i];
      if x.inodeNo == inodeNo {
        x.rc := x.rc + 1;
        return Done(x);
      }
      i := i + 1;
    }
    var inode := new Inode(inodeNo);
    inode.rc := inode.rc + 1;
    layer.list := [inode] + layer.list;
    r := Done(inode);
  }

  /** inode_share. */
  method Share(layer: InodeLayer, inode: Inode)
    requires layer.Valid() && inode in layer.list
    modifies inode`rc
    ensures layer.Valid() && inode.rc == old(inode.rc) + 1
  {
    hide FsOk;
    inode.rc := inode.rc + 1;
  }

  /** inode_lock: afterwards the inode holds its entry. */
  method Lock(layer: InodeLayer, inode: Inode)
    requires layer.Valid() && inode in layer.list && layer.es[inode.inodeNo].kind != INODE_INVALID
    modifies inode`valid, inode`entry
    ensures layer.Valid() && inode.valid && inode.entry == layer.es[inode.inodeNo]
    ensures old(inode.valid) ==> inode.entry == old(inode.entry)
  {
    layer.OnlyOne(inode);
    if !inode.valid {
      inode.valid := true;
      inode.entry := EntryAt(layer.sb, layer.view, inode.inodeNo);
      assert inode.entry == layer.es[inode.inodeNo];
    }
    hide FsOk;
  }

  // ---------- inode_put ----------

  /** Inode `n` is gone: its entry is free, exactly its blocks are free, every other entry
      and file is as before, no block is lost. */
  ghost predicate Released(sb: SuperBlock, im: Image, n: nat, im': Image) {
    && |im'.es| == |im.es| && n < |im.es|
    && (forall i :: 0 <= i < |im.es| && i != n ==> im'.es[i] == im.es[i])
    && im'.es[n] == im.es[n].(kind := INODE_INVALID, addrs := ZeroEntry().addrs, indirect := 0, numBytes := 0)
    && (forall i :: 0 <= i < |im.es| && i != n ==>
          Content(im', i, im.es[i].numBytes) == Content(im, i, im.es[i].numBytes))
    && (forall x: nat :: x != 0 ==> (InUse(sb, im'.d, x) <==> InUse(sb, im.d, x) && !OwnedBy(im, n, x)))
    && Conserved(sb, im, im')
  }

  function Invalidated(sb: SuperBlock, d: Disk, n: nat): (r: Disk)
    requires n < sb.numInodes && sb.inodeStart + NumInodeBlocks(sb) <= |d|
    ensures |r| == |d|
  {
    var b := sb.inodeStart + n / INODE_PER_BLOCK;
    d[b := PutInvalid(d[b], n % INODE_PER_BLOCK)]
  }

  lemma {:induction false} InvalidatedOnly(sb: SuperBlock, d: Disk, n: nat, i: nat)
    requires Layout(sb) && |d| == sb.numBlocks && n < sb.numInodes && i < sb.numInodes
    ensures EntryAt(sb, Invalidated(sb, d, n), i)
         == if i == n then EntryAt(sb, d, n).(kind := INODE_INVALID) else EntryAt(sb, d, i)
  {
    hide GetEntry, PutInvalid;
    if i / INODE_PER_BLOCK == n / INODE_PER_BLOCK {
      GetPutInvalid(d[sb.inodeStart + n / INODE_PER_BLOCK], n % INODE_PER_BLOCK, i % INODE_PER_BLOCK);
    }
  }

  lemma {:induction false} InvalidatedElsewhere(sb: SuperBlock, d: Disk, n: nat)
    requires Layout(sb) && |d| == sb.numBlocks && n < sb.numInodes
    ensures forall b :: 0 <= b < |d| && !InInodes(sb, b) ==> Invalidated(sb, d, n)[b] == d[b]
  {
    hide PutInvalid;
    assert InInodes(sb, sb.inodeStart + n / INODE_PER_BLOCK);
  }

  lemma {:induction false} ReleaseDone(sb: SuperBlock, im: Image, n: nat, im1: Image, im2: Image)
    requires Truncated(sb, im, n, im1) && FsOk(sb, im1, sb.numInodes, 0) && n < |im1.es|
    requires im2 == Image(Invalidated(sb, im1.d, n), im1.es[n := im1.es[n].(kind := INODE_INVALID)])
    ensures FsOk(sb, im2, sb.numInodes, 0) && Released(sb, im, n, im2)
  {
    hide EntryAt, Invalidated, FsOk, Content, InUse, OwnedBy, Extra;
    AtRestFacts(sb, im1, n);
    InvalidatedElsewhere(sb, im1.d, n);
    forall i | 0 <= i < sb.numInodes
      ensures EntryAt(sb, im2.d, i)
           == if i == n then EntryAt(sb, im1.d, n).(kind := INODE_INVALID) else EntryAt(sb, im1.d, i)
    {
      InvalidatedOnly(sb, im1.d, n, i);
    }
    EntryReplaced(sb, im1, n, im1.es[n].(kind := INODE_INVALID), im2);
  }

  /** inode_put: the last reference to an inode without links releases it, any other one is
      only counted down. */
  method Put(layer: InodeLayer, inode: Inode)
    requires layer.Valid() && inode in layer.list && inode.valid && inode.rc > 0
    modifies layer`view, layer`es, layer`list, inode
    ensures layer.Valid()
    ensures old(inode.entry.links == 0 && inode.rc == 1) ==>
      && Released(layer.sb, old(layer.Im()), inode.inodeNo, layer.Im())
      && inode !in layer.list && forall x :: x in layer.list <==> x in old(layer.list) && x != inode
    ensures !old(inode.entry.links == 0 && inode.rc == 1) ==>
      layer.Im() == old(layer.Im()) && layer.list == old(layer.list) && inode.rc == old(inode.rc) - 1
  {
    hide FsOk;
    if inode.entry.links == 0 && inode.rc == 1 {
      ghost var im := layer.Im();
      Release(layer, inode);
    } else {
      inode.rc := inode.rc - 1;
    }
  }

  /** inode_clear, and the entry's type on the disk. */
  method ReleaseDisk(layer: InodeLayer, inode: Inode)
    requires layer.Valid() && inode in layer.list && inode.valid
    modifies layer`view, layer`es, inode
    ensures FsOk(layer.sb, layer.Im(), layer.sb.numInodes, 0)
    ensures Released(layer.sb, old(layer.Im()), inode.inodeNo, layer.Im())
  {
    ghost var im, sb, n := layer.Im(), layer.sb, inode.inodeNo;
    layer.Clear(inode);
    assert Layout(sb) && |layer.view| == sb.numBlocks && |layer.es| == sb.numInodes;
    hide FsOk, Truncated, Released, Invalidated;
    ghost var im1 := layer.Im();
    layer.view := Invalidated(layer.sb, layer.view, inode.inodeNo);
    layer.es := layer.es[n := layer.es[n].(kind := INODE_INVALID)];
    ReleaseDone(sb, im, n, im1, layer.Im());
    inode.valid := false;
  }

  method Release(layer: InodeLayer, inode: Inode)
    requires layer.Valid() && inode in layer.list && inode.valid
    modifies layer`view, layer`es, layer`list, inode
    ensures layer.Valid() && Released(layer.sb, old(layer.Im()), inode.inodeNo, layer.Im())
    ensures forall x :: x in layer.list <==> x in old(layer.list) && x != inode
  {
    hide FsOk, Content, InUse, OwnedBy, Conserved;
    layer.OnlyOne(inode);
    var list := layer.list;
    var k := Find(list, inode);
    RemoveAt(list, k);
    ReleaseDisk(layer, inode);
    layer.list := list[..k] + list[k + 1..];
  }

  lemma RemoveAt(list: seq<Inode>, k: nat)
    requires k < |list| && forall i, j :: 0 <= i < j < |list| ==> list[i].inodeNo != list[j].inodeNo
    ensures var r := list[..k] + list[k + 1..];
      && (forall x :: x in r <==> x in list && x != list[k])
      && (forall i, j :: 0 <= i < j < |r| ==> r[i].inodeNo != r[j].inodeNo)
  {
    var r := list[..k] + list[k + 1..];
    assert forall i :: 0 <= i < |r| ==> r[i] == if i < k then list[i] else list[i + 1];
    forall x | x in list && x != list[k] ensures x in r {
      var i :| 0 <= i < |list| && list[i] == x;
      assert if i < k then r[i] == x else r[i - 1] == x;
    }
  }

  method Find(list: seq<Inode>, inode: Inode) returns (k: nat)
    requires inode in list
    ensures k < |list| && list[k] == inode
  {
    k := 0;
    while list[k] != inode
      invariant 0 <= k < |list| && inode in list[k..]
      decreases |list| - k
    {
      k := k + 1;
    }
  }

  // ---------- any run ----------

  /** Operations on the inode at a place of the list in memory, or on inode numbers. */
  datatype Op =
    | AllocOp(kind: nat)
    | GetOp(inodeNo: nat)
    | LockOp(k: nat)
    | WriteOp(k: nat, offset: usize, src: seq<Byte>)
    | ClearOp(k: nat)
    | PutOp(k: nat)

  /** The operations that stop the kernel by an assertion, or for want of an inode. */
  ghost predicate Refuses(layer: InodeLayer, op: Op)
    requires layer.Valid()
    reads layer, layer.list
  {
    match op
    case AllocOp(kind) => kind == INODE_INVALID || (kind < 0x1_0000 && NoneFree(layer.es))
    case GetOp(inodeNo) => inodeNo == 0 || inodeNo >= layer.sb.numInodes
    case WriteOp(k, offset, src) =>
      && k < |layer.list| && layer.list[k].valid && |src| < USIZE
      && (offset > layer.list[k].entry.numBytes || offset + |src| > INODE_MAX_BYTES)
    case _ => false
  }

  ghost predicate NoneFree(es: seq<Entry>) {
    forall i :: 1 <= i < |es| ==> es[i].kind != INODE_INVALID
  }

  /** A write has found no block left. */
  ghost predicate DiskFull(layer: InodeLayer, op: Op)
    reads layer
  {
    op.WriteOp? && forall x: nat :: x < layer.sb.numBlocks ==> InUse(layer.sb, layer.view, x)
  }

  lemma WriteConserves(sb: SuperBlock, im0: Image, im: Image, im': Image)
    requires Conserved(sb, im0, im) && Conserved(sb, im, im')
    ensures Conserved(sb, im0, im')
  {
    hide Extra;
  }

  method TableStep(layer: InodeLayer, op: Op) returns (ok: bool)
    requires layer.Valid() && (op.AllocOp? || op.GetOp? || op.LockOp?)
    modifies layer`view, layer`es, layer`list, layer.list
    ensures layer.Valid() && Conserved(layer.sb, old(layer.Im()), layer.Im())
    ensures ok <==> !old(Refuses(layer, op))
    ensures !ok ==> Refuses(layer, op)
    ensures forall x :: x in layer.list ==> x in old(layer.list) || fresh(x)
  {
    assert Layout(layer.sb) && |layer.view| == layer.sb.numBlocks;
    assert forall i :: 0 <= i < layer.sb.numInodes ==> EntryAt(layer.sb, layer.view, i) == layer.es[i];
    hide FsOk, Content, InUse, OwnedBy, Extra, EntryAt;
    ok := true;
    match op
    case AllocOp(kind) =>
      if kind < 0x1_0000 {
        var r := Alloc(layer, kind);
        ok := r.Done?;
      }
    case GetOp(inodeNo) =>
      var r := Get(layer, inodeNo);
      ok := r.Done?;
    case LockOp(k) =>
      if k < |layer.list| && EntryAt(layer.sb, layer.view, layer.list[k].inodeNo).kind != INODE_INVALID {
        Lock(layer, layer.list[k]);
      }
  }

  method FileStep(layer: InodeLayer, op: Op) returns (ok: bool)
    requires layer.Valid() && (op.WriteOp? || op.ClearOp? || op.PutOp?)
    modifies layer`view, layer`es, layer`list, layer.list
    ensures ok || old(Refuses(layer, op)) ==> layer.Valid() && Conserved(layer.sb, old(layer.Im()), layer.Im())
    ensures old(Refuses(layer, op)) ==> !ok && Refuses(layer, op)
    ensures !ok ==> old(Refuses(layer, op)) || DiskFull(layer, op)
    ensures forall x :: x in layer.list ==> x in old(layer.list)
  {
    hide FsOk, Content, InUse, OwnedBy, Extra, Overwrite;
    ok := true;
    match op
    case WriteOp(k, offset, src) =>
      if k < |layer.list| && layer.list[k].valid && |src| < USIZE {
        layer.OnlyOne(layer.list[k]);
        var r := layer.Write(layer.list[k], offset, src);
        ok := r.Done?;
      }
    case ClearOp(k) =>
      if k < |layer.list| && layer.list[k].valid {
        layer.Clear(layer.list[k]);
      }
    case PutOp(k) =>
      if k < |layer.list| && layer.list[k].valid && layer.list[k].rc > 0 {
        Put(layer, layer.list[k]);
      }
  }

  /** One operation; calls that the source does not allow are skipped. It fails exactly where
      the kernel refuses the operation, or when a write finds every block marked. */
  method Step(layer: InodeLayer, op: Op) returns (ok: bool)
    requires layer.Valid()
    modifies layer`view, layer`es, layer`list, layer.list
    ensures ok || old(Refuses(layer, op)) ==> layer.Valid() && Conserved(layer.sb, old(layer.Im()), layer.Im())
    ensures old(Refuses(layer, op)) ==> !ok && Refuses(layer, op)
    ensures !ok ==> old(Refuses(layer, op)) || DiskFull(layer, op)
    ensures forall x :: x in layer.list ==> x in old(layer.list) || fresh(x)
  {
    hide FsOk, Conserved, NoneFree;
    if op.AllocOp? || op.GetOp? || op.LockOp? {
      ok := TableStep(layer, op);
    } else {
      ok := FileStep(layer, op);
    }
  }

  /** Block ownership over any run: no two slots hold the same block, every block in a slot
      is a marked data block, and the marked blocks that nobody owns stay the same ones, so
      free blocks plus owned blocks are constant. A run ends early, after `n` operations,
      only where the next one is refused or finds every block marked; a refusal leaves
      everything as it was. */
  method Run(layer: InodeLayer, ops: seq<Op>) returns (ok: bool, n: nat)
    requires layer.Valid()
    modifies layer`view, layer`es, layer`list, layer.list
    ensures ok ==> n == |ops|
    ensures !ok ==> n < |ops| && (DiskFull(layer, ops[n]) || (layer.Valid() && Refuses(layer, ops[n])))
    ensures ok || !DiskFull(layer, ops[n]) ==>
      && layer.Valid() && SlotsOk(layer.sb, layer.Im()) && Conserved(layer.sb, old(layer.Im()), layer.Im())
      && FreeAndOwned(layer.sb, layer.Im()) == FreeAndOwned(layer.sb, old(layer.Im()))
  {
    ghost var im := layer.Im();
    assert Conserved(layer.sb, im, im);
    hide Conserved, FsOk, Refuses, DiskFull;
    ok, n := true, 0;
    while n < |ops|
      invariant 0 <= n <= |ops| && ok
      invariant layer.Valid() && Conserved(layer.sb, im, layer.Im())
      invariant forall x :: x in layer.list ==> x in old(layer.list) || fresh(x)
    {
      ghost var im1 := layer.Im();
      assert forall i :: 0 <= i < |layer.list| ==> layer.list[i] in old(layer.list) || fresh(layer.list[i]);
      ok := Step(layer, ops[n]);
      if !ok {
        if !DiskFull(layer, ops[n]) {
          WriteConserves(layer.sb, im, im1, layer.Im());
          FinalState(layer.sb, im, layer.Im());
        }
        return;
      }
      WriteConserves(layer.sb, im, im1, layer.Im());
      n := n + 1;
    }
    FinalState(layer.sb, im, layer.Im());
  }

  lemma {:induction false} FinalState(sb: SuperBlock, im: Image, im': Image)
    requires FsOk(sb, im, sb.numInodes, 0) && FsOk(sb, im', sb.numInodes, 0) && Conserved(sb, im, im')
    ensures SlotsOk(sb, im')
    ensures FreeAndOwned(sb, im') == FreeAndOwned(sb, im)
  {
    assert SlotsOk(sb, im) && SlotsOk(sb, im');
    hide FsOk;
    FreePlusOwned(sb, im, im');
  }

  ghost function Free(sb: SuperBlock, im: Image): (s: set<nat>) {
    set b: nat | b < sb.numBlocks && b != 0 && !InUse(sb, im.d, b)
  }

  ghost function OwnedSet(sb: SuperBlock, im: Image): (s: set<nat>) {
    set b: nat | b < sb.numBlocks && b != 0 && InUse(sb, im.d, b) && Owned(im, b)
  }

  ghost function FreeAndOwned(sb: SuperBlock, im: Image): (n: nat) {
    |Free(sb, im)| + |OwnedSet(sb, im)|
  }

  lemma FreePlusOwned(sb: SuperBlock, im: Image, im': Image)
    requires Conserved(sb, im, im')
    ensures FreeAndOwned(sb, im') == FreeAndOwned(sb, im)
  {
    hide InUse, Owned;
    assert forall b: nat :: b in Free(sb, im) + OwnedSet(sb, im) <==> b < sb.numBlocks && b != 0 && !Extra(sb, im, b);
    assert forall b: nat ::
      b in Free(sb, im') + OwnedSet(sb, im') <==> b < sb.numBlocks && b != 0 && !Extra(sb, im', b);
    assert Free(sb, im') + OwnedSet(sb, im') == Free(sb, im) + OwnedSet(sb, im);
    Disjoint(Free(sb, im), OwnedSet(sb, im));
    Disjoint(Free(sb, im'), OwnedSet(sb, im'));
  }

  lemma Disjoint(a: set<nat>, b: set<nat>)
    requires a !! b
    ensures |a + b| == |a| + |b|
  {
  }
}
