/** cache_alloc and cache_free over the block cache (src/fs/cache.c). */
module BlockAllocator {
  import opened FsLayout
  import opened Journal
  import LogProtocol
  import opened CacheSpec
  import opened BlockCaches
  import opened Bitmaps

  /** `NoSpace` and `OutOfBudget` are the two ways alloc stops the kernel. */
  datatype AllocResult = Allocated(b: nat) | NoSpace | OutOfBudget

  lemma HeaderInLog(sb: SuperBlock)
    requires LogProtocol.Layout(sb)
    ensures sb.InLog(sb.logStart)
  {
  }

  lemma UsedAt(sb: SuperBlock, d: Disk, q: nat, i: nat)
    requires sb.bitmapStart + NumBitmapBlocks(sb) <= sb.numBlocks == |d|
    requires i < BIT_PER_BLOCK && q * BIT_PER_BLOCK + i < sb.numBlocks
    ensures q < NumBitmapBlocks(sb)
    ensures Used(sb, d, q * BIT_PER_BLOCK + i) <==> BlockBit(d[sb.bitmapStart + q], i)
  {
    assert (q * BIT_PER_BLOCK + i) / BIT_PER_BLOCK == q && (q * BIT_PER_BLOCK + i) % BIT_PER_BLOCK == i;
  }

  /** Every block below `n` is marked. */
  ghost predicate AllUsed(sb: SuperBlock, d: Disk, n: nat)
    requires sb.bitmapStart + NumBitmapBlocks(sb) <= sb.numBlocks == |d|
  {
    forall j: nat :: j < n && j < sb.numBlocks ==> Used(sb, d, j)
  }

  /** Scan of bitmap block `q`: the first block of the disk whose bit is clear, if any. */
  method FindFree(sb: SuperBlock, ghost d: Disk, q: nat, data: Block) returns (found: bool, j: nat)
    requires sb.bitmapStart + NumBitmapBlocks(sb) <= sb.numBlocks == |d| && q < NumBitmapBlocks(sb)
    requires data == d[sb.bitmapStart + q] && AllUsed(sb, d, q * BIT_PER_BLOCK)
    ensures !found ==> AllUsed(sb, d, (q + 1) * BIT_PER_BLOCK)
    ensures found ==> j < sb.numBlocks && j / BIT_PER_BLOCK == q && AllUsed(sb, d, j) && !Used(sb, d, j)
  {
    var i := 0;
    while i < BIT_PER_BLOCK && i + q * BIT_PER_BLOCK < sb.numBlocks
      invariant 0 <= i <= BIT_PER_BLOCK
      invariant AllUsed(sb, d, q * BIT_PER_BLOCK + i)
    {
      UsedAt(sb, d, q, i);
      if !BlockBit(data, i) {
        return true, q * BIT_PER_BLOCK + i;
      }
      i := i + 1;
    }
    found, j := false, 0;
  }

  /** Write, sync and release a held block. */
  method Put(c: BlockCache, ctx: OpContext, blk: CachedBlock, data: Block) returns (ok: bool)
    requires c.Valid() && c.Runs(ctx) && c.sb.Home(blk.blockNo)
    requires blk in c.list && blk.acquired && blk.valid
    modifies c, ctx`rm, blk
    ensures ok ==> c.Valid() && c.Runs(ctx) && c.Holding() == old(c.Holding()) - {blk.blockNo}
    ensures ok ==> |c.view| == |old(c.view)| && blk.blockNo < |c.view| && c.view == old(c.view)[blk.blockNo := data]
    ensures ok ==> ctx.rm >= old(ctx.rm) - 1
    ensures !ok ==> old(ctx.rm) == 0
    ensures blk.blockNo == old(blk.blockNo)
    ensures ok ==> forall x :: x in c.list ==> x in old(c.list)
  {
    hide LogProtocol.Inv, LogProtocol.Layout, Cached, Held, SlotsOf, Separate;
    c.Edit(blk, data, 0);
    ok := c.Sync(ctx, blk);
    if ok {
      c.Release(blk, 0);
    }
  }

  /** Acquire, overwrite, sync and release. */
  method Overwrite(c: BlockCache, ctx: OpContext, b: nat, data: Block) returns (ok: bool)
    requires c.Valid() && c.Runs(ctx) && c.sb.Home(b) && b !in c.Holding()
    modifies c, ctx`rm, c.list
    ensures ok ==> c.Valid() && c.Runs(ctx) && c.Holding() == old(c.Holding())
    ensures ok ==> |c.view| == |old(c.view)| && b < |c.view| && c.view == old(c.view)[b := data]
    ensures ok ==> ctx.rm >= old(ctx.rm) - 1
    ensures !ok ==> old(ctx.rm) == 0
    ensures ok ==> forall x :: x in c.list ==> x in old(c.list) || fresh(x)
  {
    hide LogProtocol.Inv, LogProtocol.Layout, Cached, Held, SlotsOf, Separate;
    var blk := c.Acquire(b, 0);
    assert forall i :: 0 <= i < |c.list| ==> c.list[i] in old(c.list) || fresh(c.list[i]);
    ok := Put(c, ctx, blk, data);
    if ok {
      assert c.Holding() == old(c.Holding()) + {b} - {b};
    }
  }

  /** Metadata blocks are marked, and so is everything that is held. */
  ghost predicate Sensible(sb: SuperBlock, view: Disk, holding: set<nat>) {
    && BitmapLayout(sb) && InBitmap(sb, sb.bitmapStart + NumBitmapBlocks(sb) - 1)
    && sb.bitmapStart + NumBitmapBlocks(sb) <= sb.numBlocks == |view|
    && (forall b: nat :: b < sb.numBlocks && (!sb.Home(b) || InBitmap(sb, b)) ==> Used(sb, view, b))
    && (forall b: nat :: b in holding ==> b < sb.numBlocks && Used(sb, view, b) && !InBitmap(sb, b))
  }

  /** Bitmap blocks can be read. */
  lemma BitmapReadable(sb: SuperBlock, view: Disk, holding: set<nat>, q: nat)
    requires LogProtocol.Layout(sb) && Sensible(sb, view, holding) && q < NumBitmapBlocks(sb)
    ensures sb.bitmapStart + NumBitmapBlocks(sb) <= sb.numBlocks == |view|
    ensures var b := sb.bitmapStart + q;
      sb.Home(b) && b !in holding && b != sb.logStart
  {
    assert InBitmap(sb, sb.bitmapStart + q);
  }

  /** Free blocks can be taken. */
  lemma FreeIsHome(sb: SuperBlock, view: Disk, holding: set<nat>, j: nat)
    requires Sensible(sb, view, holding) && j < sb.numBlocks && !Used(sb, view, j)
    ensures sb.Home(j) && j !in holding && j != sb.bitmapStart + j / BIT_PER_BLOCK
  {
    assert InBitmap(sb, sb.bitmapStart + j / BIT_PER_BLOCK);
  }

  /** A clear bit has been found: mark it and zero the block. */
  method Take(c: BlockCache, ctx: OpContext, blk: CachedBlock, j: nat) returns (ok: bool)
    requires c.Valid() && c.Runs(ctx) && blk in c.list && blk.acquired && blk.valid
    requires j < c.sb.numBlocks == |c.view|
    requires blk.blockNo == c.sb.bitmapStart + j / BIT_PER_BLOCK && c.sb.Home(blk.blockNo)
    requires blk.data == c.view[blk.blockNo]
    requires c.sb.bitmapStart + NumBitmapBlocks(c.sb) <= c.sb.numBlocks
    requires c.sb.Home(j) && j !in c.Holding()
    modifies c, ctx`rm, c.list
    ensures ok ==> c.Valid() && c.Runs(ctx) && c.Holding() == old(c.Holding() - {blk.blockNo})
    ensures ok ==> c.view == Marked(c.sb, old(c.view), j)[j := ZeroBlock()]
    ensures !ok ==> old(ctx.rm) < 2
  {
    hide LogProtocol.Inv, LogProtocol.Layout, Cached, Held, SlotsOf, Separate, SetBlockBit, NumBitmapBlocks;
    ghost var marked := Marked(c.sb, c.view, j);
    ok := Put(c, ctx, blk, SetBlockBit(blk.data, j % BIT_PER_BLOCK));
    if ok {
      assert c.view == marked;
      hide Marked;
      assert forall i :: 0 <= i < |c.list| ==> c.list[i] in old(c.list);
      ok := Overwrite(c, ctx, j, ZeroBlock());
    }
  }

  /** What alloc promises, in terms of the contents before and after. */
  ghost predicate AllocOutcome(r: AllocResult, sb: SuperBlock, before: Disk, after: Disk)
    requires sb.bitmapStart + NumBitmapBlocks(sb) <= sb.numBlocks == |before|
  {
    match r
    case Allocated(b) =>
      b < sb.numBlocks && AllUsed(sb, before, b) && !Used(sb, before, b) &&
      after == Marked(sb, before, b)[b := ZeroBlock()]
    case NoSpace => AllUsed(sb, before, sb.numBlocks) && after == before
    case OutOfBudget => true
  }

  /** The scan of bitmap block `q`, held as `blk`, which is given up if it has no clear bit. */
  method ScanHeld(c: BlockCache, q: nat, blk: CachedBlock) returns (found: bool, j: nat)
    requires c.Valid() && c.sb.bitmapStart + NumBitmapBlocks(c.sb) <= c.sb.numBlocks == |c.view|
    requires q < NumBitmapBlocks(c.sb) && AllUsed(c.sb, c.view, q * BIT_PER_BLOCK)
    requires blk in c.list && blk.acquired && blk.valid && blk.blockNo == c.sb.bitmapStart + q
    requires blk.data == c.view[blk.blockNo] && blk.data == Expected(c.Whole(), blk.blockNo)
    modifies c`list, blk`acquired
    ensures c.Valid()
    ensures !found ==> c.Holding() == old(c.Holding()) - {blk.blockNo} && AllUsed(c.sb, c.view, (q + 1) * BIT_PER_BLOCK)
    ensures found ==>
      && j < c.sb.numBlocks && j / BIT_PER_BLOCK == q && AllUsed(c.sb, c.view, j) && !Used(c.sb, c.view, j)
      && c.Holding() == old(c.Holding()) && c.list == old(c.list) && blk.acquired
    ensures forall x :: x in c.list ==> x in old(c.list)
  {
    hide LogProtocol.Inv, LogProtocol.Layout, Cached, Held, SlotsOf, Separate, BlockBit, Used, AllUsed, NumBitmapBlocks;
    found, j := FindFree(c.sb, c.view, q, blk.data);
    if !found {
      c.Release(blk, 0);
      assert c.Abs() == old(c.Abs());
    }
  }

  /** One turn of alloc's outer loop: bitmap block `q` is searched, and stays held if it
      has a clear bit. */
  method ScanBlock(c: BlockCache, q: nat) returns (found: bool, blk: CachedBlock, j: nat)
    requires c.Valid() && Sensible(c.sb, c.view, c.Holding()) && q < NumBitmapBlocks(c.sb)
    requires AllUsed(c.sb, c.view, q * BIT_PER_BLOCK)
    modifies c`list, c.list
    ensures c.Valid()
    ensures !found ==> c.Holding() == old(c.Holding()) && AllUsed(c.sb, c.view, (q + 1) * BIT_PER_BLOCK)
    ensures found ==>
      && j < c.sb.numBlocks && j / BIT_PER_BLOCK == q && AllUsed(c.sb, c.view, j) && !Used(c.sb, c.view, j)
      && c.Holding() == old(c.Holding()) + {c.sb.bitmapStart + q}
      && blk in c.list && blk.acquired && blk.valid && blk.blockNo == c.sb.bitmapStart + q
      && blk.data == c.view[c.sb.bitmapStart + q]
    ensures forall x :: x in c.list ==> x in old(c.list) || fresh(x)
  {
    hide LogProtocol.Inv, LogProtocol.Layout, Cached, Held, SlotsOf, Separate, BlockBit, Sensible, Used, AllUsed,
      NumBitmapBlocks;
    BitmapReadable(c.sb, c.view, c.Holding(), q);
    blk := c.Acquire(c.sb.bitmapStart + q, 0);
    assert c.Abs() == old(c.Abs());
    found, j := ScanHeld(c, q, blk);
    assert c.Holding() - {c.sb.bitmapStart + q} == old(c.Holding()) - {c.sb.bitmapStart + q} == old(c.Holding());
  }

  /** Enough bitmap blocks have been searched for the whole disk. */
  lemma AllScanned(sb: SuperBlock, d: Disk, q: nat)
    requires sb.bitmapStart + NumBitmapBlocks(sb) <= sb.numBlocks == |d|
    requires AllUsed(sb, d, q * BIT_PER_BLOCK) && q >= NumBitmapBlocks(sb)
    ensures AllUsed(sb, d, sb.numBlocks)
  {
    hide Used;
    assert sb.numBlocks <= q * BIT_PER_BLOCK;
  }

  /** The end of alloc when bitmap block `q`, held as `blk`, has the first clear bit. */
  method TakeFound(c: BlockCache, ctx: OpContext, blk: CachedBlock, q: nat, j: nat, ghost holding: set<nat>)
      returns (r: AllocResult)
    requires c.Valid() && c.Runs(ctx) && Sensible(c.sb, c.view, holding) && q < NumBitmapBlocks(c.sb)
    requires j < c.sb.numBlocks && j / BIT_PER_BLOCK == q && AllUsed(c.sb, c.view, j) && !Used(c.sb, c.view, j)
    requires c.Holding() == holding + {c.sb.bitmapStart + q}
    requires blk in c.list && blk.acquired && blk.valid && blk.blockNo == c.sb.bitmapStart + q
      && blk.data == c.view[c.sb.bitmapStart + q]
    modifies c, ctx`rm, c.list
    ensures !r.NoSpace?
    ensures r.Allocated? ==> c.Valid() && c.Runs(ctx) && c.Holding() == holding
    ensures AllocOutcome(r, c.sb, old(c.view), c.view)
    ensures r.OutOfBudget? ==> old(ctx.rm) < 2
  {
    hide LogProtocol.Inv, LogProtocol.Layout, Cached, Held, SlotsOf, Separate, SetBlockBit, BlockBit, Used, Marked;
    FreeIsHome(c.sb, c.view, holding, j);
    BitmapReadable(c.sb, c.view, holding, q);
    var ok := Take(c, ctx, blk, j);
    r := if ok then Allocated(j) else OutOfBudget;
  }

  /** cache_alloc: the least block that is not marked is marked and zeroed, and nothing
      else changes; it fails for lack of space exactly when every block is marked. */
  method Alloc(c: BlockCache, ctx: OpContext) returns (r: AllocResult)
    requires c.Valid() && c.Runs(ctx) && Sensible(c.sb, c.view, c.Holding())
    modifies c, ctx`rm, c.list
    ensures !r.OutOfBudget? ==> c.Valid() && c.Runs(ctx) && c.Holding() == old(c.Holding())
    ensures AllocOutcome(r, c.sb, old(c.view), c.view)
    ensures r.OutOfBudget? ==> old(ctx.rm) < 2 && !AllUsed(c.sb, old(c.view), c.sb.numBlocks)
  {
    hide LogProtocol.Inv, LogProtocol.Layout, Cached, Held, SlotsOf, Separate, SetBlockBit, BlockBit, Used, Marked;
    var q := 0;
    while q < NumBitmapBlocks(c.sb)
      invariant 0 <= q <= NumBitmapBlocks(c.sb)
      invariant c.Valid() && c.Runs(ctx) && c.view == old(c.view) && c.Holding() == old(c.Holding())
      invariant ctx.rm == old(ctx.rm) && AllUsed(c.sb, c.view, q * BIT_PER_BLOCK)
      invariant forall x :: x in c.list ==> x in old(c.list) || fresh(x)
    {
      assert forall i :: 0 <= i < |c.list| ==> c.list[i] in old(c.list) || fresh(c.list[i]);
      var found, blk, j := ScanBlock(c, q);
      if found {
        assert forall i :: 0 <= i < |c.list| ==> c.list[i] in old(c.list) || fresh(c.list[i]);
        r := TakeFound(c, ctx, blk, q, j, old(c.Holding()));
        return;
      }
      q := q + 1;
    }
    AllScanned(c.sb, c.view, q);
    r := NoSpace;
  }

  /** cache_free: the mark of `b` is cleared, and nothing else changes. */
  method Free(c: BlockCache, ctx: OpContext, b: nat) returns (ok: bool)
    requires c.Valid() && c.Runs(ctx) && b < c.sb.numBlocks == |c.view|
    requires BitmapLayout(c.sb) && c.sb.bitmapStart + NumBitmapBlocks(c.sb) <= c.sb.numBlocks
    requires c.sb.bitmapStart + b / BIT_PER_BLOCK !in c.Holding()
    modifies c, ctx`rm, c.list
    ensures !ok ==> old(ctx.rm) == 0
    ensures ok ==> c.Valid() && c.Runs(ctx) && c.Holding() == old(c.Holding())
    ensures ok ==> c.view == Unmarked(c.sb, old(c.view), b)
  {
    hide LogProtocol.Inv, LogProtocol.Layout, Cached, Held, SlotsOf, Separate, ClearBlockBit, BlockCache.Took;
    var q, bi := c.sb.bitmapStart + b / BIT_PER_BLOCK, b % BIT_PER_BLOCK;
    assert InBitmap(c.sb, q);
    HeaderInLog(c.sb);
    var blk := c.Acquire(q, 0);
    assert blk.data == c.view[q];
    assert forall i :: 0 <= i < |c.list| ==> c.list[i] in old(c.list) || fresh(c.list[i]);
    ok := Put(c, ctx, blk, ClearBlockBit(blk.data, bi));
    if ok {
      assert c.Holding() == old(c.Holding()) + {q} - {q};
    }
  }
}
