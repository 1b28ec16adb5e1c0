/** The block allocator over the cache (src/fs/cache.c) keeps the promise that the inode layer
    (src/fs/inode.c) relies on. */
module AllocatorLink {
  import opened FsLayout
  import opened Bitmaps
  import BlockAllocator
  import opened FileSpec

  /** What cache_alloc does, unless the operation has no budget left, is what inode_map counts on. */
  lemma {:induction false} OutcomeIsPromise(sb: SuperBlock, d: Disk, r: BlockAllocator.AllocResult, d': Disk)
    requires |d| == sb.numBlocks && sb.bitmapStart + NumBitmapBlocks(sb) <= sb.numBlocks
    requires !r.OutOfBudget? && BlockAllocator.AllocOutcome(r, sb, d, d')
    ensures AllocPromise(sb, d, r.Allocated?, if r.Allocated? then r.b else 0, d')
  {
    hide Used;
  }

  /** A held block is metadata outside the bitmap, or belongs to an inode. */
  ghost predicate HeldByInodes(sb: SuperBlock, im: Image, holding: set<nat>) {
    forall b: nat :: b in holding ==> b < sb.numBlocks && !InBitmap(sb, b) && (Meta(sb, b) || Owned(im, b))
  }

  /** A consistent file system is one that cache_alloc can work on, whatever blocks the inode
      layer holds meanwhile. */
  lemma {:induction false} OkIsSensible(sb: SuperBlock, im: Image, holding: set<nat>)
    requires Ok(sb, im) && BitmapLayout(sb) && HeldByInodes(sb, im, holding)
    ensures BlockAllocator.Sensible(sb, im.d, holding)
  {
    hide Slot, Used;
    forall b | 0 <= b < sb.numBlocks && (!sb.Home(b) || InBitmap(sb, b)) ensures Used(sb, im.d, b) {
      assert Meta(sb, b) && InUse(sb, im.d, b);
    }
    forall b | b in holding ensures Used(sb, im.d, b) {
      if !Meta(sb, b) {
        var i, k :| Slot(im, i, k) == b;
        assert InUse(sb, im.d, b);
      } else {
        assert InUse(sb, im.d, b);
      }
    }
  }
}
