/** The bitmap of allocated blocks, over the last synced contents (src/fs/cache.c,
    cache_alloc and cache_free). */
module Bitmaps {
  import opened FsLayout

  // ---------- bits of a byte ----------

  function Power2(n: nat): (p: nat)
    ensures p >= 1
  {
    if n == 0 then 1 else 2 * Power2(n - 1)
  }

  /** (x & (1 << k)) != 0 */
  predicate Bit(x: nat, k: nat) {
    if k == 0 then x % 2 == 1 else Bit(x / 2, k - 1)
  }

  /** x | (1 << k) */
  function SetBit(x: nat, k: nat): (r: nat) {
    if k == 0 then x / 2 * 2 + 1 else SetBit(x / 2, k - 1) * 2 + x % 2
  }

  /** x & ~(1 << k) */
  function ClearBit(x: nat, k: nat): (r: nat)
    ensures r <= x
  {
    if k == 0 then x / 2 * 2 else ClearBit(x / 2, k - 1) * 2 + x % 2
  }

  lemma {:induction false} SetBitBound(x: nat, k: nat, n: nat)
    requires x < Power2(n) && k < n
    ensures SetBit(x, k) < Power2(n)
  {
    var p := Power2(n - 1);
    assert x / 2 < p;
    if k > 0 {
      SetBitBound(x / 2, k - 1, n - 1);
      var r := SetBit(x / 2, k - 1);
      assert r < p && SetBit(x, k) == r * 2 + x % 2;
    }
  }

  lemma {:induction false} SetBitOnly(x: nat, k: nat, j: nat)
    ensures Bit(SetBit(x, k), j) <==> j == k || Bit(x, j)
    decreases k
  {
    if k > 0 && j > 0 {
      SetBitOnly(x / 2, k - 1, j - 1);
      assert SetBit(x, k) / 2 == SetBit(x / 2, k - 1);
    }
  }

  lemma {:induction false} ClearBitOnly(x: nat, k: nat, j: nat)
    ensures Bit(ClearBit(x, k), j) <==> j != k && Bit(x, j)
    decreases k
  {
    if k > 0 && j > 0 {
      ClearBitOnly(x / 2, k - 1, j - 1);
      assert ClearBit(x, k) / 2 == ClearBit(x / 2, k - 1);
    }
  }

  lemma {:induction false} ClearUndoesSet(x: nat, k: nat)
    requires !Bit(x, k)
    ensures ClearBit(SetBit(x, k), k) == x
  {
    if k > 0 {
      ClearUndoesSet(x / 2, k - 1);
      assert SetBit(x, k) / 2 == SetBit(x / 2, k - 1) && SetBit(x, k) % 2 == x % 2;
    }
  }

  // ---------- bits of a block ----------

  predicate BlockBit(b: Block, i: nat)
    requires i < BIT_PER_BLOCK
  {
    Bit(b[i / 8], i % 8)
  }

  function SetBlockBit(b: Block, i: nat): (r: Block)
    requires i < BIT_PER_BLOCK
  {
    assert Power2(4) == 16 && Power2(8) == 256;
    SetBitBound(b[i / 8], i % 8, 8);
    b[i / 8 := SetBit(b[i / 8], i % 8)]
  }

  function ClearBlockBit(b: Block, i: nat): (r: Block)
    requires i < BIT_PER_BLOCK
  {
    b[i / 8 := ClearBit(b[i / 8], i % 8)]
  }

  lemma SetBlockBitOnly(b: Block, i: nat, j: nat)
    requires i < BIT_PER_BLOCK && j < BIT_PER_BLOCK
    ensures BlockBit(SetBlockBit(b, i), j) <==> j == i || BlockBit(b, j)
  {
    SetBitOnly(b[i / 8], i % 8, j % 8);
  }

  lemma ClearBlockBitOnly(b: Block, i: nat, j: nat)
    requires i < BIT_PER_BLOCK && j < BIT_PER_BLOCK
    ensures BlockBit(ClearBlockBit(b, i), j) <==> j != i && BlockBit(b, j)
  {
    ClearBitOnly(b[i / 8], i % 8, j % 8);
  }

  // ---------- the whole bitmap ----------

  /** Number of bitmap blocks that alloc looks at. */
  function NumBitmapBlocks(sb: SuperBlock): (n: nat) {
    1 + sb.numBlocks / BIT_PER_BLOCK
  }

  predicate InBitmap(sb: SuperBlock, b: nat) {
    sb.bitmapStart <= b < sb.bitmapStart + NumBitmapBlocks(sb)
  }

  /** The bitmap lies on the disk, outside the logging area. */
  ghost predicate BitmapLayout(sb: SuperBlock) {
    forall b: nat :: InBitmap(sb, b) ==> sb.Home(b)
  }

  /** Block `j` is marked in use. */
  predicate Used(sb: SuperBlock, d: Disk, j: nat)
    requires |d| == sb.numBlocks && j < sb.numBlocks
    requires sb.bitmapStart + NumBitmapBlocks(sb) <= sb.numBlocks
  {
    BlockBit(d[sb.bitmapStart + j / BIT_PER_BLOCK], j % BIT_PER_BLOCK)
  }

  /** The contents after marking block `j`. */
  function Marked(sb: SuperBlock, d: Disk, j: nat): (r: Disk)
    requires |d| == sb.numBlocks && j < sb.numBlocks
    requires sb.bitmapStart + NumBitmapBlocks(sb) <= sb.numBlocks
    ensures |r| == |d|
  {
    var b := sb.bitmapStart + j / BIT_PER_BLOCK;
    d[b := SetBlockBit(d[b], j % BIT_PER_BLOCK)]
  }

  function Unmarked(sb: SuperBlock, d: Disk, j: nat): (r: Disk)
    requires |d| == sb.numBlocks && j < sb.numBlocks
    requires sb.bitmapStart + NumBitmapBlocks(sb) <= sb.numBlocks
    ensures |r| == |d|
  {
    var b := sb.bitmapStart + j / BIT_PER_BLOCK;
    d[b := ClearBlockBit(d[b], j % BIT_PER_BLOCK)]
  }

  lemma MarkedOnly(sb: SuperBlock, d: Disk, j: nat, i: nat)
    requires |d| == sb.numBlocks && j < sb.numBlocks && i < sb.numBlocks
    requires sb.bitmapStart + NumBitmapBlocks(sb) <= sb.numBlocks
    ensures Used(sb, Marked(sb, d, j), i) <==> i == j || Used(sb, d, i)
  {
    SetBlockBitOnly(d[sb.bitmapStart + j / BIT_PER_BLOCK], j % BIT_PER_BLOCK, i % BIT_PER_BLOCK);
  }

  lemma UnmarkedOnly(sb: SuperBlock, d: Disk, j: nat, i: nat)
    requires |d| == sb.numBlocks && j < sb.numBlocks && i < sb.numBlocks
    requires sb.bitmapStart + NumBitmapBlocks(sb) <= sb.numBlocks
    ensures Used(sb, Unmarked(sb, d, j), i) <==> i != j && Used(sb, d, i)
  {
    ClearBlockBitOnly(d[sb.bitmapStart + j / BIT_PER_BLOCK], j % BIT_PER_BLOCK, i % BIT_PER_BLOCK);
  }

  /** Freeing an allocated block restores the whole bitmap. */
  lemma FreeUndoesAlloc(sb: SuperBlock, d: Disk, j: nat)
    requires |d| == sb.numBlocks && j < sb.numBlocks
    requires sb.bitmapStart + NumBitmapBlocks(sb) <= sb.numBlocks && !Used(sb, d, j)
    ensures Unmarked(sb, Marked(sb, d, j), j) == d
  {
    var b, i := d[sb.bitmapStart + j / BIT_PER_BLOCK], j % BIT_PER_BLOCK;
    ClearUndoesSet(b[i / 8], i % 8);
    assert ClearBlockBit(SetBlockBit(b, i), i) == b;
  }
}
