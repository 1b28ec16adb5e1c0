/** An empty file system, on every layout of a disk: metadata blocks are marked, every other
    block is free, and no inode is in use. The mkfs tool (src/user/mkfs/main.c) makes one and
    adds a root directory and files. */
module FreshDisks {
  import opened FsLayout
  import opened Bitmaps
  import opened InodeFormat
  import opened FileSpec
  import opened Inodes

  function ZeroDisk(n: nat): (d: Disk)
    ensures |d| == n && forall b :: 0 <= b < n ==> d[b] == ZeroBlock()
  {
    seq(n, _ => ZeroBlock())
  }

  /** The metadata blocks below `n` are marked. */
  function MarkMeta(sb: SuperBlock, d: Disk, n: nat): (r: Disk)
    requires |d| == sb.numBlocks && n <= sb.numBlocks && sb.bitmapStart + NumBitmapBlocks(sb) <= sb.numBlocks
    ensures |r| == |d|
  {
    if n == 0 then d
    else if Meta(sb, n - 1) then Marked(sb, MarkMeta(sb, d, n - 1), n - 1)
    else MarkMeta(sb, d, n - 1)
  }

  function Fresh(sb: SuperBlock): (d: Disk)
    requires sb.bitmapStart + NumBitmapBlocks(sb) <= sb.numBlocks
    ensures |d| == sb.numBlocks
  {
    MarkMeta(sb, ZeroDisk(sb.numBlocks), sb.numBlocks)
  }

  lemma {:induction false} MarkMetaOnly(sb: SuperBlock, d: Disk, n: nat, x: nat)
    requires |d| == sb.numBlocks && n <= sb.numBlocks && x < sb.numBlocks
    requires sb.bitmapStart + NumBitmapBlocks(sb) <= sb.numBlocks
    ensures Used(sb, MarkMeta(sb, d, n), x) <==> Used(sb, d, x) || (x < n && Meta(sb, x))
  {
    if n > 0 {
      MarkMetaOnly(sb, d, n - 1, x);
      hide Used, Marked;
      if Meta(sb, n - 1) { MarkedOnly(sb, MarkMeta(sb, d, n - 1), n - 1, x); }
    }
  }

  lemma {:induction false} MarkMetaElsewhere(sb: SuperBlock, d: Disk, n: nat, b: nat)
    requires |d| == sb.numBlocks && n <= sb.numBlocks && b < sb.numBlocks && !InBitmap(sb, b)
    requires sb.bitmapStart + NumBitmapBlocks(sb) <= sb.numBlocks
    ensures MarkMeta(sb, d, n)[b] == d[b]
  {
    if n > 0 {
      MarkMetaElsewhere(sb, d, n - 1, b);
      assert InBitmap(sb, sb.bitmapStart + (n - 1) / BIT_PER_BLOCK);
    }
  }

  lemma {:induction false} ZeroBit(k: nat)
    ensures !Bit(0, k)
  {
    if k > 0 { ZeroBit(k - 1); }
  }

  /** Exactly the metadata blocks are marked. */
  lemma {:induction false} FreshMarks(sb: SuperBlock, x: nat)
    requires sb.bitmapStart + NumBitmapBlocks(sb) <= sb.numBlocks && x < sb.numBlocks
    ensures InUse(sb, Fresh(sb), x) <==> Meta(sb, x)
  {
    MarkMetaOnly(sb, ZeroDisk(sb.numBlocks), sb.numBlocks, x);
    ZeroBit(x % BIT_PER_BLOCK % 8);
  }

  lemma ZeroWords(s: seq<Byte>, i: nat, k: nat)
    requires (forall p :: 0 <= p < |s| ==> s[p] == 0) && i * k + k <= |s|
    ensures WordAt(s, i, k) == 0
  {
    ZeroWord(s[i * k..i * k + k]);
  }

  lemma {:induction false} ZeroEntries(j: nat)
    requires j < INODE_PER_BLOCK
    ensures GetEntry(ZeroBlock(), j) == ZeroEntry()
  {
    hide WordAt;
    var s := ZeroBlock()[ENTRY_SIZE * j..ENTRY_SIZE * j + ENTRY_SIZE];
    var halves, words := s[..8], s[8..];
    assert forall p :: 0 <= p < ENTRY_SIZE ==> s[p] == 0;
    assert forall p :: 0 <= p < |words| ==> words[p] == s[8 + p];
    forall i: nat | i < 4 ensures WordAt(halves, i, 2) == 0 { ZeroWords(halves, i, 2); }
    forall i: nat | i < 14 ensures WordAt(words, i, 4) == 0 { ZeroWords(words, i, 4); }
    assert DecodeEntry(s).addrs == ZeroEntry().addrs;
  }

  /** Every entry on a fresh disk is free. */
  lemma {:induction false} FreshEntries(sb: SuperBlock, i: nat)
    requires Layout(sb) && i < sb.numInodes
    ensures EntryAt(sb, Fresh(sb), i) == ZeroEntry()
  {
    hide GetEntry, ZeroEntry;
    var b := sb.inodeStart + i / INODE_PER_BLOCK;
    assert InInodes(sb, b);
    MarkMetaElsewhere(sb, ZeroDisk(sb.numBlocks), sb.numBlocks, b);
    ZeroEntries(i % INODE_PER_BLOCK);
  }

  /** A fresh disk is consistent, on every layout of the disk. */
  lemma {:induction false} FreshIsOk(sb: SuperBlock)
    requires Layout(sb)
    ensures FsOk(sb, Image(Fresh(sb), EntriesOf(sb, Fresh(sb))), sb.numInodes, 0)
    ensures forall x: nat :: x < sb.numBlocks ==> (InUse(sb, Fresh(sb), x) <==> Meta(sb, x))
  {
    hide Fresh, EntryAt;
    var im := Image(Fresh(sb), EntriesOf(sb, Fresh(sb)));
    forall i | 0 <= i < sb.numInodes ensures im.es[i] == ZeroEntry() { FreshEntries(sb, i); }
    forall x: nat | x < sb.numBlocks ensures InUse(sb, im.d, x) <==> Meta(sb, x) { FreshMarks(sb, x); }
    assert forall i, k :: Slot(im, i, k) == 0;
    hide Slot, InUse, Meta;
    assert Ok(sb, im);
  }

  /** init_inodes on an empty file system: the inode layer starts out valid, with no block owned. */
  method Format(sb: SuperBlock) returns (layer: InodeLayer)
    requires Layout(sb)
    ensures fresh(layer) && layer.Valid() && layer.sb == sb && layer.list == []
    ensures forall x: nat :: x < sb.numBlocks ==> (InUse(sb, layer.view, x) <==> Meta(sb, x))
  {
    FreshIsOk(sb);
    hide FsOk, Fresh;
    layer := new InodeLayer(sb, Fresh(sb));
  }
}
