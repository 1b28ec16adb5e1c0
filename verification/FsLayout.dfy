/** On-disk layout of the file system: sizes, the super block, sectors of bytes and
    the little-endian words stored in them (src/fs/defines.h). */
module FsLayout {

  const BLOCK_SIZE := 512
  const BIT_PER_BLOCK := 4096
  /** (BLOCK_SIZE - sizeof(usize)) / sizeof(usize) */
  const LOG_MAX_SIZE := 63
  const OP_MAX_NUM_BLOCKS := 10
  const EVICTION_THRESHOLD := 20

  type Byte = x: int | 0 <= x < 256

  type Block = s: seq<Byte> | |s| == BLOCK_SIZE witness ZeroBlock()

  /** A block device: one sector per block number. */
  type Disk = seq<Block>

  function ZeroBlock(): (s: seq<Byte>)
    ensures |s| == BLOCK_SIZE
  {
    seq(BLOCK_SIZE, _ => 0)
  }

  datatype SuperBlock = SuperBlock(
    numBlocks: nat,
    numInodes: nat,
    numLogBlocks: nat,
    logStart: nat,
    inodeStart: nat,
    bitmapStart: nat)
  {
    /** Block numbers of the logging area, header included. */
    predicate InLog(b: nat) {
      logStart <= b < logStart + numLogBlocks
    }

    /** Blocks that operations may modify: on the disk, outside the logging area. */
    predicate Home(b: nat) {
      b < numBlocks && !InLog(b)
    }
  }

  // ---------- little-endian words ----------

  function Power256(k: nat): (p: nat)
    ensures p >= 1
  {
    if k == 0 then 1 else 256 * Power256(k - 1)
  }

  function EncodeWord(n: nat, k: nat): (s: seq<Byte>)
    ensures |s| == k
  {
    if k == 0 then [] else [n % 256] + EncodeWord(n / 256, k - 1)
  }

  function DecodeWord(s: seq<Byte>): (n: nat)
    ensures n < Power256(|s|)
  {
    if s == [] then 0 else s[0] + 256 * DecodeWord(s[1..])
  }

  lemma {:induction false} WordRoundTrip(n: nat, k: nat)
    requires n < Power256(k)
    ensures DecodeWord(EncodeWord(n, k)) == n
  {
    if k > 0 {
      WordRoundTrip(n / 256, k - 1);
      assert EncodeWord(n, k)[1..] == EncodeWord(n / 256, k - 1);
    }
  }

  /** Consecutive words of `k` bytes each. */
  function EncodeWords(ws: seq<nat>, k: nat): (s: seq<Byte>)
    ensures |s| == |ws| * k
  {
    if ws == [] then [] else
      assert |ws| * k == k + (|ws| - 1) * k;
      EncodeWord(ws[0], k) + EncodeWords(ws[1..], k)
  }

  lemma IndexInside(i: nat, n: nat, k: nat)
    requires i < n
    ensures 0 <= i * k <= i * k + k <= n * k
  {
    assert (n - 1 - i) * k >= 0;
    assert n * k == i * k + k + (n - 1 - i) * k;
  }

  /** Word `i` of a sector that holds `k`-byte words. */
  function WordAt(s: seq<Byte>, i: nat, k: nat): (n: nat)
    requires i * k + k <= |s|
    ensures n < Power256(k)
  {
    DecodeWord(s[i * k..i * k + k])
  }

  lemma {:induction false} WordsRoundTrip(ws: seq<nat>, k: nat, i: nat)
    requires i < |ws| && ws[i] < Power256(k)
    ensures i * k + k <= |ws| * k
    ensures WordAt(EncodeWords(ws, k), i, k) == ws[i]
  {
    IndexInside(i, |ws|, k);
    var s := EncodeWords(ws, k);
    if i == 0 {
      assert s[0..k] == EncodeWord(ws[0], k);
      WordRoundTrip(ws[0], k);
    } else {
      WordsRoundTrip(ws[1..], k, i - 1);
      assert i * k == (i - 1) * k + k;
      Behind(EncodeWord(ws[0], k), EncodeWords(ws[1..], k), (i - 1) * k, k);
    }
  }

  lemma Behind<T>(s: seq<T>, t: seq<T>, o: nat, k: nat)
    requires o + k <= |t|
    ensures (s + t)[|s| + o..|s| + o + k] == t[o..o + k]
  {
  }
}
