/** Where every field is on the disk, byte by byte and bit by bit (src/fs/defines.h; the bitmap
    of src/fs/cache.c): numbers are little-endian, structures are packed. */
module DiskLayout {
  import opened FsLayout
  import opened Journal
  import opened Bitmaps
  import opened InodeFormat
  import opened FileSpec
  import opened Directories

  /** Byte `j` of a little-endian number. */
  function ByteOf(n: nat, j: nat): (b: nat) {
    n / Power256(j) % 256
  }

  lemma DivDiv256(n: nat, p: nat)
    requires p > 0
    ensures n / (256 * p) == n / 256 / p
  {
    var q, r := n / 256, n % 256;
    var k, t := q / p, q % p;
    assert q == k * p + t;
    assert n == 256 * (k * p + t) + r;
    assert 256 * (k * p + t) == k * (256 * p) + 256 * t;
    var rest := 256 * t + r;
    assert rest < 256 * p;
    Quotient(n, k, 256 * p, rest);
  }

  lemma Quotient(n: nat, k: nat, m: nat, r: nat)
    requires r < m && n == k * m + r
    ensures n / m == k
  {
    var d := n / m - k;
    assert d * m == r - n % m;
    assert d >= 1 ==> d * m >= m;
    assert -d >= 1 ==> -d * m >= m;
  }

  lemma {:induction false} WordBytes(n: nat, k: nat, j: nat)
    requires j < k
    ensures EncodeWord(n, k)[j] == ByteOf(n, j)
  {
    if j > 0 {
      WordBytes(n / 256, k - 1, j - 1);
      DivDiv256(n, Power256(j - 1));
    }
  }

  lemma {:induction false} WordsBytes(ws: seq<nat>, k: nat, i: nat, j: nat)
    requires i < |ws| && j < k
    ensures 0 <= i * k + j < |ws| * k && EncodeWords(ws, k)[i * k + j] == ByteOf(ws[i], j)
  {
    IndexInside(i, |ws|, k);
    if i == 0 {
      WordBytes(ws[0], k, j);
    } else {
      WordsBytes(ws[1..], k, i - 1, j);
      assert i * k == (i - 1) * k + k;
    }
  }

  /** The log header: eight bytes of count, then eight bytes for every block number. */
  lemma {:induction false} HeaderBytes(h: LogHeader, i: nat, j: nat)
    requires h.Fits() && i < LOG_MAX_SIZE && j < 8
    ensures HeaderBlock(h)[j] == ByteOf(h.num, j)
    ensures HeaderBlock(h)[8 + 8 * i + j] == ByteOf(h.blockNo[i], j)
  {
    var ws := [h.num] + h.blockNo;
    WordsBytes(ws, 8, 0, j);
    WordsBytes(ws, 8, i + 1, j);
  }

  /** An inode: type, major, minor and links in two bytes each, the size in four from byte 8 on,
      twelve addresses of four from byte 12 on, and the indirect block in the last four. */
  lemma {:induction false} EntryBytes(e: Entry, j: nat, k: nat)
    requires k < INODE_NUM_DIRECT && j < 4
    ensures var s := EncodeEntry(e);
      && (j < 2 ==> s[j] == ByteOf(e.kind, j) && s[2 + j] == ByteOf(e.major, j))
      && (j < 2 ==> s[4 + j] == ByteOf(e.minor, j) && s[6 + j] == ByteOf(e.links, j))
      && s[8 + j] == ByteOf(e.numBytes, j)
      && s[12 + 4 * k + j] == ByteOf(e.addrs[k], j)
      && s[60 + j] == ByteOf(e.indirect, j)
  {
    var hs, ws := [e.kind, e.major, e.minor, e.links], [e.numBytes] + e.addrs + [e.indirect];
    if j < 2 {
      WordsBytes(hs, 2, 0, j);
      WordsBytes(hs, 2, 1, j);
      WordsBytes(hs, 2, 2, j);
      WordsBytes(hs, 2, 3, j);
    }
    WordsBytes(ws, 4, 0, j);
    WordsBytes(ws, 4, 1 + k, j);
    WordsBytes(ws, 4, 13, j);
  }

  /** Inode `i` is in block i / 8 of the inode area, 64 bytes from byte 64 * (i % 8) on. */
  lemma {:induction false} InodePlace(sb: SuperBlock, d: Disk, i: nat, e: Entry, o: nat)
    requires i < sb.numInodes && sb.inodeStart + NumInodeBlocks(sb) <= |d| && o < 64
    ensures sb.inodeStart + i / 8 < |d|
    ensures WithEntry(sb, d, i, e)[sb.inodeStart + i / 8][64 * (i % 8) + o] == EncodeEntry(e)[o]
  {
    hide EncodeEntry;
  }

  /** Address `i` of an indirect block is in four bytes from byte 4 * i on. */
  lemma {:induction false} AddrBytes(b: Block, i: nat, n: nat, j: nat)
    requires i < INODE_NUM_INDIRECT && j < 4
    ensures PutAddr(b, i, n)[4 * i + j] == ByteOf(n, j)
  {
    WordBytes(n, 4, j);
  }

  /** A directory entry: the number in two bytes, then fourteen characters. */
  lemma {:induction false} DirBytes(e: DirEnt, i: nat)
    requires i < 14
    ensures EncodeDir(e)[0] == ByteOf(e.ino, 0) && EncodeDir(e)[1] == ByteOf(e.ino, 1)
    ensures EncodeDir(e)[2 + i] == e.name[i]
  {
    WordBytes(e.ino, 2, 0);
    WordBytes(e.ino, 2, 1);
  }

  lemma {:induction false} BitIs(x: nat, k: nat)
    ensures Bit(x, k) <==> x / Power2(k) % 2 == 1
  {
    if k > 0 {
      BitIs(x / 2, k - 1);
      HalfDiv(x, Power2(k - 1));
    }
  }

  lemma HalfDiv(n: nat, p: nat)
    requires p > 0
    ensures n / (2 * p) == n / 2 / p
  {
    var q, r := n / 2, n % 2;
    var k, t := q / p, q % p;
    assert n == 2 * (k * p + t) + r;
    assert 2 * (k * p + t) == k * (2 * p) + 2 * t;
    Quotient(n, k, 2 * p, 2 * t + r);
  }

  /** Block `j` of the disk has the bit of value 2 to the j % 8 in byte j / 8 of the bitmap,
      which goes through the blocks from bitmap_start on. */
  lemma {:induction false} BitmapPlace(sb: SuperBlock, d: Disk, j: nat)
    requires |d| == sb.numBlocks && j < sb.numBlocks && sb.bitmapStart + NumBitmapBlocks(sb) <= sb.numBlocks
    ensures sb.bitmapStart + j / 4096 < |d|
    ensures Used(sb, d, j) <==> d[sb.bitmapStart + j / 4096][j % 4096 / 8] / Power2(j % 8) % 2 == 1
  {
    assert j % 4096 % 8 == j % 8;
    BitIs(d[sb.bitmapStart + j / 4096][j % 4096 / 8], j % 8);
  }
}
