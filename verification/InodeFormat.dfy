/** On-disk inodes and indirect blocks (src/fs/defines.h; get_entry and get_addrs of
    src/fs/inode.c). */
module InodeFormat {
  import opened FsLayout

  const INODE_NUM_DIRECT := 12
  const INODE_NUM_INDIRECT := 128
  const INODE_PER_BLOCK := 8
  const ENTRY_SIZE := 64
  const INODE_MAX_BLOCKS := 140
  const INODE_MAX_BYTES := 71680
  const INODE_INVALID := 0
  const INODE_DIRECTORY := 1

  datatype RawEntry = RawEntry(
    kind: nat, major: nat, minor: nat, links: nat,
    numBytes: nat, addrs: seq<nat>, indirect: nat)

  type Entry = e: RawEntry | |e.addrs| == INODE_NUM_DIRECT witness ZeroEntry()

  function ZeroEntry(): (e: RawEntry)
    ensures |e.addrs| == INODE_NUM_DIRECT
  {
    RawEntry(0, 0, 0, 0, 0, seq(INODE_NUM_DIRECT, _ => 0), 0)
  }

  /** The fields fit their u16 and u32. */
  predicate Fits(e: Entry) {
    && e.kind < 0x1_0000 && e.major < 0x1_0000 && e.minor < 0x1_0000 && e.links < 0x1_0000
    && e.numBytes < 0x1_0000_0000 && e.indirect < 0x1_0000_0000
    && forall k :: 0 <= k < INODE_NUM_DIRECT ==> e.addrs[k] < 0x1_0000_0000
  }

  lemma Powers()
    ensures Power256(2) == 0x1_0000 && Power256(4) == 0x1_0000_0000
  {
    assert Power256(1) == 256 && Power256(2) == 65536 && Power256(3) == 16777216;
  }

  function Halves(e: Entry): (s: seq<Byte>)
    ensures |s| == 8
  {
    EncodeWords([e.kind, e.major, e.minor, e.links], 2)
  }

  function Words(e: Entry): (s: seq<Byte>)
    ensures |s| == 56
  {
    EncodeWords([e.numBytes] + e.addrs + [e.indirect], 4)
  }

  function EncodeEntry(e: Entry): (s: seq<Byte>)
    ensures |s| == ENTRY_SIZE
  {
    Halves(e) + Words(e)
  }

  function DecodeEntry(s: seq<Byte>): (e: Entry)
    requires |s| == ENTRY_SIZE
  {
    RawEntry(WordAt(s[..8], 0, 2), WordAt(s[..8], 1, 2), WordAt(s[..8], 2, 2), WordAt(s[..8], 3, 2),
             WordAt(s[8..], 0, 4),
             seq(INODE_NUM_DIRECT, k requires 0 <= k < INODE_NUM_DIRECT => WordAt(s[8..], 1 + k, 4)),
             WordAt(s[8..], 13, 4))
  }

  lemma {:induction false} EntryRoundTrip(e: Entry)
    requires Fits(e)
    ensures DecodeEntry(EncodeEntry(e)) == e
  {
    Powers();
    var s := EncodeEntry(e);
    assert s[..8] == Halves(e) && s[8..] == Words(e);
    var hs, ws := [e.kind, e.major, e.minor, e.links], [e.numBytes] + e.addrs + [e.indirect];
    WordsRoundTrip(hs, 2, 0);
    WordsRoundTrip(hs, 2, 1);
    WordsRoundTrip(hs, 2, 2);
    WordsRoundTrip(hs, 2, 3);
    WordsRoundTrip(ws, 4, 0);
    WordsRoundTrip(ws, 4, 13);
    forall k | 0 <= k < INODE_NUM_DIRECT ensures WordAt(Words(e), 1 + k, 4) == e.addrs[k] {
      WordsRoundTrip(ws, 4, 1 + k);
    }
    assert DecodeEntry(s).addrs == e.addrs;
  }

  // ---------- entries in a block ----------

  /** `s` with the bytes from `o` on replaced by `t`. */
  function Splice(s: seq<Byte>, o: nat, t: seq<Byte>): (r: seq<Byte>)
    requires o + |t| <= |s|
    ensures |r| == |s|
    ensures forall p :: 0 <= p < |s| ==> r[p] == if o <= p < o + |t| then t[p - o] else s[p]
  {
    s[..o] + t + s[o + |t|..]
  }

  function GetEntry(b: Block, j: nat): (e: Entry)
    requires j < INODE_PER_BLOCK
  {
    DecodeEntry(b[ENTRY_SIZE * j..ENTRY_SIZE * j + ENTRY_SIZE])
  }

  function PutEntry(b: Block, j: nat, e: Entry): (r: Block)
    requires j < INODE_PER_BLOCK
  {
    Splice(b, ENTRY_SIZE * j, EncodeEntry(e))
  }

  lemma {:induction false} GetPutEntry(b: Block, j: nat, e: Entry, i: nat)
    requires j < INODE_PER_BLOCK && i < INODE_PER_BLOCK && Fits(e)
    ensures GetEntry(PutEntry(b, j, e), i) == if i == j then e else GetEntry(b, i)
  {
    var r := PutEntry(b, j, e);
    if i == j {
      assert r[ENTRY_SIZE * j..ENTRY_SIZE * j + ENTRY_SIZE] == EncodeEntry(e);
      EntryRoundTrip(e);
    } else {
      assert r[ENTRY_SIZE * i..ENTRY_SIZE * i + ENTRY_SIZE] == b[ENTRY_SIZE * i..ENTRY_SIZE * i + ENTRY_SIZE];
    }
  }

  /** entry->type = INODE_INVALID: only the type's two bytes are written. */
  function PutInvalid(b: Block, j: nat): (r: Block)
    requires j < INODE_PER_BLOCK
  {
    Splice(b, ENTRY_SIZE * j, EncodeWord(INODE_INVALID, 2))
  }

  lemma GetPutInvalid(b: Block, j: nat, i: nat)
    requires j < INODE_PER_BLOCK && i < INODE_PER_BLOCK
    ensures GetEntry(PutInvalid(b, j), i) == if i == j then GetEntry(b, i).(kind := INODE_INVALID) else GetEntry(b, i)
  {
    var r := PutInvalid(b, j);
    var o := ENTRY_SIZE * i;
    var s, t := r[o..o + ENTRY_SIZE], b[o..o + ENTRY_SIZE];
    assert forall p :: 0 <= p < ENTRY_SIZE ==> s[p] == r[o + p] && t[p] == b[o + p];
    if i == j {
      assert s[..2] == EncodeWord(INODE_INVALID, 2);
      WordRoundTrip(INODE_INVALID, 2);
      SameButKind(s, t);
    } else {
      assert s == t;
    }
  }

  lemma SameButKind(s: seq<Byte>, t: seq<Byte>)
    requires |s| == |t| == ENTRY_SIZE && forall p :: 2 <= p < ENTRY_SIZE ==> s[p] == t[p]
    ensures DecodeEntry(s) == DecodeEntry(t).(kind := DecodeWord(s[..2]))
  {
    assert s[8..] == t[8..];
    var h, g := s[..8], t[..8];
    assert forall i :: 0 <= i < 8 ==> h[i] == s[i] && g[i] == t[i];
    assert h[0..2] == s[..2];
    assert h[2..4] == g[2..4];
    assert h[4..6] == g[4..6];
    assert h[6..8] == g[6..8];
    assert DecodeEntry(s).addrs == DecodeEntry(t).addrs;
  }

  // ---------- indirect blocks ----------

  function GetAddr(b: Block, i: nat): (n: nat)
    requires i < INODE_NUM_INDIRECT
  {
    WordAt(b, i, 4)
  }

  function PutAddr(b: Block, i: nat, n: nat): (r: Block)
    requires i < INODE_NUM_INDIRECT
  {
    Splice(b, i * 4, EncodeWord(n, 4))
  }

  lemma GetPutAddr(b: Block, j: nat, n: nat, i: nat)
    requires j < INODE_NUM_INDIRECT && i < INODE_NUM_INDIRECT && n < 0x1_0000_0000
    ensures GetAddr(PutAddr(b, j, n), i) == if i == j then n else GetAddr(b, i)
  {
    Powers();
    var r := PutAddr(b, j, n);
    if i == j {
      assert r[j * 4..j * 4 + 4] == EncodeWord(n, 4);
      WordRoundTrip(n, 4);
    } else {
      assert r[i * 4..i * 4 + 4] == b[i * 4..i * 4 + 4];
    }
  }

  lemma {:induction false} ZeroWord(s: seq<Byte>)
    requires forall p :: 0 <= p < |s| ==> s[p] == 0
    ensures DecodeWord(s) == 0
  {
    if s != [] { ZeroWord(s[1..]); }
  }

  lemma ZeroAddrs(i: nat)
    requires i < INODE_NUM_INDIRECT
    ensures GetAddr(ZeroBlock(), i) == 0
  {
    ZeroWord(ZeroBlock()[i * 4..i * 4 + 4]);
  }
}
