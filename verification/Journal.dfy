/** The write-ahead log on the device: what commit and recovery write, in order, and
    what a crash between any two device writes leaves behind (src/fs/cache.c). */
module Journal {
  import opened FsLayout

  /** The log header: `num` and the array of LOG_MAX_SIZE block numbers. Entries at
      and beyond `num` are stale. */
  datatype LogHeader = LogHeader(num: nat, blockNo: seq<nat>)
  {
    predicate Fits() {
      && |blockNo| == LOG_MAX_SIZE
      && num <= LOG_MAX_SIZE
      && forall i :: 0 <= i < LOG_MAX_SIZE ==> blockNo[i] < Power256(8)
    }
  }

  lemma Power256Of8()
    ensures Power256(8) == 0x1_0000_0000_0000_0000
  {
    assert Power256(2) == 0x1_0000;
    assert Power256(4) == 0x1_0000_0000;
    assert Power256(6) == 0x1_0000_0000_0000;
  }

  function HeaderBlock(h: LogHeader): (s: Block)
    requires h.Fits()
  {
    EncodeWords([h.num] + h.blockNo, 8)
  }

  function ReadHeader(s: Block): (h: LogHeader)
  {
    LogHeader(WordAt(s, 0, 8), seq(LOG_MAX_SIZE, i requires 0 <= i < LOG_MAX_SIZE => WordAt(s, i + 1, 8)))
  }

  /** The header that is read back is the header that was written. */
  lemma HeaderRoundTrip(h: LogHeader)
    requires h.Fits()
    ensures ReadHeader(HeaderBlock(h)) == h
  {
    var ws := [h.num] + h.blockNo;
    Power256Of8();
    WordsRoundTrip(ws, 8, 0);
    forall i | 0 <= i < LOG_MAX_SIZE
      ensures ReadHeader(HeaderBlock(h)).blockNo[i] == h.blockNo[i]
    {
      WordsRoundTrip(ws, 8, i + 1);
    }
    assert ReadHeader(HeaderBlock(h)).blockNo == h.blockNo;
  }

  // ---------- device writes ----------

  datatype Write = Write(at: nat, data: Block)

  function Apply(d: Disk, ws: seq<Write>): (r: Disk)
    ensures |r| == |d|
    decreases |ws|
  {
    if ws == [] then d
    else Apply(if ws[0].at < |d| then d[ws[0].at := ws[0].data] else d, ws[1..])
  }

  lemma {:induction false} ApplyConcat(d: Disk, u: seq<Write>, v: seq<Write>)
    ensures Apply(d, u + v) == Apply(Apply(d, u), v)
    decreases |u|
  {
    if u == [] {
      assert u + v == v;
    } else {
      assert (u + v)[0] == u[0] && (u + v)[1..] == u[1..] + v;
      ApplyConcat(if u[0].at < |d| then d[u[0].at := u[0].data] else d, u[1..], v);
    }
  }

  lemma {:induction false} ApplyUntouched(d: Disk, ws: seq<Write>, b: nat)
    requires b < |d|
    requires forall i :: 0 <= i < |ws| ==> ws[i].at != b
    ensures Apply(d, ws)[b] == d[b]
    decreases |ws|
  {
    if ws != [] {
      var d' := if ws[0].at < |d| then d[ws[0].at := ws[0].data] else d;
      forall i | 0 <= i < |ws[1..]| ensures ws[1..][i].at != b { assert ws[1..][i] == ws[i + 1]; }
      ApplyUntouched(d', ws[1..], b);
    }
  }

  /** The last write to a block decides its contents. */
  lemma {:induction false} ApplyLast(d: Disk, ws: seq<Write>, i: nat)
    requires i < |ws| && ws[i].at < |d|
    requires forall j :: i < j < |ws| ==> ws[j].at != ws[i].at
    ensures Apply(d, ws)[ws[i].at] == ws[i].data
  {
    assert ws == ws[..i] + ws[i..];
    ApplyConcat(d, ws[..i], ws[i..]);
    var d' := Apply(d, ws[..i]);
    assert ws[i..][0] == ws[i];
    var rest := ws[i..][1..];
    forall j | 0 <= j < |rest| ensures rest[j].at != ws[i].at { assert rest[j] == ws[i + 1 + j]; }
    ApplyUntouched(d'[ws[i].at := ws[i].data], rest, ws[i].at);
  }

  // ---------- what commit and recovery write ----------

  /** Copies of the logged blocks into the slots after the header. */
  function LogWrites(logStart: nat, data: seq<Block>): (ws: seq<Write>)
  {
    seq(|data|, t requires 0 <= t < |data| => Write(logStart + 1 + t, data[t]))
  }

  /** Copies of the logged blocks to their home positions. */
  function HomeWrites(h: LogHeader, data: seq<Block>): (ws: seq<Write>)
    requires h.Fits() && |data| == h.num
  {
    seq(|data|, t requires 0 <= t < |data| => Write(h.blockNo[t], data[t]))
  }

  function Cleared(h: LogHeader): (r: LogHeader)
    requires h.Fits()
    ensures r.Fits() && r.num == 0
  {
    h.(num := 0)
  }

  /** Every device write of one commit, in order: log copies, header, home copies,
      cleared header. */
  function CommitWrites(logStart: nat, h: LogHeader, data: seq<Block>): (ws: seq<Write>)
    requires h.Fits() && |data| == h.num
    ensures |ws| == 2 * h.num + 2
  {
    LogWrites(logStart, data) + [Write(logStart, HeaderBlock(h))] +
    HomeWrites(h, data) + [Write(logStart, HeaderBlock(Cleared(h)))]
  }

  /** The slots of the log that the header on `d` describes. */
  function Slots(d: Disk, logStart: nat, n: nat): (data: seq<Block>)
    requires logStart + n < |d|
    ensures |data| == n
  {
    d[logStart + 1..logStart + 1 + n]
  }

  /** A disk whose header recovery can follow. */
  predicate Readable(d: Disk, sb: SuperBlock) {
    && |d| == sb.numBlocks
    && sb.logStart < |d|
    && ReadHeader(d[sb.logStart]).Fits()
    && sb.logStart + ReadHeader(d[sb.logStart]).num < |d|
  }

  /** Every device write of one uninterrupted recovery, in order. */
  function RecoverWrites(d: Disk, sb: SuperBlock): (ws: seq<Write>)
    requires Readable(d, sb)
    ensures |ws| == ReadHeader(d[sb.logStart]).num + 1
  {
    var h := ReadHeader(d[sb.logStart]);
    HomeWrites(h, Slots(d, sb.logStart, h.num)) + [Write(sb.logStart, HeaderBlock(Cleared(h)))]
  }

  /** Boot: recovery is cut short after crashes[0] writes, restarted and cut short after
      crashes[1] writes, and so on; the last one runs to its end. A disk with an
      unreadable header is left as it is. */
  function Reboot(d: Disk, sb: SuperBlock, crashes: seq<nat>): (r: Disk)
    ensures |r| == |d|
    decreases |crashes|
  {
    if !Readable(d, sb) then d
    else if crashes == [] then Apply(d, RecoverWrites(d, sb))
    else
      var ws := RecoverWrites(d, sb);
      var k := if crashes[0] <= |ws| then crashes[0] else |ws|;
      Reboot(Apply(d, ws[..k]), sb, crashes[1..])
  }

  /** Two disks agree on every block outside the logging area. */
  ghost predicate SameHome(sb: SuperBlock, d: Disk, e: Disk) {
    |d| == |e| == sb.numBlocks && forall b: nat :: sb.Home(b) ==> d[b] == e[b]
  }

  /** A group that fits: distinct home blocks, and log slots that stay inside the
      logging area. */
  ghost predicate Group(sb: SuperBlock, h: LogHeader, data: seq<Block>) {
    && h.Fits()
    && |data| == h.num
    && h.num < sb.numLogBlocks
    && sb.logStart + sb.numLogBlocks <= sb.numBlocks
    && (forall t :: 0 <= t < h.num ==> sb.Home(h.blockNo[t]))
    && (forall t, u :: 0 <= t < u < h.num ==> h.blockNo[t] != h.blockNo[u])
  }

  /** Block `b` is not one of the header's live entries. */
  predicate Unlogged(h: LogHeader, b: nat)
    requires h.Fits()
  {
    forall t :: 0 <= t < h.num ==> h.blockNo[t] != b
  }

  /** The disk of plain blocks after the whole group. */
  function Updated(d: Disk, h: LogHeader, data: seq<Block>): (r: Disk)
    requires h.Fits() && |data| == h.num
    ensures |r| == |d|
  {
    Apply(d, HomeWrites(h, data))
  }

  ghost predicate Clean(sb: SuperBlock, d: Disk) {
    Readable(d, sb) && ReadHeader(d[sb.logStart]).num == 0
  }

  /** The group is on the log and its header is on the disk; home blocks may be old or
      new, but only logged ones may differ from `d0`. */
  ghost predicate Replayable(sb: SuperBlock, d0: Disk, h: LogHeader, data: seq<Block>, d: Disk)
    requires Group(sb, h, data) && |d0| == sb.numBlocks
  {
    && |d| == sb.numBlocks
    && ReadHeader(d[sb.logStart]) == h
    && (forall t :: 0 <= t < h.num ==> d[sb.logStart + 1 + t] == data[t])
    && (forall b: nat :: sb.Home(b) && Unlogged(h, b) ==> d[b] == d0[b])
  }

  lemma UpdatedAt(sb: SuperBlock, d: Disk, h: LogHeader, data: seq<Block>)
    requires Group(sb, h, data) && |d| == sb.numBlocks
    ensures forall t :: 0 <= t < h.num ==> Updated(d, h, data)[h.blockNo[t]] == data[t]
    ensures forall b: nat :: b < |d| && Unlogged(h, b) ==> Updated(d, h, data)[b] == d[b]
  {
    var ws := HomeWrites(h, data);
    forall t | 0 <= t < h.num ensures Updated(d, h, data)[h.blockNo[t]] == data[t] {
      assert ws[t] == Write(h.blockNo[t], data[t]);
      ApplyLast(d, ws, t);
    }
    forall b: nat | b < |d| && Unlogged(h, b)
      ensures Updated(d, h, data)[b] == d[b]
    {
      ApplyUntouched(d, ws, b);
    }
  }

  // ---------- the stages one by one ----------

  lemma {:induction false} AppendOne(d: Disk, ws: seq<Write>, w: Write)
    requires w.at < |d|
    ensures Apply(d, ws + [w]) == Apply(d, ws)[w.at := w.data]
  {
    ApplyConcat(d, ws, [w]);
    assert [w][1..] == [] && Apply(Apply(d, ws), [w]) == Apply(d, ws)[w.at := w.data];
  }

  lemma SlotAt(d: Disk, logStart: nat, n: nat, t: nat)
    requires logStart + n < |d| && t < n
    ensures Slots(d, logStart, n)[t] == d[logStart + 1 + t]
  {
  }

  /** Blocks outside the log do not matter to its slots. */
  lemma SlotsKept(d: Disk, logStart: nat, n: nat, b: nat, data: Block)
    requires logStart + n < |d| && b < |d| && !(logStart < b <= logStart + n)
    ensures Slots(d[b := data], logStart, n) == Slots(d, logStart, n)
  {
  }

  lemma ApplyNone(d: Disk)
    ensures Apply(d, []) == d
  {
  }

  lemma {:induction false} Extend(d: Disk, ws: seq<Write>, t: nat)
    requires t < |ws| && ws[t].at < |d|
    ensures ws[..t + 1] == ws[..t] + [ws[t]]
    ensures Apply(d, ws[..t + 1]) == Apply(d, ws[..t])[ws[t].at := ws[t].data]
  {
    assert ws[..t + 1] == ws[..t] + [ws[t]];
    AppendOne(d, ws[..t], ws[t]);
  }

  lemma {:induction false} SlotWritten(d: Disk, logStart: nat, data: seq<Block>, t: nat)
    requires logStart + |data| < |d| && t < |data|
    ensures Apply(d, LogWrites(logStart, data))[logStart + 1 + t] == data[t]
  {
    assert LogWrites(logStart, data)[t] == Write(logStart + 1 + t, data[t]);
    ApplyLast(d, LogWrites(logStart, data), t);
  }

  lemma {:induction false} LogCopied(d: Disk, logStart: nat, data: seq<Block>)
    requires logStart + |data| < |d|
    ensures Slots(Apply(d, LogWrites(logStart, data)), logStart, |data|) == data
  {
    forall t | 0 <= t < |data| ensures Slots(Apply(d, LogWrites(logStart, data)), logStart, |data|)[t] == data[t] {
      SlotWritten(d, logStart, data, t);
    }
  }

  /** The two halves of a commit, up to and after the header, are its writes. */
  lemma {:induction false} CommitInOrder(d: Disk, w: seq<Write>, logStart: nat, h: LogHeader, data: seq<Block>)
    requires h.Fits() && |data| == h.num
    ensures var seal := LogWrites(logStart, data) + [Write(logStart, HeaderBlock(h))];
      var install := HomeWrites(h, data) + [Write(logStart, HeaderBlock(Cleared(h)))];
      && w + seal + install == w + CommitWrites(logStart, h, data)
      && Apply(Apply(d, seal), install) == Apply(d, CommitWrites(logStart, h, data))
  {
    var seal := LogWrites(logStart, data) + [Write(logStart, HeaderBlock(h))];
    var install := HomeWrites(h, data) + [Write(logStart, HeaderBlock(Cleared(h)))];
    assert seal + install == CommitWrites(logStart, h, data);
    assert w + seal + install == w + (seal + install);
    ApplyConcat(d, seal, install);
  }

  // ---------- a crash inside commit ----------

  lemma {:induction false} CrashBeforeHeader(sb: SuperBlock, d0: Disk, h: LogHeader, data: seq<Block>, k: nat)
    requires Clean(sb, d0) && Group(sb, h, data) && k <= h.num
    ensures var d := Apply(d0, CommitWrites(sb.logStart, h, data)[..k]);
      Clean(sb, d) && SameHome(sb, d, d0)
  {
    var ws := CommitWrites(sb.logStart, h, data)[..k];
    forall i | 0 <= i < k ensures ws[i].at == sb.logStart + 1 + i {
      assert ws[i] == LogWrites(sb.logStart, data)[i];
    }
    forall b: nat | b == sb.logStart || sb.Home(b) ensures Apply(d0, ws)[b] == d0[b] {
      ApplyUntouched(d0, ws, b);
    }
  }

  lemma {:induction false} CrashAtHeader(sb: SuperBlock, d0: Disk, h: LogHeader, data: seq<Block>)
    requires Clean(sb, d0) && Group(sb, h, data)
    ensures Replayable(sb, d0, h, data,
                       Apply(d0, LogWrites(sb.logStart, data) + [Write(sb.logStart, HeaderBlock(h))]))
  {
    var ws := LogWrites(sb.logStart, data) + [Write(sb.logStart, HeaderBlock(h))];
    ApplyLast(d0, ws, h.num);
    HeaderRoundTrip(h);
    forall t | 0 <= t < h.num ensures Apply(d0, ws)[sb.logStart + 1 + t] == data[t] {
      assert ws[t] == Write(sb.logStart + 1 + t, data[t]);
      ApplyLast(d0, ws, t);
    }
    forall b: nat | sb.Home(b) ensures Apply(d0, ws)[b] == d0[b] {
      ApplyUntouched(d0, ws, b);
    }
  }

  /** Home copies keep the group replayable; all of them make it complete. */
  lemma {:induction false} ReplayPrefix(sb: SuperBlock, d0: Disk, h: LogHeader, data: seq<Block>, d: Disk, k: nat)
    requires Group(sb, h, data) && |d0| == sb.numBlocks && k <= h.num
    requires Replayable(sb, d0, h, data, d)
    ensures var e := Apply(d, HomeWrites(h, data)[..k]);
      Replayable(sb, d0, h, data, e) && (k == h.num ==> SameHome(sb, e, Updated(d0, h, data)))
  {
    var ws := HomeWrites(h, data)[..k];
    var e := Apply(d, ws);
    forall i | 0 <= i < k ensures ws[i].at == h.blockNo[i] { }
    forall b: nat | b < |d| && (sb.InLog(b) || Unlogged(h, b)) ensures e[b] == d[b] {
      ApplyUntouched(d, ws, b);
    }
    if k == h.num {
      assert ws == HomeWrites(h, data);
      UpdatedAt(sb, d, h, data);
      UpdatedAt(sb, d0, h, data);
    }
  }

  /** Clearing the header of a fully copied group finishes it. */
  lemma {:induction false} ClearFinishes(sb: SuperBlock, h: LogHeader, d: Disk, e: Disk)
    requires h.Fits() && sb.logStart < |d| == sb.numBlocks && sb.InLog(sb.logStart)
    requires SameHome(sb, d, e)
    ensures var f := Apply(d, [Write(sb.logStart, HeaderBlock(Cleared(h)))]);
      Clean(sb, f) && SameHome(sb, f, e)
  {
    HeaderRoundTrip(Cleared(h));
    assert Apply(d, [Write(sb.logStart, HeaderBlock(Cleared(h)))])
        == d[sb.logStart := HeaderBlock(Cleared(h))];
  }

  lemma {:induction false} CrashAfterHeader(sb: SuperBlock, d0: Disk, h: LogHeader, data: seq<Block>, k: nat)
    requires Clean(sb, d0) && Group(sb, h, data) && h.num < k <= 2 * h.num + 2
    ensures var d := Apply(d0, CommitWrites(sb.logStart, h, data)[..k]);
      if k < 2 * h.num + 2 then Replayable(sb, d0, h, data, d)
      else Clean(sb, d) && SameHome(sb, d, Updated(d0, h, data))
  {
    var all := CommitWrites(sb.logStart, h, data);
    var upTo := LogWrites(sb.logStart, data) + [Write(sb.logStart, HeaderBlock(h))];
    var home := HomeWrites(h, data);
    var clear := [Write(sb.logStart, HeaderBlock(Cleared(h)))];
    var j := if k < 2 * h.num + 2 then k - h.num - 1 else h.num;
    CrashAtHeader(sb, d0, h, data);
    ApplyConcat(d0, upTo, home[..j]);
    ReplayPrefix(sb, d0, h, data, Apply(d0, upTo), j);
    if k < 2 * h.num + 2 {
      assert all[..k] == upTo + home[..j];
    } else {
      assert home[..j] == home;
      assert all[..k] == upTo + home + clear;
      ApplyConcat(d0, upTo + home, clear);
      ClearFinishes(sb, h, Apply(d0, upTo + home), Updated(d0, h, data));
    }
  }

  // ---------- recovery, restarted any number of times ----------

  lemma {:induction false} RebootClean(sb: SuperBlock, d: Disk, crashes: seq<nat>)
    requires Clean(sb, d) && sb.InLog(sb.logStart)
    ensures Clean(sb, Reboot(d, sb, crashes)) && SameHome(sb, Reboot(d, sb, crashes), d)
    decreases |crashes|
  {
    var h := ReadHeader(d[sb.logStart]);
    var ws := RecoverWrites(d, sb);
    assert ws == [Write(sb.logStart, HeaderBlock(Cleared(h)))];
    ClearFinishes(sb, h, d, d);
    if crashes != [] {
      var k := if crashes[0] <= |ws| then crashes[0] else |ws|;
      assert ws[..k] == if k == 0 then [] else ws;
      RebootClean(sb, Apply(d, ws[..k]), crashes[1..]);
    }
  }

  lemma {:induction false} RebootReplays(sb: SuperBlock, d0: Disk, h: LogHeader, data: seq<Block>,
                                         d: Disk, crashes: seq<nat>)
    requires Group(sb, h, data) && |d0| == sb.numBlocks
    requires Replayable(sb, d0, h, data, d)
    ensures var r := Reboot(d, sb, crashes);
      Clean(sb, r) && SameHome(sb, r, Updated(d0, h, data))
    decreases |crashes|
  {
    hide Apply, HomeWrites;
    assert Slots(d, sb.logStart, h.num) == data;
    var ws := RecoverWrites(d, sb);
    var home := HomeWrites(h, data);
    assert ws == home + [Write(sb.logStart, HeaderBlock(Cleared(h)))];
    ReplayPrefix(sb, d0, h, data, d, h.num);
    assert home[..h.num] == home;
    ApplyConcat(d, home, [Write(sb.logStart, HeaderBlock(Cleared(h)))]);
    ClearFinishes(sb, h, Apply(d, home), Updated(d0, h, data));
    if crashes != [] {
      var k := if crashes[0] <= |ws| then crashes[0] else |ws|;
      if k <= h.num {
        assert ws[..k] == home[..k];
        ReplayPrefix(sb, d0, h, data, d, k);
        RebootReplays(sb, d0, h, data, Apply(d, ws[..k]), crashes[1..]);
      } else {
        assert ws[..k] == ws;
        RebootClean(sb, Apply(d, ws), crashes[1..]);
      }
    }
  }

  /** Crash atomicity: cut a commit after any number of device writes, then boot with
      any number of interrupted recoveries. Every home block is old when the header had
      not been written and every home block is new when it had. */
  lemma {:induction false} CrashAtomicity(sb: SuperBlock, d0: Disk, h: LogHeader, data: seq<Block>, k: nat,
      crashes: seq<nat>)
    requires Clean(sb, d0) && Group(sb, h, data) && k <= 2 * h.num + 2
    ensures var r := Reboot(Apply(d0, CommitWrites(sb.logStart, h, data)[..k]), sb, crashes);
      && Clean(sb, r)
      && SameHome(sb, r, if k <= h.num then d0 else Updated(d0, h, data))
  {
    if k <= h.num {
      CrashBeforeHeader(sb, d0, h, data, k);
      RebootClean(sb, Apply(d0, CommitWrites(sb.logStart, h, data)[..k]), crashes);
    } else {
      CrashAfterHeader(sb, d0, h, data, k);
      if k < 2 * h.num + 2 {
        RebootReplays(sb, d0, h, data, Apply(d0, CommitWrites(sb.logStart, h, data)[..k]), crashes);
      } else {
        RebootClean(sb, Apply(d0, CommitWrites(sb.logStart, h, data)[..k]), crashes);
      }
    }
  }

  // ---------- exactly when the log area is large enough ----------

  /** The old contents come back as long as the header is not on the disk, the new
      ones once it is. */
  ghost predicate Atomic(sb: SuperBlock, h: LogHeader, d0: Disk, data: seq<Block>)
    requires h.Fits()
  {
    |data| == h.num ==>
      forall k: nat, crashes: seq<nat> {:trigger CutAndBoot(sb, h, d0, data, k, crashes)} :: k <= 2 * h.num + 2 ==>
        var r := CutAndBoot(sb, h, d0, data, k, crashes);
        Clean(sb, r) && SameHome(sb, r, if k <= h.num then d0 else Updated(d0, h, data))
  }

  function CutAndBoot(sb: SuperBlock, h: LogHeader, d0: Disk, data: seq<Block>, k: nat, crashes: seq<nat>): (r: Disk)
    requires h.Fits() && |data| == h.num && k <= 2 * h.num + 2
  {
    Reboot(Apply(d0, CommitWrites(sb.logStart, h, data)[..k]), sb, crashes)
  }

  /** Every sector zero but for a cleared header. */
  function BlankDisk(sb: SuperBlock, h: LogHeader): (d: Disk)
    requires h.Fits() && sb.logStart < sb.numBlocks
    ensures |d| == sb.numBlocks
  {
    seq(sb.numBlocks, _ => ZeroBlock())[sb.logStart := HeaderBlock(Cleared(h))]
  }

  function OnesBlock(): (s: Block) {
    seq(BLOCK_SIZE, _ => 255)
  }

  lemma LogCopiesFirst(logStart: nat, h: LogHeader, data: seq<Block>, k: nat)
    requires h.Fits() && k <= h.num == |data|
    ensures forall i :: 0 <= i < k ==> CommitWrites(logStart, h, data)[..k][i] == Write(logStart + 1 + i, data[i])
  {
    var ws := CommitWrites(logStart, h, data)[..k];
    forall i | 0 <= i < k ensures ws[i] == Write(logStart + 1 + i, data[i]) {
      assert ws[i] == LogWrites(logStart, data)[i];
    }
  }

  /** The copy behind the logging area is in a home block, and a reboot before the header is
      written leaves it there. */
  lemma {:induction false} OverrunStays(sb: SuperBlock, h: LogHeader, d0: Disk, data: seq<Block>, crashes: seq<nat>)
    requires h.Fits() && 0 < sb.numLogBlocks <= h.num == |data| && sb.logStart + h.num < sb.numBlocks && Clean(sb, d0)
    ensures sb.Home(sb.logStart + sb.numLogBlocks)
    ensures var r := Reboot(Apply(d0, CommitWrites(sb.logStart, h, data)[..sb.numLogBlocks]), sb, crashes);
      |r| == sb.numBlocks && r[sb.logStart + sb.numLogBlocks] == data[sb.numLogBlocks - 1]
  {
    hide Apply, Reboot, ReadHeader, HeaderBlock;
    var k := sb.numLogBlocks;
    var ws := CommitWrites(sb.logStart, h, data)[..k];
    LogCopiesFirst(sb.logStart, h, data, k);
    hide CommitWrites;
    ApplyUntouched(d0, ws, sb.logStart);
    ApplyLast(d0, ws, k - 1);
    RebootClean(sb, Apply(d0, ws), crashes);
  }

  /** The first slot past the logging area is a home block: a blank disk and a payload
      of ones expose the overrun. */
  lemma {:induction false} OverrunBreaks(sb: SuperBlock, h: LogHeader)
    requires h.Fits() && 0 < sb.numLogBlocks <= h.num && sb.logStart + h.num < sb.numBlocks
    ensures Clean(sb, BlankDisk(sb, h))
    ensures !Atomic(sb, h, BlankDisk(sb, h), seq(h.num, _ => OnesBlock()))
  {
    var d0, data := BlankDisk(sb, h), seq(h.num, _ => OnesBlock());
    HeaderRoundTrip(Cleared(h));
    OverrunStays(sb, h, d0, data, []);
    var b := sb.logStart + sb.numLogBlocks;
    assert d0[b][0] == 0;
    assert CutAndBoot(sb, h, d0, data, sb.numLogBlocks, [])[b][0] == 255;
  }

  /** Commit checks LOG_MAX_SIZE and never the size of the logging area: a group of
      distinct home blocks is atomic for every disk and every contents exactly when its
      copies and the header fit in that area. */
  lemma AtomicIffLogFits(sb: SuperBlock, h: LogHeader)
    requires h.Fits() && 0 < sb.numLogBlocks
    requires sb.logStart + sb.numLogBlocks <= sb.numBlocks && sb.logStart + h.num < sb.numBlocks
    requires forall t :: 0 <= t < h.num ==> sb.Home(h.blockNo[t])
    requires forall t, u :: 0 <= t < u < h.num ==> h.blockNo[t] != h.blockNo[u]
    ensures (forall d0: Disk, data: seq<Block> :: Clean(sb, d0) ==> Atomic(sb, h, d0, data))
      <==> h.num < sb.numLogBlocks
  {
    if h.num < sb.numLogBlocks {
      forall d0: Disk, data: seq<Block> | Clean(sb, d0) ensures Atomic(sb, h, d0, data) {
        if |data| == h.num {
          forall k: nat, crashes: seq<nat> | k <= 2 * h.num + 2
            ensures var r := CutAndBoot(sb, h, d0, data, k, crashes);
              Clean(sb, r) && SameHome(sb, r, if k <= h.num then d0 else Updated(d0, h, data))
          {
            CrashAtomicity(sb, d0, h, data, k, crashes);
          }
        }
      }
    } else {
      OverrunBreaks(sb, h);
    }
  }
}
