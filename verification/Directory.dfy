/** Directories: names kept as entries of a file (inode_lookup, inode_insert and
    inode_remove of src/fs/inode.c; strncpy and strncmp of src/common/string.c). */
module Directories {
  import opened FsLayout
  import opened InodeFormat
  import opened FileSpec
  import opened Inodes

  const FILE_NAME_MAX_LENGTH := 14
  const DIR_ENTRY_SIZE := 16

  /** The characters of a C string before its NUL. */
  type CString = s: seq<Byte> | forall i :: 0 <= i < |s| ==> s[i] != 0

  function Blank(): (s: seq<Byte>)
    ensures |s| == FILE_NAME_MAX_LENGTH && forall i :: 0 <= i < |s| ==> s[i] == 0
  {
    seq(FILE_NAME_MAX_LENGTH, _ => 0)
  }

  type Name = s: seq<Byte> | |s| == FILE_NAME_MAX_LENGTH witness Blank()

  const NoName: Name := Blank()

  datatype DirEnt = DirEnt(ino: nat, name: Name)

  const NoEntry: DirEnt := DirEnt(0, NoName)

  // ---------- names ----------

  /** Byte `i` of a C string, which ends in NUL. */
  function At(s: CString, i: nat): (b: Byte) {
    if i < |s| then s[i] else 0
  }

  /** strncpy into a name: padded with NULs. */
  function Padded(s: CString): (n: Name)
    ensures forall i :: 0 <= i < FILE_NAME_MAX_LENGTH ==> n[i] == At(s, i)
  {
    seq(FILE_NAME_MAX_LENGTH, i requires i >= 0 => At(s, i))
  }

  /** strncmp(n, s, FILE_NAME_MAX_LENGTH) == 0, from byte `i` on. */
  predicate Match(n: Name, s: CString, i: nat)
    requires i <= FILE_NAME_MAX_LENGTH
    decreases FILE_NAME_MAX_LENGTH - i
  {
    i == FILE_NAME_MAX_LENGTH || (n[i] == At(s, i) && (n[i] == 0 || Match(n, s, i + 1)))
  }

  /** Nothing but NULs after the first one. */
  predicate IsPadded(n: Name) {
    forall i, j :: 0 <= i < j < FILE_NAME_MAX_LENGTH && n[i] == 0 ==> n[j] == 0
  }

  lemma PaddedIsPadded(s: CString)
    ensures IsPadded(Padded(s))
  {
  }

  /** On padded names strncmp is equality with the padded string. */
  lemma {:induction false} MatchIsEquality(n: Name, s: CString, i: nat)
    requires IsPadded(n) && i <= FILE_NAME_MAX_LENGTH
    ensures Match(n, s, i) <==> n[i..] == Padded(s)[i..]
    decreases FILE_NAME_MAX_LENGTH - i
  {
    var p := Padded(s);
    PaddedIsPadded(s);
    if i < FILE_NAME_MAX_LENGTH {
      MatchIsEquality(n, s, i + 1);
      assert n[i..] == [n[i]] + n[i + 1..] && p[i..] == [p[i]] + p[i + 1..];
      if n[i] == 0 && p[i] == 0 { assert n[i + 1..] == p[i + 1..]; }
    }
  }

  // ---------- entries ----------

  function EncodeDir(e: DirEnt): (s: seq<Byte>)
    ensures |s| == DIR_ENTRY_SIZE
  {
    EncodeWord(e.ino, 2) + e.name
  }

  function DecodeDir(s: seq<Byte>): (e: DirEnt)
    requires |s| == DIR_ENTRY_SIZE
  {
    DirEnt(DecodeWord(s[..2]), s[2..])
  }

  lemma DirRoundTrip(e: DirEnt)
    requires e.ino < 0x1_0000
    ensures DecodeDir(EncodeDir(e)) == e
  {
    Powers();
    WordRoundTrip(e.ino, 2);
    assert EncodeDir(e)[..2] == EncodeWord(e.ino, 2) && EncodeDir(e)[2..] == e.name;
  }

  /** The entries of a directory file; a last part shorter than an entry is not looked at. */
  function Entries(c: seq<Byte>): (es: seq<DirEnt>)
    ensures |es| == |c| / DIR_ENTRY_SIZE
    ensures forall i :: 0 <= i < |es| ==> es[i] == DecodeDir(c[DIR_ENTRY_SIZE * i..DIR_ENTRY_SIZE * i + DIR_ENTRY_SIZE])
  {
    seq(|c| / DIR_ENTRY_SIZE, i requires 0 <= i < |c| / DIR_ENTRY_SIZE =>
      DecodeDir(c[DIR_ENTRY_SIZE * i..DIR_ENTRY_SIZE * i + DIR_ENTRY_SIZE]))
  }

  /** Writing one entry over a directory, or behind it. */
  lemma WriteEntry(c: seq<Byte>, i: nat, t: seq<Byte>)
    requires |c| % DIR_ENTRY_SIZE == 0 && |t| == DIR_ENTRY_SIZE && DIR_ENTRY_SIZE * i <= |c|
    ensures var c' := Overwrite(c, DIR_ENTRY_SIZE * i, t);
      && |c'| % DIR_ENTRY_SIZE == 0
      && Entries(c') == if i < |Entries(c)| then Entries(c)[i := DecodeDir(t)] else Entries(c) + [DecodeDir(t)]
  {
    var c' := Overwrite(c, DIR_ENTRY_SIZE * i, t);
    var es, es' := Entries(c), Entries(c');
    var want := if i < |es| then es[i := DecodeDir(t)] else es + [DecodeDir(t)];
    assert |es'| == |want|;
    forall k | 0 <= k < |es'| ensures es'[k] == want[k] {
      if k == i {
        assert c'[DIR_ENTRY_SIZE * k..DIR_ENTRY_SIZE * k + DIR_ENTRY_SIZE] == t;
      } else {
        assert c'[DIR_ENTRY_SIZE * k..DIR_ENTRY_SIZE * k + DIR_ENTRY_SIZE]
          == c[DIR_ENTRY_SIZE * k..DIR_ENTRY_SIZE * k + DIR_ENTRY_SIZE];
      }
    }
  }

  // ---------- the directory as a map ----------

  /** Free entries are blank, names in use are padded, not empty and distinct. */
  ghost predicate DirOk(es: seq<DirEnt>) {
    && (forall i :: 0 <= i < |es| && es[i].ino == 0 ==> es[i].name == NoName)
    && (forall i :: 0 <= i < |es| && es[i].ino != 0 ==> IsPadded(es[i].name) && es[i].name[0] != 0)
    && (forall i, j :: 0 <= i < j < |es| && es[i].ino != 0 && es[j].ino != 0 ==> es[i].name != es[j].name)
  }

  /** Names to inode numbers. */
  function Names(es: seq<DirEnt>): (m: map<Name, nat>) {
    if es == [] then map[]
    else
      var m, e := Names(es[..|es| - 1]), es[|es| - 1];
      if e.ino == 0 then m else m[e.name := e.ino]
  }

  /** What inode_lookup returns. */
  function LookupIn(es: seq<DirEnt>, s: CString, from: nat): (r: (nat, nat))
    requires from <= |es|
    ensures from <= r.1 <= |es|
    ensures r.1 == |es| ==> r.0 == 0
    ensures r.1 < |es| ==> Match(es[r.1].name, s, 0) && r.0 == es[r.1].ino
    ensures forall i :: from <= i < r.1 ==> !Match(es[i].name, s, 0)
    decreases |es| - from
  {
    if from == |es| then (0, from)
    else if Match(es[from].name, s, 0) then (es[from].ino, from)
    else LookupIn(es, s, from + 1)
  }

  /** A name in the map has a live entry. */
  lemma {:induction false} NamesFrom(es: seq<DirEnt>, n: Name) returns (i: nat)
    requires n in Names(es)
    ensures i < |es| && es[i].ino != 0 && es[i].name == n
  {
    var k := |es| - 1;
    if es[k].ino != 0 && es[k].name == n {
      i := k;
    } else {
      i := NamesFrom(es[..k], n);
    }
  }

  /** A live entry is in the map. */
  lemma {:induction false} NamesHave(es: seq<DirEnt>, i: nat)
    requires DirOk(es) && i < |es| && es[i].ino != 0
    ensures es[i].name in Names(es) && Names(es)[es[i].name] == es[i].ino
  {
    var k := |es| - 1;
    if i < k {
      assert es[i].ino != 0 && es[k].ino != 0 ==> es[i].name != es[k].name;
      var init := es[..k];
      assert init[i] == es[i];
      InitOk(es);
      hide DirOk;
      NamesHave(init, i);
    }
  }

  lemma InitOk(es: seq<DirEnt>)
    requires DirOk(es) && es != []
    ensures DirOk(es[..|es| - 1])
  {
  }

  /** A blank name matches the empty string only, a live one its own string only. */
  lemma {:induction false} MatchLive(es: seq<DirEnt>, s: CString, i: nat)
    requires DirOk(es) && s != [] && i < |es|
    ensures Match(es[i].name, s, 0) <==> es[i].ino != 0 && es[i].name == Padded(s)
  {
    var n := es[i].name;
    MatchIsEquality(n, s, 0);
    assert n[0..] == n && Padded(s)[0..] == Padded(s);
    assert Padded(s)[0] != 0;
  }

  /** inode_lookup agrees with the map on every name that is not empty. */
  lemma {:induction false} LookupAgrees(es: seq<DirEnt>, s: CString)
    requires DirOk(es) && s != []
    ensures LookupIn(es, s, 0).0 == if Padded(s) in Names(es) then Names(es)[Padded(s)] else 0
    ensures LookupIn(es, s, 0).0 != 0 <==> Padded(s) in Names(es)
  {
    hide Names, Match, Padded;
    var r := LookupIn(es, s, 0);
    if r.1 < |es| {
      MatchLive(es, s, r.1);
      NamesHave(es, r.1);
    } else if Padded(s) in Names(es) {
      var i := NamesFrom(es, Padded(s));
      MatchLive(es, s, i);
    }
  }

  /** inode_insert of a new name with a number that does not vanish in 16 bits. */
  lemma {:induction false} InsertAgrees(es: seq<DirEnt>, s: CString, ino: nat)
    requires DirOk(es) && s != [] && ino != 0 && LookupIn(es, s, 0).0 == 0
    ensures DirOk(es + [DirEnt(ino, Padded(s))])
    ensures Names(es + [DirEnt(ino, Padded(s))]) == Names(es)[Padded(s) := ino]
  {
    var e := DirEnt(ino, Padded(s));
    LookupAgrees(es, s);
    PaddedIsPadded(s);
    assert e.name[0] != 0;
    hide IsPadded, Padded, LookupIn;
    AppendOk(es, e);
    assert (es + [e])[..|es|] == es;
    NamesLast(es + [e]);
  }

  lemma {:induction false} AppendOk(es: seq<DirEnt>, e: DirEnt)
    requires DirOk(es) && e.ino != 0 && IsPadded(e.name) && e.name[0] != 0 && e.name !in Names(es)
    ensures DirOk(es + [e])
  {
    hide IsPadded, Names;
    forall i: nat | i < |es| && es[i].ino != 0 ensures es[i].name != e.name {
      NamesHave(es, i);
    }
  }

  /** Exactly when an insertion that finds no such name keeps the directory in order: a
      proper name with a number that is not 0 in 16 bits, or neither. */
  lemma {:induction false} InsertKeepsOrderIff(es: seq<DirEnt>, s: CString, ino: nat)
    requires DirOk(es) && LookupIn(es, s, 0).0 == 0
    ensures DirOk(es + [DirEnt(ino % 0x1_0000, Padded(s))]) <==> (s != [] <==> ino % 0x1_0000 != 0)
  {
    var e := DirEnt(ino % 0x1_0000, Padded(s));
    var es' := es + [e];
    assert es'[|es|] == e;
    assert s == [] <==> e.name == NoName by { assert s == [] <==> e.name[0] == 0; }
    if s != [] && e.ino != 0 { InsertAgrees(es, s, e.ino); }
    if s == [] && e.ino == 0 { assert forall i :: 0 <= i < |es| ==> es'[i] == es[i]; }
  }

  lemma LastIsNew(es: seq<DirEnt>)
    requires DirOk(es) && es != [] && es[|es| - 1].ino != 0
    ensures es[|es| - 1].name !in Names(es[..|es| - 1])
  {
    hide Names;
    var k := |es| - 1;
    var init := es[..k];
    assert forall j :: 0 <= j < k ==> init[j] == es[j];
    if es[k].name in Names(init) {
      var i := NamesFrom(init, es[k].name);
    }
  }

  lemma RemoveKeepsOrder(es: seq<DirEnt>, i: nat)
    requires DirOk(es) && i < |es|
    ensures DirOk(es[i := NoEntry])
  {
  }

  /** inode_remove of entry `i`. */
  lemma {:induction false} RemoveAgrees(es: seq<DirEnt>, i: nat)
    requires DirOk(es) && i < |es|
    ensures DirOk(es[i := NoEntry])
    ensures Names(es[i := NoEntry]) == if es[i].ino == 0 then Names(es) else Names(es) - {es[i].name}
  {
    hide Names;
    var k := |es| - 1;
    RemoveKeepsOrder(es, i);
    InitOk(es);
    if es[k].ino != 0 { LastIsNew(es); }
    assert i < k && es[k].ino != 0 && es[i].ino != 0 ==> es[i].name != es[k].name;
    hide DirOk;
    if i == k {
      RemoveLast(es);
    } else {
      assert es[..k][i] == es[i];
      RemoveAgrees(es[..k], i);
      RemoveEarlier(es, i);
    }
  }

  lemma {:induction false} RemoveLast(es: seq<DirEnt>)
    requires es != [] && (es[|es| - 1].ino != 0 ==> es[|es| - 1].name !in Names(es[..|es| - 1]))
    ensures var k := |es| - 1;
      Names(es[k := NoEntry]) == if es[k].ino == 0 then Names(es) else Names(es) - {es[k].name}
  {
    hide Names;
    var k := |es| - 1;
    NamesLast(es);
    NamesLast(es[k := NoEntry]);
    assert es[k := NoEntry][..k] == es[..k];
    if es[k].ino != 0 { MapDrop(Names(es[..k]), es[k].name, es[k].ino); }
  }

  lemma {:induction false} RemoveEarlier(es: seq<DirEnt>, i: nat)
    requires i < |es| - 1 && (es[|es| - 1].ino != 0 && es[i].ino != 0 ==> es[i].name != es[|es| - 1].name)
    requires var init := es[..|es| - 1];
      Names(init[i := NoEntry]) == if es[i].ino == 0 then Names(init) else Names(init) - {es[i].name}
    ensures Names(es[i := NoEntry]) == if es[i].ino == 0 then Names(es) else Names(es) - {es[i].name}
  {
    hide Names;
    var k := |es| - 1;
    var e, init := es[k], es[..k];
    NamesLast(es);
    NamesLast(es[i := NoEntry]);
    assert es[i := NoEntry][..k] == init[i := NoEntry];
    if e.ino != 0 && es[i].ino != 0 { MapSwap(Names(init), e.name, e.ino, es[i].name); }
  }

  lemma {:induction false} NamesLast(es: seq<DirEnt>)
    requires es != []
    ensures var m, e := Names(es[..|es| - 1]), es[|es| - 1]; Names(es) == if e.ino == 0 then m else m[e.name := e.ino]
  {
  }

  lemma MapDrop(m: map<Name, nat>, k: Name, v: nat)
    requires k !in m
    ensures m[k := v] - {k} == m
  {
  }

  lemma MapSwap(m: map<Name, nat>, k: Name, v: nat, n: Name)
    requires n != k
    ensures m[k := v] - {n} == (m - {n})[k := v]
  {
  }

  // ---------- any run ----------

  datatype DirOp = Insert(s: CString, ino: nat) | Remove(index: nat)

  /** The entries after one operation; removing at the end adds a blank entry. */
  function Do(es: seq<DirEnt>, op: DirOp): (r: seq<DirEnt>) {
    match op
    case Insert(s, ino) =>
      if LookupIn(es, s, 0).0 != 0 then es else es + [DirEnt(ino % 0x1_0000, Padded(s))]
    case Remove(i) =>
      if i < |es| then es[i := NoEntry] else if i == |es| then es + [NoEntry] else es
  }

  /** Indices are scaled to byte offsets in 64 bits, so only their lower 60 bits count. */
  const INDICES := 0x1000_0000_0000_0000

  /** What removing entry `index` should leave. */
  function Blanked(es: seq<DirEnt>, index: nat): (r: seq<DirEnt>) {
    if index < |es| then es[index := NoEntry] else es
  }

  /** Exactly when a removal leaves what it should: there is such an entry, or the one that
      the lower 60 bits of the index name is blank. */
  lemma {:induction false} RemovesIff(es: seq<DirEnt>, index: nat)
    requires |es| <= INDICES && index % INDICES <= |es|
    ensures Do(es, Remove(index % INDICES)) == Blanked(es, index) <==>
      index < |es| || (index % INDICES < |es| && es[index % INDICES] == NoEntry)
  {
    var i := index % INDICES;
    if index >= |es| {
      if i == |es| { assert |Do(es, Remove(i))| == |es| + 1; }
      else { assert Do(es, Remove(i))[i] == NoEntry; }
    }
  }

  /** A directory with one live entry: removing at its end adds a blank entry, and removing
      entry two to the 60 blanks entry 0. */
  lemma {:induction false} RemovesOther(e: DirEnt)
    requires e.ino != 0
    ensures Do([e], Remove(1 % INDICES)) == [e, NoEntry] && Blanked([e], 1) == [e]
    ensures Do([e], Remove(INDICES % INDICES)) == [NoEntry] && Blanked([e], INDICES) == [e]
  {
    assert [e][0 := NoEntry] == [NoEntry];
  }

  function RunOps(es: seq<DirEnt>, ops: seq<DirOp>): (r: seq<DirEnt>)
    decreases |ops|
  {
    if ops == [] then es else Do(RunOps(es, ops[..|ops| - 1]), ops[|ops| - 1])
  }

  /** What the operations mean on a map; a removal is told the name its entry has. */
  function Meant(m: map<Name, nat>, es: seq<DirEnt>, op: DirOp): (r: map<Name, nat>) {
    match op
    case Insert(s, ino) => if Padded(s) in m then m else m[Padded(s) := ino % 0x1_0000]
    case Remove(i) => if i < |es| && es[i].ino != 0 then m - {es[i].name} else m
  }

  /** Callers pass proper names and inode numbers. */
  predicate Proper(op: DirOp) {
    op.Insert? ==> op.s != [] && op.ino % 0x1_0000 != 0
  }

  lemma {:induction false} DoAgrees(es: seq<DirEnt>, op: DirOp)
    requires DirOk(es) && Proper(op)
    ensures DirOk(Do(es, op)) && Names(Do(es, op)) == Meant(Names(es), es, op)
  {
    match op
    case Insert(s, ino) =>
      LookupAgrees(es, s);
      if Padded(s) !in Names(es) { InsertAgrees(es, s, ino % 0x1_0000); }
    case Remove(i) =>
      if i < |es| { RemoveAgrees(es, i); }
      else if i == |es| { assert (es + [NoEntry])[..|es|] == es; }
  }

  /** Over any run of insertions and removals no name has two live entries, and lookup of
      any name agrees with the map. */
  lemma {:induction false} RunAgrees(es: seq<DirEnt>, ops: seq<DirOp>, s: CString)
    requires DirOk(es) && (forall i :: 0 <= i < |ops| ==> Proper(ops[i])) && s != []
    ensures DirOk(RunOps(es, ops))
    ensures var m := Names(RunOps(es, ops));
      LookupIn(RunOps(es, ops), s, 0).0 == if Padded(s) in m then m[Padded(s)] else 0
    ensures ops != [] ==>
      var before := RunOps(es, ops[..|ops| - 1]);
      Names(RunOps(es, ops)) == Meant(Names(before), before, ops[|ops| - 1])
    decreases |ops|
  {
    if ops != [] {
      RunAgrees(es, ops[..|ops| - 1], s);
      DoAgrees(RunOps(es, ops[..|ops| - 1]), ops[|ops| - 1]);
    }
    LookupAgrees(RunOps(es, ops), s);
  }

  // ---------- the operations ----------

  /** The entries of the directory of a loaded inode. */
  ghost function DirOf(layer: InodeLayer, inode: Inode): (es: seq<DirEnt>)
    reads layer, inode
  {
    Entries(Content(layer.Im(), inode.inodeNo, inode.entry.numBytes))
  }

  lemma {:induction false} Loaded(layer: InodeLayer, inode: Inode)
    requires layer.Valid() && inode in layer.list && inode.valid
    ensures layer.Open(inode, inode.entry.numBytes) && inode.entry.numBytes <= INODE_MAX_BYTES
  {
    FsSized(layer.sb, layer.Im(), layer.sb.numInodes, 0, inode.inodeNo);
  }

  /** inode_lookup: the number and the place of the first entry with that name. */
  method Lookup(layer: InodeLayer, inode: Inode, name: CString) returns (r: Outcome<(nat, nat)>)
    requires layer.Valid() && inode in layer.list && inode.valid
    ensures !r.NoSpace? && (r.Assertion? <==> inode.entry.kind != INODE_DIRECTORY)
    ensures r.Done? ==> r.value == LookupIn(DirOf(layer, inode), name, 0)
  {
    hide FsOk, Content, Entries, Match;
    if inode.entry.kind != INODE_DIRECTORY { return Assertion; }
    ghost var es := DirOf(layer, inode);
    var i := 0;
    while i < inode.entry.numBytes / DIR_ENTRY_SIZE
      invariant 0 <= i <= |es| && LookupIn(es, name, 0) == LookupIn(es, name, i)
    {
      var e := ReadEntry(layer, inode, i);
      if Match(e.name, name, 0) {
        return Done((e.ino, i));
      }
      i := i + 1;
    }
    r := Done((0, i));
  }

  /** Entry `i` of a directory. */
  method ReadEntry(layer: InodeLayer, inode: Inode, i: nat) returns (e: DirEnt)
    requires layer.Valid() && inode in layer.list && inode.valid && i < inode.entry.numBytes / DIR_ENTRY_SIZE
    ensures e == DirOf(layer, inode)[i]
  {
    hide FsOk, Content;
    Loaded(layer, inode);
    var bytes := layer.Read(inode, i * DIR_ENTRY_SIZE, DIR_ENTRY_SIZE);
    e := DecodeDir(bytes.value);
  }

  /** inode_insert: -1 if the name is there, otherwise the byte offset of a new entry behind
      all others. The number is cut to 16 bits. */
  method InsertName(layer: InodeLayer, inode: Inode, name: CString, inodeNo: usize) returns (r: Outcome<int>)
    requires layer.Valid() && inode in layer.list && inode.valid
    modifies layer`view, layer`es, inode`entry
    ensures r.Assertion? <==>
      || old(inode.entry.kind) != INODE_DIRECTORY
      || (LookupIn(old(DirOf(layer, inode)), name, 0).0 == 0
        && old(inode.entry.numBytes) + DIR_ENTRY_SIZE > INODE_MAX_BYTES)
    ensures r.Done? ==> layer.Valid()
    ensures r.Done? ==> (r.value == -1 <==> LookupIn(old(DirOf(layer, inode)), name, 0).0 != 0)
    ensures r.Done? && r.value == -1 ==> layer.Im() == old(layer.Im()) && inode.entry == old(inode.entry)
    ensures r.Done? && r.value != -1 ==>
      && r.value == old(inode.entry.numBytes)
      && FileWritten(layer.sb, old(layer.Im()), inode.inodeNo, layer.Im(), old(inode.entry.numBytes),
           EncodeDir(DirEnt(inodeNo % 0x1_0000, Padded(name))))
    ensures r.Done? && old(inode.entry.numBytes) % DIR_ENTRY_SIZE == 0 ==>
      && inode.entry.numBytes % DIR_ENTRY_SIZE == 0
      && DirOf(layer, inode) == Do(old(DirOf(layer, inode)), Insert(name, inodeNo))
  {
    var found := Lookup(layer, inode, name);
    if found.Assertion? { return Assertion; }
    if found.value.0 != 0 { return Done(-1); }
    hide FsOk, InUse, LookupIn;
    var e := DirEnt(inodeNo % 0x1_0000, Padded(name));
    var offset := inode.entry.numBytes;
    Loaded(layer, inode);
    ghost var im := layer.Im();
    var w := layer.Write(inode, offset, EncodeDir(e));
    if !w.Done? { return if w.Assertion? then Assertion else NoSpace; }
    EntryWritten(layer, inode, im, offset, e);
    r := Done(offset);
  }

  /** The directory after a write of one entry. */
  lemma EntryWritten(layer: InodeLayer, inode: Inode, im: Image, offset: nat, e: DirEnt)
    requires inode.inodeNo < |im.es| && |layer.es| == |im.es| && layer.es[inode.inodeNo] == inode.entry
    requires FileWritten(layer.sb, im, inode.inodeNo, layer.Im(), offset, EncodeDir(e)) && e.ino < 0x1_0000
    ensures var num := im.es[inode.inodeNo].numBytes; var es := Entries(Content(im, inode.inodeNo, num));
      num % DIR_ENTRY_SIZE == 0 && offset % DIR_ENTRY_SIZE == 0 ==>
        && inode.entry.numBytes % DIR_ENTRY_SIZE == 0
        && DirOf(layer, inode) == var i := offset / DIR_ENTRY_SIZE; if i < |es| then es[i := e] else es + [e]
  {
    hide Content, Entries, EncodeDir, DecodeDir, Overwrite, InUse, Conserved;
    var num := im.es[inode.inodeNo].numBytes;
    if num % DIR_ENTRY_SIZE == 0 && offset % DIR_ENTRY_SIZE == 0 {
      DirRoundTrip(e);
      WriteEntry(Content(im, inode.inodeNo, num), offset / DIR_ENTRY_SIZE, EncodeDir(e));
    }
  }

  /** inode_remove: the entry that the lower 60 bits of `index` name is blanked; at the end of
      the directory a blank entry is added. */
  method RemoveEntry(layer: InodeLayer, inode: Inode, index: usize) returns (r: Outcome<()>)
    requires layer.Valid() && inode in layer.list && inode.valid
    modifies layer`view, layer`es, inode`entry
    ensures var offset := index * DIR_ENTRY_SIZE % USIZE;
      r.Assertion? <==> offset > old(inode.entry.numBytes) || offset + DIR_ENTRY_SIZE > INODE_MAX_BYTES
    ensures r.Done? ==> layer.Valid()
    ensures r.Done? ==> FileWritten(layer.sb, old(layer.Im()), inode.inodeNo, layer.Im(),
      index * DIR_ENTRY_SIZE % USIZE, EncodeDir(NoEntry))
    ensures r.Done? && old(inode.entry.numBytes) % DIR_ENTRY_SIZE == 0 ==>
      && inode.entry.numBytes % DIR_ENTRY_SIZE == 0
      && DirOf(layer, inode) == Do(old(DirOf(layer, inode)), Remove(index % INDICES))
    ensures r.Done? && old(inode.entry.numBytes) % DIR_ENTRY_SIZE == 0 ==>
      var es, i := old(DirOf(layer, inode)), index % INDICES;
      DirOf(layer, inode) == Blanked(es, index) <==> index < |es| || (i < |es| && es[i] == NoEntry)
  {
    hide FsOk, InUse, Content, Entries, EncodeDir, Conserved, Overwrite, Blanked;
    Loaded(layer, inode);
    ghost var es := DirOf(layer, inode);
    var offset: usize := index * DIR_ENTRY_SIZE % USIZE;
    var was := layer.Read(inode, offset, DIR_ENTRY_SIZE);
    if was.Assertion? { return Assertion; }
    ghost var im := layer.Im();
    var w := layer.Write(inode, offset, EncodeDir(NoEntry));
    if !w.Done? { return if w.Assertion? then Assertion else NoSpace; }
    EntryWritten(layer, inode, im, offset, NoEntry);
    Offsets(index, offset);
    if im.es[inode.inodeNo].numBytes % DIR_ENTRY_SIZE == 0 { RemovesIff(es, index); }
    r := Done(());
  }

  lemma Offsets(index: nat, offset: nat)
    requires offset == index * DIR_ENTRY_SIZE % USIZE
    ensures offset % DIR_ENTRY_SIZE == 0 && offset / DIR_ENTRY_SIZE == index % INDICES
  {
    assert index == index / INDICES * INDICES + index % INDICES;
    assert index * DIR_ENTRY_SIZE == index / INDICES * USIZE + index % INDICES * DIR_ENTRY_SIZE;
  }
}
