/** Operations sharing the log, interleaved in every possible way, with crashes
    anywhere: space reservation, group commit and what a reboot finds
    (src/fs/cache.c, begin_op, sync, end_op, commit, recover_from_log). */
module LogProtocol {
  import opened FsLayout
  import opened Journal

  /** Why the kernel stopped. `BudgetExceeded(i)` is the ASSERT in sync, `i` being the
      header entry it had already written; `HeaderOverrun` is a write past the header's
      array by an operation that still had budget. */
  datatype Halt = Alive | BudgetExceeded(index: nat) | HeaderOverrun | EndDuringCommit

  datatype State = State(
    disk: Disk,
    /** last synced contents of every home block (the block cache) */
    mem: Disk,
    header: LogHeader,
    /** remaining budget of each running operation */
    ops: map<nat, nat>,
    outstanding: int,
    committing: bool,
    /** device writes of the current commit done so far, and the disk it started from */
    phase: nat,
    base: Disk,
    /** contents at every moment the last running operation ended and its group was not
        lost, oldest first; the first is the contents at boot */
    boundaries: seq<Disk>,
    halt: Halt)

  datatype Step =
    | Begin(op: nat)
    | Sync(op: nat, b: nat, data: Block)
    | End(op: nat)
    | DeviceWrite
    | Finish
    | Crash(crashes: seq<nat>)

  /** Copies of the logged blocks, taken from the cache. */
  function Payload(h: LogHeader, mem: Disk): (data: seq<Block>)
    requires h.Fits() && forall t :: 0 <= t < h.num ==> h.blockNo[t] < |mem|
    ensures |data| == h.num
  {
    seq(h.num, t requires 0 <= t < h.num => mem[h.blockNo[t]])
  }

  predicate HeaderOk(sb: SuperBlock, h: LogHeader, mem: Disk) {
    h.Fits() && |mem| == sb.numBlocks && forall t :: 0 <= t < h.num ==> h.blockNo[t] < |mem|
  }

  /** Position of `b` in the live part of the header, or `num`. */
  function FindLogged(h: LogHeader, b: nat, i: nat): (r: nat)
    requires h.Fits() && i <= h.num
    ensures i <= r <= h.num
    ensures r < h.num ==> h.blockNo[r] == b
    ensures forall t :: i <= t < r ==> h.blockNo[t] != b
    decreases h.num - i
  {
    if i < h.num && h.blockNo[i] != b then FindLogged(h, b, i + 1) else i
  }

  function DoBegin(s: State, op: nat): (r: State) {
    if op in s.ops || s.committing ||
       s.header.num + (s.outstanding + 1) * OP_MAX_NUM_BLOCKS > LOG_MAX_SIZE then s
    else s.(ops := s.ops[op := OP_MAX_NUM_BLOCKS], outstanding := s.outstanding + 1)
  }

  function DoSync(sb: SuperBlock, s: State, op: nat, b: nat, data: Block): (r: State) {
    if op !in s.ops || !sb.Home(b) || !HeaderOk(sb, s.header, s.mem) then s else
    var i := FindLogged(s.header, b, 0);
    if i < s.header.num then s.(mem := s.mem[b := data])
    else if s.ops[op] == 0 then s.(halt := BudgetExceeded(i))
    else if i >= LOG_MAX_SIZE then s.(halt := HeaderOverrun)
    else s.(mem := s.mem[b := data],
            header := LogHeader(i + 1, s.header.blockNo[i := b]),
            ops := s.ops[op := s.ops[op] - 1])
  }

  function DoEnd(s: State, op: nat): (r: State) {
    if op !in s.ops then s else
    var s' := s.(ops := s.ops - {op}, outstanding := s.outstanding - 1);
    if s.committing then s'.(halt := EndDuringCommit)
    else if s'.outstanding == 0 then
      s'.(committing := true, phase := 0, base := s.disk, boundaries := s.boundaries + [s.mem])
    else s'
  }

  function DoWrite(sb: SuperBlock, s: State): (r: State) {
    if !s.committing || !HeaderOk(sb, s.header, s.mem) then s else
    var ws := CommitWrites(sb.logStart, s.header, Payload(s.header, s.mem));
    if s.phase >= |ws| then s
    else s.(disk := Apply(s.disk, [ws[s.phase]]), phase := s.phase + 1)
  }

  function DoFinish(s: State): (r: State) {
    if s.committing && s.phase == 2 * s.header.num + 2
    then s.(committing := false, phase := 0, header := s.header.(num := 0)) else s
  }

  /** The boundary that a reboot must bring back. */
  function Durable(s: State): (n: nat)
    requires s.boundaries != []
    ensures n <= |s.boundaries|
  {
    if s.committing && s.phase <= s.header.num then |s.boundaries| - 1 else |s.boundaries|
  }

  function DoCrash(sb: SuperBlock, s: State, crashes: seq<nat>): (r: State) {
    var d := Reboot(s.disk, sb, crashes);
    if sb.logStart >= |d| || s.boundaries == [] then s else
    State(d, d, ReadHeader(d[sb.logStart]), map[], 0, false, 0, d, s.boundaries[..Durable(s)], Alive)
  }

  /** One step; a step that cannot be taken leaves the state as it is. */
  function Do(sb: SuperBlock, s: State, a: Step): (r: State) {
    if !s.halt.Alive? && !a.Crash? then s else
    match a
    case Begin(op) => DoBegin(s, op)
    case Sync(op, b, data) => DoSync(sb, s, op, b, data)
    case End(op) => DoEnd(s, op)
    case DeviceWrite => DoWrite(sb, s)
    case Finish => DoFinish(s)
    case Crash(crashes) => DoCrash(sb, s, crashes)
  }

  function Run(sb: SuperBlock, s: State, steps: seq<Step>): (r: State)
    decreases |steps|
  {
    if steps == [] then s else Do(sb, Run(sb, s, steps[..|steps| - 1]), steps[|steps| - 1])
  }

  /** After init_bcache on a disk whose header was clean. */
  function Boot(sb: SuperBlock, d: Disk): (s: State)
    requires Clean(sb, d)
  {
    State(d, d, ReadHeader(d[sb.logStart]), map[], 0, false, 0, d, [d], Alive)
  }

  // ---------- budgets ----------

  ghost function Total(m: map<nat, nat>): (n: nat)
    decreases |m|
  {
    if m == map[] then 0 else
      var k :| k in m;
      m[k] + Total(m - {k})
  }

  lemma {:induction false} TotalWithout(m: map<nat, nat>, k: nat)
    requires k in m
    ensures Total(m) == m[k] + Total(m - {k})
    decreases |m|
  {
    var j :| j in m && Total(m) == m[j] + Total(m - {j});
    if j != k {
      TotalWithout(m - {j}, k);
      TotalWithout(m - {k}, j);
      assert m - {j} - {k} == m - {k} - {j};
    }
  }

  lemma TotalUpdate(m: map<nat, nat>, k: nat, v: nat)
    ensures Total(m[k := v]) == v + Total(m - {k})
  {
    TotalWithout(m[k := v], k);
    assert m[k := v] - {k} == m - {k};
  }

  // ---------- the invariant ----------

  ghost predicate Layout(sb: SuperBlock) {
    && LOG_MAX_SIZE < sb.numLogBlocks
    && sb.logStart + sb.numLogBlocks <= sb.numBlocks < Power256(8)
  }

  /** Reservation: what is logged plus what running operations may still log fits. */
  ghost predicate Reserved(s: State) {
    && s.header.num + Total(s.ops) <= LOG_MAX_SIZE
    && s.outstanding == |s.ops|
    && (s.committing ==> s.ops == map[])
    && forall op :: op in s.ops ==> s.ops[op] <= OP_MAX_NUM_BLOCKS
  }

  ghost predicate Logged(sb: SuperBlock, s: State) {
    && s.header.Fits()
    && (forall t :: 0 <= t < s.header.num ==> sb.Home(s.header.blockNo[t]))
    && (forall t, u :: 0 <= t < u < s.header.num ==> s.header.blockNo[t] != s.header.blockNo[u])
  }

  /** The disk a commit starts from, or the disk itself when there is none. */
  function Start(s: State): (d: Disk) {
    if s.committing then s.base else s.disk
  }

  /** Blocks outside the group are on the disk as they are in the cache. */
  ghost predicate Synced(sb: SuperBlock, s: State)
    requires s.header.Fits()
  {
    && |s.mem| == sb.numBlocks
    && Clean(sb, Start(s))
    && forall b: nat :: sb.Home(b) && Unlogged(s.header, b) ==> s.mem[b] == Start(s)[b]
  }

  /** The commit in progress, if any, has done its first `phase` device writes. */
  ghost predicate Progress(sb: SuperBlock, s: State)
    requires HeaderOk(sb, s.header, s.mem)
  {
    var n := |s.boundaries|;
    && n >= 1
    && (s.committing ==>
          && n >= 2
          && s.phase <= 2 * s.header.num + 2
          && s.boundaries[n - 1] == s.mem
          && SameHome(sb, s.base, s.boundaries[n - 2])
          && s.disk == Apply(s.base, CommitWrites(sb.logStart, s.header, Payload(s.header, s.mem))[..s.phase]))
    && (!s.committing ==> SameHome(sb, s.disk, s.boundaries[n - 1]))
  }

  ghost predicate Inv(sb: SuperBlock, s: State) {
    && Logged(sb, s)
    && Reserved(s)
    && Synced(sb, s)
    && Progress(sb, s)
    && (s.halt.Alive? || s.halt.BudgetExceeded?)
  }

  lemma PayloadUpdates(sb: SuperBlock, h: LogHeader, d: Disk, mem: Disk)
    requires Layout(sb) && |mem| == |d| == sb.numBlocks && h.Fits()
    requires forall t :: 0 <= t < h.num ==> sb.Home(h.blockNo[t])
    requires forall t, u :: 0 <= t < u < h.num ==> h.blockNo[t] != h.blockNo[u]
    requires forall b: nat :: sb.Home(b) && Unlogged(h, b) ==> mem[b] == d[b]
    ensures HeaderOk(sb, h, mem) && Group(sb, h, Payload(h, mem))
    ensures SameHome(sb, Updated(d, h, Payload(h, mem)), mem)
  {
    var data := Payload(h, mem);
    UpdatedAt(sb, d, h, data);
    forall b: nat | sb.Home(b) ensures Updated(d, h, data)[b] == mem[b] {
      if !Unlogged(h, b) {
        var t :| 0 <= t < h.num && h.blockNo[t] == b;
      }
    }
  }

  /** What a reboot finds, from any state of the invariant: the contents at the last
      moment no operation was running, except that a group whose header had not reached
      the disk is lost as a whole. */
  lemma {:induction false} RebootFindsBoundary(sb: SuperBlock, s: State, crashes: seq<nat>)
    requires Layout(sb) && Inv(sb, s)
    ensures 1 <= |s.boundaries| && 1 <= Durable(s)
    ensures Clean(sb, Reboot(s.disk, sb, crashes))
    ensures SameHome(sb, Reboot(s.disk, sb, crashes), s.boundaries[Durable(s) - 1])
  {
    hide Apply, CommitWrites, Reboot, Reserved;
    if s.committing {
      PayloadUpdates(sb, s.header, s.base, s.mem);
      CrashAtomicity(sb, s.base, s.header, Payload(s.header, s.mem), s.phase, crashes);
    } else {
      RebootClean(sb, s.disk, crashes);
    }
  }

  lemma BeginReserves(s: State, op: nat)
    requires Reserved(s)
    ensures Reserved(DoBegin(s, op))
  {
    var r := DoBegin(s, op);
    if r != s {
      TotalUpdate(s.ops, op, OP_MAX_NUM_BLOCKS);
      assert s.ops - {op} == s.ops;
      TotalBound(s.ops);
      assert r.ops.Keys == s.ops.Keys + {op};
    }
  }

  lemma BeginKeeps(sb: SuperBlock, s: State, op: nat)
    requires Layout(sb) && Inv(sb, s)
    ensures Inv(sb, DoBegin(s, op))
  {
    BeginReserves(s, op);
  }

  lemma {:induction false} TotalBound(m: map<nat, nat>)
    requires forall k :: k in m ==> m[k] <= OP_MAX_NUM_BLOCKS
    ensures Total(m) <= OP_MAX_NUM_BLOCKS * |m|
    decreases |m|
  {
    if m != map[] {
      var k :| k in m && Total(m) == m[k] + Total(m - {k});
      TotalBound(m - {k});
      assert (m - {k}).Keys == m.Keys - {k};
    }
  }

  lemma SyncReserves(sb: SuperBlock, s: State, op: nat, b: nat, data: Block)
    requires Layout(sb) && Logged(sb, s) && Reserved(s) && |s.mem| == sb.numBlocks
    requires s.halt.Alive? && op in s.ops && sb.Home(b)
    ensures var r := DoSync(sb, s, op, b, data);
      Logged(sb, r) && Reserved(r) && (r.halt.Alive? || r.halt.BudgetExceeded?)
  {
    var r := DoSync(sb, s, op, b, data);
    TotalWithout(s.ops, op);
    if FindLogged(s.header, b, 0) == s.header.num && s.ops[op] > 0 {
      TotalUpdate(s.ops, op, s.ops[op] - 1);
      assert r.ops.Keys == s.ops.Keys;
    }
  }

  lemma SyncStaysSynced(sb: SuperBlock, s: State, op: nat, b: nat, data: Block)
    requires HeaderOk(sb, s.header, s.mem) && s.halt.Alive? && op in s.ops && sb.Home(b) && Synced(sb, s)
    requires DoSync(sb, s, op, b, data).header.Fits()
    ensures Synced(sb, DoSync(sb, s, op, b, data))
  {
    var r := DoSync(sb, s, op, b, data);
    forall c: nat | sb.Home(c) && Unlogged(r.header, c) ensures r.mem[c] == Start(s)[c] {
      assert forall t :: 0 <= t < s.header.num ==> r.header.blockNo[t] == s.header.blockNo[t];
      assert Unlogged(s.header, c);
      if r.mem != s.mem {
        assert r.header.blockNo[FindLogged(s.header, b, 0)] == b;
      }
    }
  }

  lemma SyncKeeps(sb: SuperBlock, s: State, op: nat, b: nat, data: Block)
    requires Layout(sb) && Inv(sb, s) && s.halt.Alive?
    ensures Inv(sb, DoSync(sb, s, op, b, data))
  {
    if op in s.ops && sb.Home(b) {
      SyncReserves(sb, s, op, b, data);
      SyncStaysSynced(sb, s, op, b, data);
      assert !s.committing;
    }
  }

  lemma EndKeeps(sb: SuperBlock, s: State, op: nat)
    requires Layout(sb) && Inv(sb, s)
    ensures Inv(sb, DoEnd(s, op))
  {
    if op in s.ops {
      var r := DoEnd(s, op);
      TotalWithout(s.ops, op);
      assert r.ops.Keys == s.ops.Keys - {op};
      if r.outstanding == 0 {
        assert |r.ops| == 0;
        assert CommitWrites(sb.logStart, s.header, Payload(s.header, s.mem))[..0] == [];
      }
    }
  }

  lemma WriteKeeps(sb: SuperBlock, s: State)
    requires Layout(sb) && Inv(sb, s)
    ensures Inv(sb, DoWrite(sb, s))
  {
    hide Apply, CommitWrites, Payload, SameHome, Clean, Total;
    var ws := CommitWrites(sb.logStart, s.header, Payload(s.header, s.mem));
    if s.committing && s.phase < |ws| {
      assert ws[..s.phase + 1] == ws[..s.phase] + [ws[s.phase]];
      ApplyConcat(s.base, ws[..s.phase], [ws[s.phase]]);
    }
  }

  lemma FinishKeeps(sb: SuperBlock, s: State)
    requires Layout(sb) && Inv(sb, s)
    ensures Inv(sb, DoFinish(s))
  {
    if s.committing && s.phase == 2 * s.header.num + 2 {
      PayloadUpdates(sb, s.header, s.base, s.mem);
      CrashAfterHeader(sb, s.base, s.header, Payload(s.header, s.mem), s.phase);
    }
  }

  lemma CrashKeeps(sb: SuperBlock, s: State, crashes: seq<nat>)
    requires Layout(sb) && Inv(sb, s)
    ensures Inv(sb, DoCrash(sb, s, crashes))
  {
    RebootFindsBoundary(sb, s, crashes);
  }

  lemma StepKeeps(sb: SuperBlock, s: State, a: Step)
    requires Layout(sb) && Inv(sb, s)
    ensures Inv(sb, Do(sb, s, a))
  {
    if s.halt.Alive? || a.Crash? {
      match a
      case Begin(op) => BeginKeeps(sb, s, op);
      case Sync(op, b, data) => SyncKeeps(sb, s, op, b, data);
      case End(op) => EndKeeps(sb, s, op);
      case DeviceWrite => WriteKeeps(sb, s);
      case Finish => FinishKeeps(sb, s);
      case Crash(crashes) => CrashKeeps(sb, s, crashes);
    }
  }

  // ---------- a whole commit as one transition ----------

  /** A set of states that steps do not leave. */
  ghost predicate Closed(sb: SuperBlock, R: iset<State>) {
    forall s: State, a: Step :: s in R ==> Do(sb, s, a) in R
  }

  /** All device writes of the commit, then Finish. */
  function Committed(sb: SuperBlock, s: State): (r: State)
    requires HeaderOk(sb, s.header, s.mem)
  {
    s.(disk := Apply(s.disk, CommitWrites(sb.logStart, s.header, Payload(s.header, s.mem))),
       committing := false, phase := 0, header := s.header.(num := 0))
  }

  /** The commit after its first `n` device writes. */
  function Written(sb: SuperBlock, s: State, n: nat): (r: State)
    requires HeaderOk(sb, s.header, s.mem) && n <= 2 * s.header.num + 2
  {
    s.(disk := Apply(s.disk, CommitWrites(sb.logStart, s.header, Payload(s.header, s.mem))[..n]), phase := n)
  }

  lemma OneMoreWrite(sb: SuperBlock, s: State, n: nat)
    requires s.committing && s.phase == 0
    requires HeaderOk(sb, s.header, s.mem) && n < 2 * s.header.num + 2
    ensures DoWrite(sb, Written(sb, s, n)) == Written(sb, s, n + 1)
  {
    hide Apply, CommitWrites, Payload;
    var ws := CommitWrites(sb.logStart, s.header, Payload(s.header, s.mem));
    assert ws[..n + 1] == ws[..n] + [ws[n]];
    ApplyConcat(s.disk, ws[..n], [ws[n]]);
  }

  lemma {:induction false} WrittenStays(sb: SuperBlock, R: iset<State>, s: State, n: nat)
    requires Closed(sb, R) && s in R && s.committing && s.halt.Alive? && s.phase == 0
    requires HeaderOk(sb, s.header, s.mem) && n <= 2 * s.header.num + 2
    ensures Written(sb, s, n) in R
    decreases n
  {
    if n == 0 {
      assert CommitWrites(sb.logStart, s.header, Payload(s.header, s.mem))[..0] == [];
      assert Written(sb, s, 0) == s;
    } else {
      WrittenStays(sb, R, s, n - 1);
      OneMoreWrite(sb, s, n - 1);
      assert Do(sb, Written(sb, s, n - 1), DeviceWrite) in R;
    }
  }

  /** A whole commit is steps of the protocol: it leads wherever steps lead. */
  lemma CommittedStays(sb: SuperBlock, R: iset<State>, s: State)
    requires Closed(sb, R) && s in R && s.committing && s.halt.Alive? && s.phase == 0
    requires HeaderOk(sb, s.header, s.mem)
    ensures Committed(sb, s) in R
  {
    var n := 2 * s.header.num + 2;
    var ws := CommitWrites(sb.logStart, s.header, Payload(s.header, s.mem));
    WrittenStays(sb, R, s, n);
    assert ws[..n] == ws;
    assert Do(sb, Written(sb, s, n), Finish) in R;
    assert DoFinish(Written(sb, s, n)) == Committed(sb, s);
  }

  lemma {:induction false} RunKeepsFrom(sb: SuperBlock, s: State, steps: seq<Step>)
    requires Layout(sb) && Inv(sb, s)
    ensures Inv(sb, Run(sb, s, steps))
    decreases |steps|
  {
    if steps != [] {
      RunKeepsFrom(sb, s, steps[..|steps| - 1]);
      StepKeeps(sb, Run(sb, s, steps[..|steps| - 1]), steps[|steps| - 1]);
    }
  }

  lemma CommittedKeeps(sb: SuperBlock, s: State)
    requires Layout(sb) && Inv(sb, s) && s.committing && s.halt.Alive? && s.phase == 0
    ensures Inv(sb, Committed(sb, s))
  {
    forall q: State, a: Step | Inv(sb, q) ensures Inv(sb, Do(sb, q, a)) { StepKeeps(sb, q, a); }
    CommittedStays(sb, (iset q: State | Inv(sb, q)), s);
  }

  // ---------- main results, over every run ----------

  lemma {:induction false} RunKeeps(sb: SuperBlock, d: Disk, steps: seq<Step>)
    requires Layout(sb) && Clean(sb, d)
    ensures Inv(sb, Run(sb, Boot(sb, d), steps))
  {
    RunKeepsFrom(sb, Boot(sb, d), steps);
  }

  /** Over every interleaving of operations and crashes: what is logged plus what running
      operations may still log never exceeds LOG_MAX_SIZE, logged numbers are distinct,
      no operation runs during a commit, the PANIC in end_op is unreachable and no
      operation with budget left writes past the header's array. */
  lemma {:induction false} ReservationHolds(sb: SuperBlock, d: Disk, steps: seq<Step>)
    requires Layout(sb) && Clean(sb, d)
    ensures var s := Run(sb, Boot(sb, d), steps);
      && s.header.num + Total(s.ops) <= LOG_MAX_SIZE
      && Logged(sb, s)
      && (s.committing ==> s.ops == map[])
      && s.outstanding == |s.ops|
      && s.halt != EndDuringCommit && s.halt != HeaderOverrun
  {
    RunKeeps(sb, d, steps);
  }

  /** Whole-run crash safety: crash after any run, reboot with any number of interrupted
      recoveries, and the home blocks are those of the last moment at which no operation
      was running (the one before it if the group's header had not reached the disk). */
  lemma {:induction false} CrashAfterAnyRun(sb: SuperBlock, d: Disk, steps: seq<Step>, crashes: seq<nat>)
    requires Layout(sb) && Clean(sb, d)
    ensures var s := Run(sb, Boot(sb, d), steps);
      && 1 <= |s.boundaries|
      && 1 <= Durable(s)
      && SameHome(sb, Reboot(s.disk, sb, crashes), s.boundaries[Durable(s) - 1])
      && Clean(sb, Reboot(s.disk, sb, crashes))
  {
    hide Inv, Run, Reboot, Boot, Layout;
    RunKeeps(sb, d, steps);
    RebootFindsBoundary(sb, Run(sb, Boot(sb, d), steps), crashes);
  }

  /** Group durability: once a commit is over and nothing has been synced since, a crash
      loses nothing that was ever synced. */
  lemma {:induction false} QuietStateIsDurable(sb: SuperBlock, d: Disk, steps: seq<Step>, crashes: seq<nat>)
    requires Layout(sb) && Clean(sb, d)
    requires var s := Run(sb, Boot(sb, d), steps); !s.committing && s.header.num == 0
    ensures var s := Run(sb, Boot(sb, d), steps); SameHome(sb, Reboot(s.disk, sb, crashes), s.mem)
  {
    RunKeeps(sb, d, steps);
    RebootClean(sb, Run(sb, Boot(sb, d), steps).disk, crashes);
  }

  // ---------- the bound is reached ----------

  ghost predicate Reachable(sb: SuperBlock, d: Disk, s: State)
    requires Clean(sb, d)
  {
    exists steps: seq<Step> :: Run(sb, Boot(sb, d), steps) == s
  }

  lemma ReachableClosed(sb: SuperBlock, d: Disk)
    requires Clean(sb, d)
    ensures Closed(sb, (iset s: State | Reachable(sb, d, s)))
    ensures Reachable(sb, d, Boot(sb, d))
  {
    assert Run(sb, Boot(sb, d), []) == Boot(sb, d);
    forall s: State, a: Step | Reachable(sb, d, s) ensures Reachable(sb, d, Do(sb, s, a)) {
      var u: seq<Step> :| Run(sb, Boot(sb, d), u) == s;
      assert (u + [a])[..|u + [a]| - 1] == u;
      assert Run(sb, Boot(sb, d), u + [a]) == Do(sb, s, a);
    }
  }

  /** A group in the making, on disk `d`: blocks from `first` up to below `next` have been
      synced, all with the same contents. */
  datatype Plan = Plan(sb: SuperBlock, d: Disk, first: nat, data: Block)
  {
    ghost predicate Running(s: State, next: nat) {
      && HeaderOk(sb, s.header, s.mem) && s.disk == d && |d| == sb.numBlocks && s.halt.Alive? && !s.committing
      && (forall t :: 0 <= t < s.header.num ==>
            first <= s.header.blockNo[t] < next && s.mem[s.header.blockNo[t]] == data)
      && (forall b :: 0 <= b < first && b < |d| ==> s.mem[b] == d[b])
    }
  }

  lemma SyncNew(p: Plan, s: State, op: nat, b: nat)
    requires p.Running(s, b) && op in s.ops && 0 < s.ops[op] && p.first <= b
    requires s.header.num < LOG_MAX_SIZE && p.sb.Home(b) && b < Power256(8)
    ensures var r := Do(p.sb, s, Sync(op, b, p.data));
      && p.Running(r, b + 1)
      && r.header.num == s.header.num + 1
      && r.ops == s.ops[op := s.ops[op] - 1]
      && r.outstanding == s.outstanding
  {
    var r := DoSync(p.sb, s, op, b, p.data);
    assert FindLogged(s.header, b, 0) == s.header.num;
    assert r.header.blockNo == s.header.blockNo[s.header.num := b];
  }

  lemma {:induction false} SyncBatch(p: Plan, R: iset<State>, s: State, op: nat, next: nat, count: nat)
    returns (r: State)
    requires Closed(p.sb, R) && s in R
    requires p.Running(s, next) && op in s.ops && count <= s.ops[op] && s.header.num + count <= LOG_MAX_SIZE
    requires p.first <= next && forall b: nat :: next <= b < next + count ==> p.sb.Home(b) && b < Power256(8)
    ensures r in R
    ensures p.Running(r, next + count)
    ensures r.header.num == s.header.num + count && r.outstanding == s.outstanding
    ensures r.ops == s.ops[op := s.ops[op] - count]
    decreases count
  {
    r := s;
    if count > 0 {
      SyncNew(p, s, op, next);
      r := SyncBatch(p, R, Do(p.sb, s, Sync(op, next, p.data)), op, next + 1, count - 1);
    }
  }

  lemma BeginNew(p: Plan, R: iset<State>, s: State, op: nat, next: nat) returns (r: State)
    requires Closed(p.sb, R) && s in R
    requires p.Running(s, next) && op !in s.ops && s.header.num + (s.outstanding + 1) * 10 <= LOG_MAX_SIZE
    ensures r in R && p.Running(r, next)
    ensures r.header == s.header && r.ops == s.ops[op := 10] && r.outstanding == s.outstanding + 1
  {
    assert Do(p.sb, s, Begin(op)) in R;
    r := DoBegin(s, op);
  }

  lemma EndOne(p: Plan, R: iset<State>, s: State, op: nat, next: nat) returns (r: State)
    requires Closed(p.sb, R) && s in R
    requires p.Running(s, next) && op in s.ops && s.outstanding > 1
    ensures r in R && p.Running(r, next)
    ensures r.header == s.header && r.ops == s.ops - {op} && r.outstanding == s.outstanding - 1
  {
    assert Do(p.sb, s, End(op)) in R;
    r := DoEnd(s, op);
  }

  /** Operations 1 to `last` begin, one after the other. */
  lemma BeginMany(p: Plan, R: iset<State>, s0: State, last: nat, next: nat) returns (s: State)
    requires Closed(p.sb, R) && s0 in R && p.Running(s0, next)
    requires s0.header.num + (s0.outstanding + last) * 10 <= LOG_MAX_SIZE
    requires forall op :: op in s0.ops ==> op == 0
    ensures s in R && p.Running(s, next) && s.header == s0.header
    ensures s.outstanding == s0.outstanding + last
    ensures forall op :: op in s.ops <==> op in s0.ops || 1 <= op <= last
    ensures forall op :: 1 <= op <= last ==> s.ops[op] == 10
  {
    s := s0;
    var op := 1;
    while op <= last
      invariant 1 <= op <= last + 1
      invariant s in R && p.Running(s, next) && s.header == s0.header
      invariant s.outstanding == s0.outstanding + op - 1
      invariant forall i :: i in s.ops <==> i in s0.ops || 1 <= i < op
      invariant forall i :: 1 <= i < op ==> s.ops[i] == 10
    {
      s := BeginNew(p, R, s, op, next);
      op := op + 1;
    }
  }

  /** Six operations, after a seventh that logged three blocks and ended early. */
  lemma Opens(p: Plan, R: iset<State>) returns (s: State)
    requires Clean(p.sb, p.d) && Closed(p.sb, R) && Boot(p.sb, p.d) in R && p.first + 3 <= Power256(8)
    requires forall b: nat :: p.first <= b < p.first + 3 ==> p.sb.Home(b)
    ensures s in R && p.Running(s, p.first + 3) && s.header.num == 3 && s.outstanding == 6
    ensures forall op :: 1 <= op <= 6 ==> op in s.ops && s.ops[op] == 10
  {
    s := Boot(p.sb, p.d);
    s := BeginNew(p, R, s, 0, p.first);
    s := SyncBatch(p, R, s, 0, p.first, 3);
    s := BeginMany(p, R, s, 5, p.first + 3);
    s := EndOne(p, R, s, 0, p.first + 3);
    s := BeginNew(p, R, s, 6, p.first + 3);
  }

  lemma Fills(p: Plan, R: iset<State>) returns (s: State)
    requires Clean(p.sb, p.d) && Closed(p.sb, R) && Boot(p.sb, p.d) in R && p.first + 63 <= Power256(8)
    requires forall b: nat :: p.first <= b < p.first + 63 ==> p.sb.Home(b)
    ensures s in R && p.Running(s, p.first + 63) && s.outstanding == 6
    ensures s.header.num == LOG_MAX_SIZE && forall op :: 1 <= op <= 6 ==> op in s.ops && s.ops[op] == 0
  {
    s := Opens(p, R);
    var op := 1;
    while op <= 6
      invariant 1 <= op <= 7
      invariant s in R && p.Running(s, p.first + 10 * op - 7) && s.outstanding == 6
      invariant s.header.num == 10 * op - 7
      invariant forall i :: 1 <= i <= 6 ==> i in s.ops && s.ops[i] == if i < op then 0 else 10
    {
      s := SyncBatch(p, R, s, op, p.first + 10 * op - 7, 10);
      op := op + 1;
    }
  }

  /** All six operations end, and the commit begins. */
  lemma Commits(p: Plan, R: iset<State>, s0: State, next: nat) returns (s: State)
    requires Closed(p.sb, R) && s0 in R && p.Running(s0, next) && s0.outstanding == 6
    requires forall op :: 1 <= op <= 6 ==> op in s0.ops
    ensures s in R && s.header == s0.header && s.mem == s0.mem && s.disk == s0.disk
    ensures s.committing && s.phase == 0 && s.halt.Alive?
  {
    s := s0;
    var op := 1;
    while op <= 5
      invariant 1 <= op <= 6
      invariant s in R && p.Running(s, next) && s.header == s0.header && s.mem == s0.mem
      invariant s.outstanding == 7 - op && forall i :: op <= i <= 6 ==> i in s.ops
    {
      assert Do(p.sb, s, End(op)) in R;
      s := DoEnd(s, op);
      op := op + 1;
    }
    assert Do(p.sb, s, End(6)) in R;
    s := DoEnd(s, 6);
  }

  /** All LOG_MAX_SIZE header entries can be in use, and then the next sync of a new
      block writes entry LOG_MAX_SIZE, one past the array, before its ASSERT stops it. */
  lemma HeaderFillsUp(sb: SuperBlock, d: Disk, first: nat) returns (s: State)
    requires Clean(sb, d) && first + 64 <= Power256(8)
    requires forall b: nat :: first <= b < first + 64 ==> sb.Home(b)
    ensures Reachable(sb, d, s)
    ensures s.header.num == LOG_MAX_SIZE && s.header.Fits()
    ensures Do(sb, s, Sync(6, first + 63, ZeroBlock())).halt == BudgetExceeded(LOG_MAX_SIZE)
  {
    ReachableClosed(sb, d);
    s := Fills(Plan(sb, d, first, ZeroBlock()), (iset q: State | Reachable(sb, d, q)));
    assert FindLogged(s.header, first + 63, 0) == LOG_MAX_SIZE;
    assert DoSync(sb, s, 6, first + 63, ZeroBlock()).halt == BudgetExceeded(LOG_MAX_SIZE);
  }

  /** Exactly when the entry that sync writes is past the header's array: the block is
      new and every entry is in use. By ReservationHolds this leaves only an operation
      without budget. */
  lemma {:induction false} WritesPastHeaderIff(sb: SuperBlock, s: State, op: nat, b: nat, data: Block)
    requires Layout(sb) && Inv(sb, s) && s.halt.Alive? && op in s.ops && sb.Home(b)
    ensures FindLogged(s.header, b, 0) >= LOG_MAX_SIZE <==> Unlogged(s.header, b) && s.header.num == LOG_MAX_SIZE
    ensures FindLogged(s.header, b, 0) >= LOG_MAX_SIZE ==> s.ops[op] == 0
  {
    TotalWithout(s.ops, op);
  }

  // ---------- sync without a context ----------

  /** cache_sync(NULL, block): the block goes straight to the device. */
  function DoUnlogged(sb: SuperBlock, s: State, b: nat, data: Block): (r: State) {
    if sb.Home(b) && b < |s.mem| && b < |s.disk| then s.(mem := s.mem[b := data], disk := s.disk[b := data]) else s
  }

  /** Exactly when a sync without a context between two commits keeps crash atomicity: it
      writes what the device has already. That is so for a block of no group; a block of the
      group in the making that has changed reaches the disk before its group. */
  lemma {:induction false} UnloggedSafeIff(sb: SuperBlock, s: State, b: nat, data: Block, crashes: seq<nat>)
    requires Layout(sb) && Inv(sb, s) && !s.committing && sb.Home(b)
    ensures |s.disk| == |s.mem| == sb.numBlocks
    ensures SameHome(sb, Reboot(DoUnlogged(sb, s, b, data).disk, sb, crashes), s.boundaries[Durable(s) - 1])
      <==> data == s.disk[b]
    ensures Inv(sb, DoUnlogged(sb, s, b, data)) <==> data == s.disk[b]
    ensures Unlogged(s.header, b) && data == s.mem[b] ==> data == s.disk[b]
  {
    hide Clean, Reboot, Apply, CommitWrites, Reserved, Synced, Logged;
    var r := DoUnlogged(sb, s, b, data);
    UnloggedKeepsRest(sb, s, b, data, r);
    RebootClean(sb, r.disk, crashes);
    assert r.disk[b] == data && s.disk[b] == s.boundaries[|s.boundaries| - 1][b];
    if data == s.disk[b] { assert r.disk == s.disk; }
  }

  lemma {:induction false} UnloggedKeepsRest(sb: SuperBlock, s: State, b: nat, data: Block, r: State)
    requires Layout(sb) && Inv(sb, s) && !s.committing && sb.Home(b) && r == DoUnlogged(sb, s, b, data)
    ensures |s.disk| == |s.mem| == sb.numBlocks && s.header.Fits()
    ensures Unlogged(s.header, b) ==> s.mem[b] == s.disk[b]
    ensures Clean(sb, r.disk) && Logged(sb, r) && Reserved(r) && Synced(sb, r)
  {
    assert r.disk[sb.logStart] == s.disk[sb.logStart];
  }

  /** One operation has begun, and synced one block. */
  lemma {:induction false} OneSync(sb: SuperBlock, d: Disk, b: nat, data: Block) returns (s: State)
    requires Layout(sb) && Clean(sb, d) && sb.Home(b)
    ensures s == Do(sb, Do(sb, Boot(sb, d), Begin(0)), Sync(0, b, data))
    ensures b < |d| && s.disk == d && s.mem == d[b := data] && s.boundaries == [d]
    ensures Inv(sb, s) && !s.committing
  {
    var s0 := Boot(sb, d);
    assert Run(sb, s0, []) == s0;
    RunKeeps(sb, d, []);
    BeginKeeps(sb, s0, 0);
    var s1 := DoBegin(s0, 0);
    assert FindLogged(s1.header, b, 0) == 0;
    SyncKeeps(sb, s1, 0, b, data);
    hide Inv;
    s := DoSync(sb, s1, 0, b, data);
  }

  /** From every clean disk: one operation syncs a new value of a block, someone syncs that
      block without a context, and the machine stops. Every reboot finds the new value,
      which was never committed. */
  lemma {:induction false} UnloggedBreaks(sb: SuperBlock, d: Disk, b: nat, data: Block) returns (s: State)
    requires Layout(sb) && Clean(sb, d) && sb.Home(b) && data != d[b]
    ensures Reachable(sb, d, s) && s.boundaries == [d] && b < |s.mem| && s.mem[b] == data
    ensures forall crashes: seq<nat> ::
      !SameHome(sb, Reboot(DoUnlogged(sb, s, b, s.mem[b]).disk, sb, crashes), d)
  {
    hide Inv, Layout, Clean, Reboot, Boot, DoUnlogged;
    s := OneSync(sb, d, b, data);
    ReachableClosed(sb, d);
    assert Reachable(sb, d, Do(sb, Boot(sb, d), Begin(0)));
    hide Do, Reachable;
    assert Durable(s) == 1;
    forall crashes: seq<nat> ensures !SameHome(sb, Reboot(DoUnlogged(sb, s, b, s.mem[b]).disk, sb, crashes), d) {
      UnloggedSafeIff(sb, s, b, data, crashes);
    }
  }

  /** The layout that mkfs writes. */
  const MKFS := SuperBlock(1000, 200, 63, 2, 65, 91)

  /** On mkfs disks the full group is one block too long for the logging area, and it can be
      reached: from every clean disk there is a run into a commit that has made its 63 log
      copies, the last of them over the first inode block. That block was never synced, and
      a reboot from there, cut short or not, finds neither its old contents nor its new
      ones, which are the same. */
  lemma {:induction false} MkfsLogTooSmall(d: Disk) returns (s: State)
    requires Clean(MKFS, d)
    ensures Reachable(MKFS, d, s)
    ensures s.committing && s.phase == s.header.num == LOG_MAX_SIZE && s.header.Fits()
    ensures MKFS.Home(MKFS.inodeStart) && Unlogged(s.header, MKFS.inodeStart)
    ensures |s.mem| == |d| == MKFS.numBlocks && s.mem[MKFS.inodeStart] == d[MKFS.inodeStart]
    ensures forall crashes: seq<nat> ::
      var r := Reboot(s.disk, MKFS, crashes); !SameHome(MKFS, r, d) && !SameHome(MKFS, r, s.mem)
  {
    Power256Of8();
    ReachableClosed(MKFS, d);
    var R := iset q: State | Reachable(MKFS, d, q);
    var data := if d[MKFS.inodeStart] == ZeroBlock() then OnesBlock() else ZeroBlock();
    assert OnesBlock()[0] != ZeroBlock()[0];
    var p := Plan(MKFS, d, 100, data);
    var full := Fills(p, R);
    var s0 := Commits(p, R, full, 163);
    WrittenStays(MKFS, R, s0, LOG_MAX_SIZE);
    s := Written(MKFS, s0, LOG_MAX_SIZE);
    forall crashes: seq<nat>
      ensures var r := Reboot(s.disk, MKFS, crashes); !SameHome(MKFS, r, d) && !SameHome(MKFS, r, s.mem)
    {
      OverrunStays(MKFS, s.header, d, Payload(s.header, s.mem), crashes);
    }
  }
}
