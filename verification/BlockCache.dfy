/** The block cache: acquire, release, sync and group commit over a block device, one
    method body per function of src/fs/cache.c. Operations are proved to be steps of
    LogProtocol, and every acquired block carries the last synced contents. */
module BlockCaches {
  import opened FsLayout
  import opened Journal
  import LogProtocol
  import opened CacheSpec

  /** struct Block; `acquired` stands for the sleep lock, with at most one holder. */
  class CachedBlock {
    var blockNo: nat
    var acquired: bool
    var pinned: bool
    var valid: bool
    var data: Block

    constructor ()
      ensures Fields() == Slot(0, false, false, false, ZeroBlock())
    {
      blockNo, acquired, pinned, valid, data := 0, false, false, false, ZeroBlock();
    }

    ghost function Fields(): Slot
      reads this
    {
      Slot(blockNo, acquired, pinned, valid, data)
    }
  }

  class OpContext {
    var rm: nat
    ghost var id: nat

    constructor () { rm := 0; }
  }

  class BlockCache {
    const sb: SuperBlock
    /** the device, and the writes it has received */
    var disk: Disk
    ghost var writes: seq<Write>
    /** the list of cached blocks, head first */
    var list: seq<CachedBlock>
    /** in-memory copy of the log header */
    var header: LogHeader
    var committing: bool
    var outstanding: int
    /** last synced contents of every home block */
    ghost var view: Disk
    ghost var ops: map<nat, nat>
    ghost var base: Disk
    ghost var boundaries: seq<Disk>

    /** The protocol state this cache stands for. */
    ghost function Abs(): LogProtocol.State
      reads this
    {
      LogProtocol.State(disk, view, header, ops, outstanding, committing, 0, base, boundaries, LogProtocol.Alive)
    }

    ghost function Whole(): Image
      reads `list, `disk, `view, `header, list
    {
      Image(sb, SlotsOf(list), disk, view, header)
    }

    /** The cached blocks are distinct objects and satisfy the cache invariant. */
    ghost predicate Ok(k: nat)
      reads `list, `disk, `view, `header, list
    {
      && Separate(list)
      && Cached(Whole(), k)
    }

    /** The numbers of the blocks that someone holds. */
    ghost function Holding(): set<nat>
      reads `list, list
    {
      Held(SlotsOf(list))
    }

    method Acquire(b: nat, ghost k: nat) returns (blk: CachedBlock)
      requires Ok(k) && b < sb.numBlocks && b !in Holding()
      modifies `list, list
      ensures Ok(k)
      ensures blk in list && blk.blockNo == b && blk.acquired && blk.valid
      ensures b != sb.logStart ==> blk.data == Expected(Whole(), b)
      ensures Holding() == old(Holding()) + {b}
      ensures fresh(blk) || (blk in old(list) && !old(blk.acquired))
      ensures list == old(list) || (fresh(blk) && list == old(list) + [blk])
      ensures forall x :: x in old(list) && x != blk ==> unchanged(x)
      ensures Took(old(list), old(SlotsOf(list)), b, blk, list)
    {
      var i := 0;
      while i < |list|
        invariant 0 <= i <= |list|
        invariant forall j :: 0 <= j < i ==> SlotsOf(list)[j].blockNo != b
      {
        if list[i].blockNo == b {
          assert IsHit(SlotsOf(list), b, i);
          blk := Hit(i, k);
          return;
        }
        i := i + 1;
      }
      var n := |list|;
      while n > 0
        invariant 0 <= n <= |list|
        invariant forall j :: n <= j < |list| ==> SlotsOf(list)[j].acquired || SlotsOf(list)[j].pinned
      {
        n := n - 1;
        if !list[n].acquired && !list[n].pinned {
          assert IsVictim(SlotsOf(list), n);
          blk := Reuse(n, b, k);
          return;
        }
      }
      blk := Grow(b, k);
    }

    /** acquire takes the block that has the number; if there is none, the idle block nearest
        to the tail of the list, and a new one, put at the tail, only if there is none idle. */
    ghost predicate Took(was: seq<CachedBlock>, slots: seq<Slot>, b: nat, blk: CachedBlock, list: seq<CachedBlock>) {
      && |was| == |slots|
      && (!Absent(slots, b) ==> list == was && exists i: nat :: IsHit(slots, b, i) && blk == was[i])
      && (Absent(slots, b) && (exists j :: 0 <= j < |slots| && Idle(slots[j])) ==>
            list == was && exists i: nat :: IsVictim(slots, i) && blk == was[i])
      && (Absent(slots, b) && (forall j :: 0 <= j < |slots| ==> !Idle(slots[j])) ==> list == was + [blk])
    }

    /** The block is in the list. */
    method Hit(i: nat, ghost k: nat) returns (blk: CachedBlock)
      requires Ok(k) && i < |list| && list[i].blockNo !in Holding()
      requires forall j :: 0 <= j < i ==> SlotsOf(list)[j].blockNo != list[i].blockNo
      modifies list[i]
      ensures Ok(k) && blk == list[i] && Holding() == old(Holding()) + {blk.blockNo}
      ensures blk.blockNo == old(list[i].blockNo) && blk.acquired && blk.valid && !old(list[i].acquired)
      ensures blk.blockNo < sb.numBlocks
      ensures blk.blockNo != sb.logStart ==> blk.data == Expected(Whole(), blk.blockNo)
    {
      ghost var m := Whole();
      blk := list[i];
      assert m.slots[i] == blk.Fields();
      blk.acquired := true;
      if !blk.valid && !blk.pinned {
        blk.data := disk[blk.blockNo];
        blk.valid := true;
      }
      HitKeeps(m, k, i, blk.data);
      assert SlotsOf(list) == m.slots[i := blk.Fields()];
    }

    /** A free, unpinned block is given a new number. */
    method Reuse(i: nat, b: nat, ghost k: nat) returns (blk: CachedBlock)
      requires Ok(k) && i < |list| && b < sb.numBlocks && !list[i].acquired && !list[i].pinned
      requires forall j :: 0 <= j < |list| ==> SlotsOf(list)[j].blockNo != b
      modifies list[i]
      ensures Ok(k) && blk == list[i] && Holding() == old(Holding()) + {b}
      ensures blk.blockNo == b && blk.acquired && blk.valid && blk.data == Expected(Whole(), b)
    {
      ghost var m := Whole();
      blk := list[i];
      assert m.slots[i] == blk.Fields();
      blk.blockNo := b;
      blk.acquired := true;
      blk.valid := false;
      blk.data := disk[b];
      blk.valid := true;
      ReuseKeeps(m, k, i, b);
      assert SlotsOf(list) == m.slots[i := blk.Fields()];
    }

    /** A new block at the tail of the list. */
    method Grow(b: nat, ghost k: nat) returns (blk: CachedBlock)
      requires Ok(k) && b < sb.numBlocks
      requires forall j :: 0 <= j < |list| ==> SlotsOf(list)[j].blockNo != b
      requires forall j :: 0 <= j < |list| ==> SlotsOf(list)[j].acquired || SlotsOf(list)[j].pinned
      modifies `list
      ensures Ok(k) && fresh(blk) && list == old(list) + [blk] && Holding() == old(Holding()) + {b}
      ensures blk.blockNo == b && blk.acquired && blk.valid && blk.data == Expected(Whole(), b)
    {
      ghost var m := Whole();
      blk := new CachedBlock();
      blk.blockNo := b;
      blk.acquired := true;
      blk.data := disk[b];
      blk.valid := true;
      list := list + [blk];
      GrowKeeps(m, k, b);
      assert SlotsOf(list) == m.slots + [blk.Fields()];
    }

    method Release(blk: CachedBlock, ghost k: nat)
      requires Ok(k) && blk in list && blk.valid && blk.blockNo < sb.numBlocks
      requires blk.blockNo != sb.logStart ==> blk.data == Expected(Whole(), blk.blockNo)
      modifies `list, blk`acquired
      ensures Ok(k) && Holding() == old(Holding()) - {blk.blockNo}
      ensures !blk.acquired
      ensures forall x :: x in list ==> x in old(list)
      ensures forall x :: x in old(list) && x != blk ==> x in list
      ensures Left(old(list), blk, blk.pinned, list)
    {
      var p :| 0 <= p < |list| && list[p] == blk;
      ReleaseKeeps(Whole(), k, p);
      hide Cached, Held, SlotsOf, Separate;
      Relink(blk, p);
      MovedMembers(old(list), p, blk.pinned);
    }

    lemma MovedMembers(was: seq<CachedBlock>, p: nat, pinned: bool)
      requires p < |was|
      ensures forall x :: x in Moved(was, p, pinned) ==> x in was
      ensures forall x :: x in was && x != was[p] ==> x in Moved(was, p, pinned)
    {
      var r := was[..p] + was[p + 1..];
      assert forall i :: 0 <= i < |r| ==> r[i] == was[if i < p then i else i + 1];
      assert forall i :: 0 <= i < |was| && i != p ==> was[i] == r[if i < p then i else i - 1];
      assert forall x :: x in Moved(was, p, pinned) ==> x in r || x == was[p];
    }

    /** release moves the block to the head; if the other blocks are more than 20 it drops it,
        unless it is pinned. The others keep their order. */
    ghost predicate Left(was: seq<CachedBlock>, blk: CachedBlock, pinned: bool, list: seq<CachedBlock>) {
      exists p: nat :: p < |was| && was[p] == blk && list == Moved(was, p, pinned)
    }

    function Moved(was: seq<CachedBlock>, p: nat, pinned: bool): (list: seq<CachedBlock>)
      requires p < |was|
    {
      (if !pinned && |was| > 21 then [] else [was[p]]) + (was[..p] + was[p + 1..])
    }

    /** Block `p` is given up and leaves the list. */
    method Unlink(blk: CachedBlock, p: nat) returns (rest: seq<CachedBlock>)
      requires p < |list| && Separate(list) && list[p] == blk
      modifies blk`acquired
      ensures Separate(rest) && blk !in rest && !blk.acquired && blk.pinned == old(blk.pinned)
      ensures |rest| == |list| - 1 && SlotsOf(rest) == Without(old(SlotsOf(list)), p)
      ensures blk.Fields() == old(SlotsOf(list))[p].(acquired := false)
      ensures forall x :: x in rest <==> x in list && x != blk
      ensures rest == list[..p] + list[p + 1..]
    {
      rest := Detach(list, p);
      blk.acquired := false;
    }

    /** Detaches block `p`, then frees it or links it at the head. */
    method Relink(blk: CachedBlock, p: nat)
      requires p < |list| && Separate(list) && list[p] == blk
      modifies `list, blk`acquired
      ensures Separate(list) && !blk.acquired
      ensures SlotsOf(list) == Released(old(SlotsOf(list)), p)
      ensures list == Moved(old(list), p, blk.pinned)
    {
      hide Without, SlotsOf, Separate;
      var rest := Unlink(blk, p);
      assert [] + rest == rest;
      if !blk.pinned && |rest| > EVICTION_THRESHOLD {
        list := rest; // the block is freed
      } else {
        list := AtHead(blk, rest);
      }
    }

    // ---------- operations ----------

    /** Between public calls: the protocol invariant and the cache invariant. */
    ghost predicate Valid()
      reads this, list
    {
      LogProtocol.Layout(sb) && LogProtocol.Inv(sb, Abs()) && !committing && Ok(0)
    }

    /** `ctx` is a running operation. */
    ghost predicate Runs(ctx: OpContext)
      reads this, ctx
    {
      ctx.id in ops && ops[ctx.id] == ctx.rm
    }

    /** One turn of begin_op's loop; false means it goes to sleep. */
    method TryBeginOp(ctx: OpContext) returns (ok: bool)
      requires Valid() && ctx.id !in ops
      modifies this, ctx`rm
      ensures Valid()
      ensures ok <==> header.num + (old(outstanding) + 1) * 10 <= 63
      ensures ok ==> Runs(ctx)
      ensures Abs() == LogProtocol.DoBegin(old(Abs()), ctx.id)
      ensures list == old(list) && writes == old(writes)
    {
      LogProtocol.BeginKeeps(sb, Abs(), ctx.id);
      if header.num + (outstanding + 1) * OP_MAX_NUM_BLOCKS > LOG_MAX_SIZE {
        ok := false;
      } else {
        outstanding := outstanding + 1;
        ctx.rm := OP_MAX_NUM_BLOCKS;
        ops := ops[ctx.id := OP_MAX_NUM_BLOCKS];
        ok := true;
      }
    }

    /** Position of `b` among the live header entries, or `num`. */
    method FindEntry(b: nat) returns (i: nat)
      requires header.Fits()
      ensures i == LogProtocol.FindLogged(header, b, 0)
    {
      i := 0;
      while i < header.num
        invariant 0 <= i <= header.num
        invariant LogProtocol.FindLogged(header, b, 0) == LogProtocol.FindLogged(header, b, i)
      {
        if header.blockNo[i] == b {
          break;
        }
        i := i + 1;
      }
    }

    /** sync inside an operation; false is the ASSERT that stops the kernel. */
    method Sync(ctx: OpContext, blk: CachedBlock) returns (ok: bool)
      requires Valid() && Runs(ctx)
      requires blk in list && blk.acquired && blk.valid && sb.Home(blk.blockNo)
      modifies this, ctx`rm, blk`pinned
      ensures ok <==> old(ctx.rm > 0 || !Unlogged(header, blk.blockNo))
      ensures ok ==> Valid() && Runs(ctx)
      ensures ok ==> Abs() == LogProtocol.DoSync(sb, old(Abs()), ctx.id, blk.blockNo, blk.data)
      ensures ok ==> |view| == |disk| == sb.numBlocks && view == old(view)[blk.blockNo := blk.data]
      ensures ok ==> Holding() == old(Holding()) && old(ctx.rm) - 1 <= ctx.rm
      ensures list == old(list) && writes == old(writes)
    {
      hide LogProtocol.Inv, LogProtocol.Layout, LogProtocol.DoSync, Cached, Held, SlotsOf, Separate;
      ghost var m, s := Whole(), Abs();
      ghost var p :| 0 <= p < |list| && list[p] == blk;
      SyncReady(sb, s, ctx.id, blk.blockNo, blk.data);
      LogProtocol.SyncKeeps(sb, s, ctx.id, blk.blockNo, blk.data);
      PinBlock(blk, p);
      ok := Record(ctx, blk);
      if ok {
        SyncKeeps(m, p, header);
        SameHeld(m.slots, p, blk.Fields());
      }
    }

    /** sync without a context: the block goes straight to the device. Afterwards the cache
        agrees with the device; the log's promises hold exactly if the device had the block
        already (LogProtocol.UnloggedSafeIff). */
    method SyncUnlogged(blk: CachedBlock)
      requires Valid() && blk in list && blk.acquired && blk.valid && sb.Home(blk.blockNo)
      modifies `disk, `writes, `view
      ensures |old(disk)| == sb.numBlocks && disk == old(disk)[blk.blockNo := blk.data]
      ensures writes == old(writes) + [Write(blk.blockNo, blk.data)]
      ensures Abs() == LogProtocol.DoUnlogged(sb, old(Abs()), blk.blockNo, blk.data)
      ensures Ok(0) && Holding() == old(Holding())
      ensures Valid() <==> blk.data == old(disk)[blk.blockNo]
    {
      hide LogProtocol.Inv, LogProtocol.Layout, Cached, Held;
      ghost var m, s := Whole(), Abs();
      ghost var p :| 0 <= p < |list| && list[p] == blk;
      LogProtocol.UnloggedSafeIff(sb, s, blk.blockNo, blk.data, []);
      UnloggedKeeps(m, p);
      disk := disk[blk.blockNo := blk.data];
      view := view[blk.blockNo := blk.data];
      writes := writes + [Write(blk.blockNo, blk.data)];
    }

    /** block->pinned = true */
    method PinBlock(blk: CachedBlock, ghost p: nat)
      requires Separate(list) && p < |list| && list[p] == blk
      modifies blk`pinned
      ensures blk.pinned && SlotsOf(list) == old(SlotsOf(list))[p := blk.Fields()]
    {
      blk.pinned := true;
    }

    /** The fields that sync updates. */
    method Record(ctx: OpContext, blk: CachedBlock) returns (ok: bool)
      requires LogProtocol.HeaderOk(sb, header, view) && sb.Home(blk.blockNo) && blk.blockNo < Power256(8)
      requires Runs(ctx) && (ctx.rm > 0 ==> header.num < LOG_MAX_SIZE)
      modifies `header, `view, `ops, ctx`rm
      ensures ok <==> LogProtocol.FindLogged(old(header), blk.blockNo, 0) < old(header.num) || old(ctx.rm) > 0
      ensures ok ==> Abs() == LogProtocol.DoSync(sb, old(Abs()), ctx.id, blk.blockNo, blk.data)
      ensures ok ==> Runs(ctx) && old(ctx.rm) - 1 <= ctx.rm
    {
      var i := FindEntry(blk.blockNo);
      // entry LOG_MAX_SIZE does not exist; see LogProtocol.WritesPastHeaderIff
      if i < LOG_MAX_SIZE {
        header := header.(blockNo := header.blockNo[i := blk.blockNo]);
      }
      if i == header.num {
        if ctx.rm == 0 {
          return false;
        }
        header := header.(num := header.num + 1);
        ctx.rm := ctx.rm - 1;
        ops := ops[ctx.id := ctx.rm];
      }
      ok := true;
      view := view[blk.blockNo := blk.data];
    }

    // ---------- commit ----------

    /** The holder of a block changes it. */
    method Edit(blk: CachedBlock, data: Block, ghost k: nat)
      requires Ok(k) && blk in list && blk.acquired
      modifies blk`data
      ensures Ok(k) && blk.data == data && Holding() == old(Holding())
    {
      ghost var m := Whole();
      ghost var p :| 0 <= p < |list| && list[p] == blk;
      EditKeeps(m, k, p, data);
      hide Cached;
      blk.data := data;
      assert SlotsOf(list) == m.slots[p := blk.Fields()];
    }

    /** device_write of a log slot. */
    method WriteLogSlot(blk: CachedBlock, ghost k: nat)
      requires Ok(k) && blk in list && blk.valid && blk.blockNo < sb.numBlocks && sb.InLog(blk.blockNo)
      modifies `disk, `writes
      ensures Ok(k)
      ensures disk == old(disk)[blk.blockNo := blk.data]
      ensures writes == old(writes) + [Write(blk.blockNo, blk.data)]
    {
      ghost var p :| 0 <= p < |list| && list[p] == blk;
      LogWriteKeeps(Whole(), k, p);
      hide Cached;
      disk := disk[blk.blockNo := blk.data];
      writes := writes + [Write(blk.blockNo, blk.data)];
    }

    /** A held log slot is filled and written. */
    method StoreLogSlot(blk: CachedBlock, data: Block, ghost k: nat)
      requires Ok(k) && blk in list && blk.acquired && blk.valid && blk.blockNo < sb.numBlocks && sb.InLog(blk.blockNo)
      modifies blk`data, `disk, `writes
      ensures Ok(k) && Holding() == old(Holding()) && blk.data == data
      ensures disk == old(disk)[blk.blockNo := data]
      ensures writes == old(writes) + [Write(blk.blockNo, data)]
    {
      hide Cached, Held, SlotsOf, Separate;
      Edit(blk, data, k);
      WriteLogSlot(blk, k);
    }

    /** The logging area holds the header and a full group. */
    ghost predicate RoomForLog() {
      LOG_MAX_SIZE < sb.numLogBlocks && sb.logStart + sb.numLogBlocks <= sb.numBlocks
    }

    /** Held blocks are home blocks outside the group. */
    ghost predicate Quiet()
      reads `list, `header, list
      requires header.Fits()
    {
      forall b :: b in Holding() ==> sb.Home(b) && Unlogged(header, b)
    }

    /** Two different blocks are acquired, one after the other. */
    method AcquirePair(b: nat, c: nat, ghost k: nat) returns (x: CachedBlock, y: CachedBlock)
      requires Ok(k) && b < sb.numBlocks && c < sb.numBlocks && b != c && b !in Holding() && c !in Holding()
      requires b != sb.logStart && c != sb.logStart
      modifies `list, list
      ensures Ok(k) && Holding() == old(Holding()) + {b, c}
      ensures x in list && y in list && x != y
      ensures x.blockNo == b && x.acquired && x.valid && x.data == Expected(Whole(), b)
      ensures y.blockNo == c && y.acquired && y.valid && y.data == Expected(Whole(), c)
      ensures forall z :: z in list ==> z in old(list) || fresh(z)
    {
      hide Cached, Held, SlotsOf, Separate;
      x := Acquire(b, k);
      ghost var list1, m1 := list, Whole();
      y := AcquireNext(c, x, k);
      assert x in list1 && y.acquired;
    }

    /** One more block is acquired, while `x` is held. */
    method AcquireNext(c: nat, x: CachedBlock, ghost k: nat) returns (y: CachedBlock)
      requires Ok(k) && c < sb.numBlocks && c !in Holding() && c != sb.logStart && x in list && x.acquired
      modifies `list, list
      ensures Ok(k) && Holding() == old(Holding()) + {c}
      ensures x in list && y in list && x != y && unchanged(x)
      ensures y.blockNo == c && y.acquired && y.valid && y.data == Expected(Whole(), c)
      ensures forall z :: z in list ==> z in old(list) || fresh(z)
    {
      hide Cached, Held, SlotsOf, Separate;
      y := Acquire(c, k);
    }

    method ReleasePair(x: CachedBlock, y: CachedBlock, ghost k: nat)
      requires Ok(k) && x in list && y in list && x != y && x.valid && y.valid
      requires x.blockNo < sb.numBlocks && x.data == Expected(Whole(), x.blockNo)
      requires y.blockNo < sb.numBlocks && y.data == Expected(Whole(), y.blockNo)
      modifies `list, x`acquired, y`acquired
      ensures Ok(k) && Holding() == old(Holding()) - {x.blockNo, y.blockNo}
      ensures forall z :: z in list ==> z in old(list)
    {
      hide Cached, Held, SlotsOf, Separate;
      Release(x, k);
      Release(y, k);
    }

    /** Body of commit's first loop: home block `b` to log slot `slot`. */
    method CopyToLog(slot: nat, b: nat)
      requires Ok(0) && slot < |disk| == |view| == sb.numBlocks && b < |view|
      requires sb.InLog(slot) && slot != sb.logStart && sb.InLog(sb.logStart) && sb.Home(b)
      requires slot !in Holding() && b !in Holding()
      modifies `list, `disk, `writes, list
      ensures Ok(0) && Holding() == old(Holding())
      ensures disk == old(disk)[slot := view[b]]
      ensures writes == old(writes) + [Write(slot, view[b])]
      ensures forall x :: x in list ==> x in old(list) || fresh(x)
    {
      hide Cached, Held, SlotsOf, Separate;
      var to, from := AcquirePair(slot, b, 0);
      StoreLogSlot(to, from.data, 0);
      ReleasePair(from, to, 0);
    }

    /** A held home block, logged block `k` of the group, is written and unpinned. */
    method WriteHome(blk: CachedBlock, ghost k: nat)
      requires Ok(k) && k < header.num && blk in list && blk.acquired && blk.valid
      requires |disk| == |view| == sb.numBlocks && |header.blockNo| == LOG_MAX_SIZE && header.num <= LOG_MAX_SIZE
      requires blk.blockNo == header.blockNo[k] && blk.blockNo < sb.numBlocks && blk.data == view[blk.blockNo]
      modifies `disk, `writes, blk`pinned
      ensures Ok(k + 1) && Holding() == old(Holding())
      ensures disk == old(disk)[blk.blockNo := blk.data]
      ensures writes == old(writes) + [Write(blk.blockNo, blk.data)]
    {
      ghost var m := Whole();
      ghost var p :| 0 <= p < |list| && list[p] == blk;
      HomeWriteKeeps(m, k, p);
      hide Cached, Held;
      disk := disk[blk.blockNo := blk.data];
      writes := writes + [Write(blk.blockNo, blk.data)];
      blk.pinned := false;
      assert SlotsOf(list) == m.slots[p := blk.Fields()];
    }

    method StoreHome(blk: CachedBlock, data: Block, ghost k: nat)
      requires Ok(k) && k < header.num && blk in list && blk.acquired && blk.valid
      requires |disk| == |view| == sb.numBlocks && |header.blockNo| == LOG_MAX_SIZE && header.num <= LOG_MAX_SIZE
      requires blk.blockNo == header.blockNo[k] && blk.blockNo < sb.numBlocks && data == view[blk.blockNo]
      modifies `disk, `writes, blk`pinned, blk`data
      ensures Ok(k + 1) && Holding() == old(Holding()) && blk.data == data
      ensures disk == old(disk)[blk.blockNo := data]
      ensures writes == old(writes) + [Write(blk.blockNo, data)]
    {
      hide Cached, Held, SlotsOf, Separate;
      Edit(blk, data, k);
      WriteHome(blk, k);
    }

    /** Body of commit's second loop: log slot `slot` to home block `b`, the `k`-th of
        the group. */
    method CopyHome(slot: nat, b: nat, ghost k: nat)
      requires Ok(k) && slot < |disk| == |view| == sb.numBlocks && b < |view|
      requires k < header.num <= LOG_MAX_SIZE == |header.blockNo| && header.blockNo[k] == b
      requires sb.InLog(slot) && slot != sb.logStart && sb.InLog(sb.logStart) && sb.Home(b)
      requires slot !in Holding() && b !in Holding() && disk[slot] == view[b]
      modifies `list, `disk, `writes, list
      ensures Ok(k + 1) && Holding() == old(Holding())
      ensures disk == old(disk)[b := view[b]]
      ensures writes == old(writes) + [Write(b, view[b])]
      ensures forall x :: x in list ==> x in old(list) || fresh(x)
    {
      hide Cached, Held, SlotsOf, Separate;
      var from, to := AcquirePair(slot, b, k);
      StoreHome(to, from.data, k);
      ReleasePair(from, to, k + 1);
    }

    /** write_header. */
    method WriteHeader(ghost k: nat)
      requires Ok(k) && header.Fits() && sb.InLog(sb.logStart) && sb.logStart < |disk| == sb.numBlocks
      modifies `disk, `writes
      ensures Ok(k) && Holding() == old(Holding())
      ensures disk == old(disk)[sb.logStart := HeaderBlock(header)]
      ensures writes == old(writes) + [Write(sb.logStart, HeaderBlock(header))]
    {
      HeaderWriteKeeps(Whole(), k, HeaderBlock(header));
      hide Cached;
      disk := disk[sb.logStart := HeaderBlock(header)];
      writes := writes + [Write(sb.logStart, HeaderBlock(header))];
    }

    /** The writes since `w` are `ws`, and they took the device from `d` to here. */
    ghost predicate Wrote(d: Disk, w: seq<Write>, ws: seq<Write>)
      reads `disk, `writes
    {
      writes == w + ws && disk == Apply(d, ws)
    }

    /** The state inside commit's first loop: the first `t` of the writes `ws` are done. */
    ghost predicate Logging(d: Disk, w: seq<Write>, ws: seq<Write>, holding: set<nat>, t: nat)
      reads `list, `disk, `writes, `view, `header, list
    {
      && RoomForLog() && Ok(0) && header.Fits() && Holding() == holding && |disk| == |view| == |d| == sb.numBlocks
      && (forall u :: 0 <= u < header.num ==>
            header.blockNo[u] < |view| && sb.Home(header.blockNo[u]) && header.blockNo[u] !in holding)
      && (forall b :: sb.InLog(b) ==> b !in holding)
      && ws == LogWrites(sb.logStart, LogProtocol.Payload(header, view))
      && t <= header.num && |ws| == header.num && Wrote(d, w, ws[..t])
    }

    /** One turn of commit's first loop. */
    method LogStep(t: nat, ghost d: Disk, ghost w: seq<Write>, ghost ws: seq<Write>, ghost holding: set<nat>)
      requires t < header.num && Logging(d, w, ws, holding, t)
      modifies `list, `disk, `writes, list
      ensures Logging(d, w, ws, holding, t + 1)
      ensures forall x :: x in list ==> x in old(list) || fresh(x)
    {
      hide Cached, Held, SlotsOf, Separate, Apply;
      CopyToLog(sb.logStart + 1 + t, header.blockNo[t]);
      Extend(d, ws, t);
    }

    lemma StartLogging(ws: seq<Write>)
      requires RoomForLog() && Ok(0) && header.Fits() && |disk| == |view| == sb.numBlocks
      requires forall t :: 0 <= t < header.num ==>
        header.blockNo[t] < |view| && sb.Home(header.blockNo[t]) && header.blockNo[t] !in Holding()
      requires forall b :: sb.InLog(b) ==> b !in Holding()
      requires ws == LogWrites(sb.logStart, LogProtocol.Payload(header, view))
      ensures Logging(disk, writes, ws, Holding(), 0)
    {
      hide Apply, Ok;
      ApplyNone(disk);
      assert ws[..0] == [];
    }

    lemma EndLogging(d: Disk, w: seq<Write>, ws: seq<Write>, holding: set<nat>)
      requires Logging(d, w, ws, holding, header.num)
      ensures Ok(0) && Holding() == holding && header.Fits() && |view| == sb.numBlocks
      ensures forall t :: 0 <= t < header.num ==> header.blockNo[t] < |view|
      ensures Wrote(d, w, LogWrites(sb.logStart, LogProtocol.Payload(header, view)))
    {
      hide Apply, Ok;
      assert ws[..header.num] == ws;
    }

    /** commit's first loop. */
    method LogGroup()
      requires RoomForLog() && Ok(0) && header.Fits() && |disk| == |view| == sb.numBlocks
      requires forall t :: 0 <= t < header.num ==>
        header.blockNo[t] < |view| && sb.Home(header.blockNo[t]) && header.blockNo[t] !in Holding()
      requires forall b :: sb.InLog(b) ==> b !in Holding()
      modifies `list, `disk, `writes, list
      ensures Ok(0) && Holding() == old(Holding())
      ensures Wrote(old(disk), old(writes), LogWrites(sb.logStart, LogProtocol.Payload(header, view)))
      ensures forall x :: x in list ==> x in old(list) || fresh(x)
    {
      hide Cached, Held, SlotsOf, Separate, Apply, Logging;
      ghost var ws := LogWrites(sb.logStart, LogProtocol.Payload(header, view));
      ghost var d, w, holding := disk, writes, Holding();
      StartLogging(ws);
      var t := 0;
      while t < header.num
        invariant 0 <= t <= header.num && Logging(d, w, ws, holding, t)
        invariant forall x :: x in list ==> x in old(list) || fresh(x)
      {
        assert forall i :: 0 <= i < |list| ==> list[i] in old(list) || fresh(list[i]);
        LogStep(t, d, w, ws, holding);
        t := t + 1;
      }
      EndLogging(d, w, ws, holding);
    }

    /** commit's second loop. */
    method InstallGroup()
      requires RoomForLog() && Ok(0) && header.Fits() && |disk| == |view| == sb.numBlocks
      requires forall t :: 0 <= t < header.num ==>
        header.blockNo[t] < |view| && sb.Home(header.blockNo[t]) && header.blockNo[t] !in Holding()
      requires Slots(disk, sb.logStart, header.num) == LogProtocol.Payload(header, view)
      requires forall b :: sb.InLog(b) ==> b !in Holding()
      modifies `list, `disk, `writes, list
      ensures Ok(header.num) && Holding() == old(Holding())
      ensures Wrote(old(disk), old(writes), HomeWrites(header, LogProtocol.Payload(header, view)))
      ensures forall x :: x in list ==> x in old(list) || fresh(x)
    {
      ApplyNone(disk);
      hide Cached, Held, SlotsOf, Separate, Apply, Slots;
      ghost var ws := HomeWrites(header, LogProtocol.Payload(header, view));
      ghost var d, w, holding := disk, writes, Holding();
      var t := 0;
      assert ws[..0] == [];
      while t < header.num
        invariant 0 <= t <= header.num
        invariant Ok(t) && Holding() == holding && |disk| == |view|
        invariant Slots(disk, sb.logStart, header.num) == LogProtocol.Payload(header, view)
        invariant Wrote(d, w, ws[..t])
        invariant forall x :: x in list ==> x in old(list) || fresh(x)
      {
        assert forall i :: 0 <= i < |list| ==> list[i] in old(list) || fresh(list[i]);
        SlotAt(disk, sb.logStart, header.num, t);
        ghost var was := disk;
        CopyHome(sb.logStart + 1 + t, header.blockNo[t], t);
        SlotsKept(was, sb.logStart, header.num, header.blockNo[t], view[header.blockNo[t]]);
        Extend(d, ws, t);
        t := t + 1;
      }
      assert ws[..header.num] == ws;
    }

    /** commit up to its commit point: log copies, then the header. */
    method SealGroup()
      requires RoomForLog() && Ok(0) && header.Fits() && |disk| == |view| == sb.numBlocks
      requires forall t :: 0 <= t < header.num ==>
        header.blockNo[t] < |view| && sb.Home(header.blockNo[t]) && header.blockNo[t] !in Holding()
      requires forall b :: sb.InLog(b) ==> b !in Holding()
      modifies `list, `disk, `writes, list
      ensures Ok(0) && Holding() == old(Holding())
      ensures Wrote(old(disk), old(writes),
        LogWrites(sb.logStart, LogProtocol.Payload(header, view)) + [Write(sb.logStart, HeaderBlock(header))])
      ensures Slots(disk, sb.logStart, header.num) == LogProtocol.Payload(header, view)
      ensures forall x :: x in list ==> x in old(list) || fresh(x)
    {
      hide Cached, Held, SlotsOf, Separate;
      ghost var d, data := disk, LogProtocol.Payload(header, view);
      LogGroup();
      LogCopied(d, sb.logStart, data);
      WriteHeader(0);
      AppendOne(d, LogWrites(sb.logStart, data), Write(sb.logStart, HeaderBlock(header)));
    }

    /** commit after its commit point: home copies, then the cleared header. */
    method Checkpoint()
      requires RoomForLog() && Ok(0) && header.Fits() && |disk| == |view| == sb.numBlocks
      requires forall t :: 0 <= t < header.num ==>
        header.blockNo[t] < |view| && sb.Home(header.blockNo[t]) && header.blockNo[t] !in Holding()
      requires Slots(disk, sb.logStart, header.num) == LogProtocol.Payload(header, view)
      requires forall b :: sb.InLog(b) ==> b !in Holding()
      modifies `list, `disk, `writes, `header, list
      ensures Ok(0) && Holding() == old(Holding())
      ensures header == Cleared(old(header))
      ensures Wrote(old(disk), old(writes),
        HomeWrites(old(header), LogProtocol.Payload(old(header), view)) + [Write(sb.logStart, HeaderBlock(header))])
      ensures forall x :: x in list ==> x in old(list) || fresh(x)
    {
      hide Cached, Held, SlotsOf, Separate;
      ghost var d, data := disk, LogProtocol.Payload(header, view);
      ghost var home := HomeWrites(header, data);
      InstallGroup();
      EmptyHeaderKeeps(Whole());
      header := header.(num := 0);
      WriteHeader(0);
      AppendOne(d, home, Write(sb.logStart, HeaderBlock(header)));
    }

    /** What the loops of commit rely on. */
    lemma ReadyToCommit()
      requires RoomForLog() && Ok(0) && Quiet() && LogProtocol.HeaderOk(sb, header, view)
      ensures header.Fits() && |disk| == |view| == sb.numBlocks
      ensures forall t :: 0 <= t < header.num ==>
        header.blockNo[t] < |view| && sb.Home(header.blockNo[t]) && header.blockNo[t] !in Holding()
      ensures forall b :: sb.InLog(b) ==> b !in Holding()
    {
      Facts(Whole(), 0);
      hide Cached, Held, SlotsOf, Separate;
    }

    /** commit: log copies, header, home copies, cleared header. */
    method Commit()
      requires RoomForLog() && Ok(0) && Quiet() && LogProtocol.HeaderOk(sb, header, view)
      modifies `list, `disk, `writes, `header, list
      ensures Ok(0) && Holding() == old(Holding())
      ensures header == Cleared(old(header))
      ensures Wrote(old(disk), old(writes),
        CommitWrites(sb.logStart, old(header), LogProtocol.Payload(old(header), view)))
      ensures forall x :: x in list ==> x in old(list) || fresh(x)
    {
      hide Cached, Held, SlotsOf, Separate, Apply, CommitWrites, LogWrites, HomeWrites, LogProtocol.Payload,
        HeaderBlock, Slots;
      ReadyToCommit();
      hide Quiet;
      ghost var d, w, h, data := disk, writes, header, LogProtocol.Payload(header, view);
      SealGroup();
      assert forall i :: 0 <= i < |list| ==> list[i] in old(list) || fresh(list[i]);
      Checkpoint();
      CommitInOrder(d, w, sb.logStart, h, data);
    }

    /** end_op. The last operation to end commits the group; waking the sleepers is not
        modelled. */
    method EndOp(ctx: OpContext)
      requires Valid() && Runs(ctx) && Quiet()
      modifies this, list
      ensures Valid() && Holding() == old(Holding())
      ensures var s := LogProtocol.DoEnd(old(Abs()), ctx.id);
        Abs() == if old(outstanding) == 1 then LogProtocol.Committed(sb, s) else s
      ensures writes == old(writes) + if old(outstanding) == 1
        then CommitWrites(sb.logStart, old(header), LogProtocol.Payload(old(header), old(view))) else []
    {
      hide LogProtocol.Inv, LogProtocol.Layout, Cached, Held, SlotsOf, Separate, Apply, CommitWrites, LogWrites,
        HomeWrites, LogProtocol.Payload, HeaderBlock, Slots;
      EndReady(sb, Abs(), ctx.id);
      outstanding := outstanding - 1;
      ops := ops - {ctx.id};
      if committing {
        assert false; // PANIC, unreachable
      }
      if outstanding == 0 {
        committing := true;
        base, boundaries := disk, boundaries + [view];
        Commit();
        committing := false;
      }
    }

    // ---------- boot ----------

    /** device_write of a held home block when nothing is pending. */
    method WriteReplayed(blk: CachedBlock, ghost k: nat)
      requires Ok(k) && blk in list && blk.acquired && blk.valid
      requires sb.Home(blk.blockNo) && |disk| == |view| == sb.numBlocks
      modifies `disk, `writes, `view
      ensures Ok(k) && Holding() == old(Holding())
      ensures disk == old(disk)[blk.blockNo := blk.data] && view == old(view)[blk.blockNo := blk.data]
      ensures writes == old(writes) + [Write(blk.blockNo, blk.data)]
    {
      ghost var p :| 0 <= p < |list| && list[p] == blk;
      ReplayKeeps(Whole(), k, p);
      hide Cached;
      disk := disk[blk.blockNo := blk.data];
      view := view[blk.blockNo := blk.data];
      writes := writes + [Write(blk.blockNo, blk.data)];
    }

    /** Body of recovery's loop: log slot `slot` to home block `b`. */
    method ReplayOne(slot: nat, b: nat, ghost k: nat)
      requires Ok(k) && slot < |disk| == |view| == sb.numBlocks && b < |view|
      requires sb.InLog(slot) && slot != sb.logStart && sb.InLog(sb.logStart) && sb.Home(b)
      requires slot !in Holding() && b !in Holding()
      modifies `list, `disk, `writes, `view, list
      ensures Ok(k) && Holding() == old(Holding())
      ensures disk == old(disk)[b := old(disk)[slot]] && view == old(view)[b := old(disk)[slot]]
      ensures writes == old(writes) + [Write(b, old(disk)[slot])]
      ensures forall x :: x in list ==> x in old(list) || fresh(x)
    {
      hide Cached, Held, SlotsOf, Separate;
      var from, to := AcquirePair(slot, b, k);
      Edit(to, from.data, k);
      WriteReplayed(to, k);
      ReleasePair(from, to, k);
    }

    /** The state inside recovery's loop: the first `t` of the writes `ws` are done. */
    ghost predicate Replaying(d: Disk, w: seq<Write>, ws: seq<Write>, data: seq<Block>, t: nat)
      reads `list, `disk, `writes, `view, `header, list
    {
      && RoomForLog() && Ok(header.num) && header.Fits() && Holding() == {} && |disk| == |view| == |d| == sb.numBlocks
      && Slots(disk, sb.logStart, header.num) == data && ws == HomeWrites(header, data)
      && t <= header.num && |ws| == header.num && Wrote(d, w, ws[..t])
      && forall u :: 0 <= u < header.num ==> header.blockNo[u] < |view| && sb.Home(header.blockNo[u])
    }

    /** One turn of recovery's loop. */
    method ReplayStep(t: nat, ghost d: Disk, ghost w: seq<Write>, ghost ws: seq<Write>, ghost data: seq<Block>)
      requires t < header.num && Replaying(d, w, ws, data, t)
      modifies `list, `disk, `writes, `view, list
      ensures Replaying(d, w, ws, data, t + 1)
      ensures forall x :: x in list ==> x in old(list) || fresh(x)
    {
      hide Cached, Held, SlotsOf, Separate, Apply, Slots;
      ghost var was := disk;
      SlotAt(disk, sb.logStart, header.num, t);
      ReplayOne(sb.logStart + 1 + t, header.blockNo[t], header.num);
      SlotsKept(was, sb.logStart, header.num, header.blockNo[t], was[sb.logStart + 1 + t]);
      Extend(d, ws, t);
    }

    /** recovery's loop. */
    method ReplayGroup()
      requires RoomForLog() && Ok(header.num) && header.Fits() && |disk| == |view| == sb.numBlocks
      requires forall t :: 0 <= t < header.num ==> header.blockNo[t] < |view| && sb.Home(header.blockNo[t])
      requires Holding() == {}
      modifies `list, `disk, `writes, `view, list
      ensures Ok(header.num) && Holding() == {} && |disk| == sb.numBlocks
      ensures Wrote(old(disk), old(writes), HomeWrites(header, Slots(old(disk), sb.logStart, header.num)))
    {
      hide Cached, Held, SlotsOf, Separate, Apply, Slots;
      ApplyNone(disk);
      ghost var data := Slots(disk, sb.logStart, header.num);
      ghost var ws := HomeWrites(header, data);
      ghost var d, w := disk, writes;
      var t := 0;
      assert ws[..0] == [];
      while t < header.num
        invariant 0 <= t && Replaying(d, w, ws, data, t)
        invariant forall x :: x in list ==> x in old(list) || fresh(x)
      {
        hide Replaying;
        assert forall i :: 0 <= i < |list| ==> list[i] in old(list) || fresh(list[i]);
        ReplayStep(t, d, w, ws, data);
        t := t + 1;
      }
      assert ws[..header.num] == ws;
    }

    /** recover_from_log. */
    method Recover()
      requires RoomForLog() && Ok(header.num) && header.Fits() && |disk| == |view| == sb.numBlocks
      requires forall t :: 0 <= t < header.num ==> header.blockNo[t] < |view| && sb.Home(header.blockNo[t])
      requires Holding() == {}
      modifies `list, `disk, `writes, `view, `header, list
      ensures Ok(0) && Holding() == {} && header == Cleared(old(header))
      ensures Wrote(old(disk), old(writes),
        HomeWrites(old(header), Slots(old(disk), sb.logStart, old(header.num))) +
        [Write(sb.logStart, HeaderBlock(header))])
    {
      hide Cached, Held, SlotsOf, Separate;
      ghost var ws := HomeWrites(header, Slots(disk, sb.logStart, header.num));
      ghost var d := disk;
      ReplayGroup();
      EmptyHeaderKeeps(Whole());
      header := header.(num := 0);
      WriteHeader(0);
      AppendOne(d, ws, Write(sb.logStart, HeaderBlock(header)));
    }

    /** The globals before init_bcache. */
    constructor (sblock: SuperBlock, device: Disk)
      ensures sb == sblock && disk == device && writes == [] && list == []
    {
      sb, disk, writes, view := sblock, device, [], device;
      ops, base, committing, outstanding := map[], device, false, 0;
      header, boundaries, list := LogHeader(0, []), [], [];
    }

    /** init_bcache: unused blocks, the header read from the device, and recovery. */
    method Init()
      requires LogProtocol.Layout(sb) && Readable(disk, sb) && list == []
      requires var h := ReadHeader(disk[sb.logStart]); Group(sb, h, Slots(disk, sb.logStart, h.num))
      modifies this
      ensures Valid() && Holding() == {}
      ensures writes == old(writes) + RecoverWrites(old(disk), sb)
      ensures disk == Reboot(old(disk), sb, []) && Clean(sb, disk) && Abs() == LogProtocol.Boot(sb, disk)
    {
      BootReady(sb, disk);
      hide Group, Readable, Clean, LogProtocol.Inv, LogProtocol.Layout, Reboot, Cached, Held, SlotsOf;
      Restart();
    }

    /** Loading and recovery. */
    method Restart()
      requires list == [] && RoomForLog() && |disk| == sb.numBlocks && ReadHeader(disk[sb.logStart]).Fits()
      requires var h := ReadHeader(disk[sb.logStart]);
        && (forall t :: 0 <= t < h.num ==> h.blockNo[t] < |disk| && sb.Home(h.blockNo[t]))
        && (forall t, u :: 0 <= t < u < h.num ==> h.blockNo[t] != h.blockNo[u])
      modifies this
      ensures Ok(0) && Holding() == {}
      ensures header == Cleared(ReadHeader(old(disk)[sb.logStart]))
      ensures var h := ReadHeader(old(disk)[sb.logStart]);
        Wrote(old(disk), old(writes), HomeWrites(h, Slots(old(disk), sb.logStart, h.num)) +
                                      [Write(sb.logStart, HeaderBlock(Cleared(h)))])
      ensures Abs() == LogProtocol.State(disk, disk, header, map[], 0, false, 0, disk, [disk], LogProtocol.Alive)
    {
      hide Cached, Held, SlotsOf, Separate, Slots, HomeWrites, HeaderBlock, ReadHeader, Apply;
      Load();
      Recover();
      Settle();
    }

    /** The logging state and the header, over an empty cache. */
    method Load()
      requires list == [] && sb.logStart < |disk| == sb.numBlocks && ReadHeader(disk[sb.logStart]).Fits()
      requires var h := ReadHeader(disk[sb.logStart]);
        forall t, u :: 0 <= t < u < h.num ==> h.blockNo[t] != h.blockNo[u]
      modifies `view, `committing, `outstanding, `ops, `header, `list
      ensures header == ReadHeader(disk[sb.logStart]) && view == disk && !committing && outstanding == 0 && ops == map[]
      ensures Ok(header.num) && Holding() == {}
      ensures forall i :: 0 <= i < |list| ==> fresh(list[i])
    {
      view := disk;
      committing, outstanding, ops := false, 0, map[];
      header := ReadHeader(disk[sb.logStart]);
      FillCache();
    }

    method FillCache()
      requires list == [] && header.Fits() && view == disk && |disk| == sb.numBlocks > 0
      requires forall t, u :: 0 <= t < u < header.num ==> header.blockNo[t] != header.blockNo[u]
      modifies `list
      ensures Ok(header.num) && Holding() == {}
      ensures forall i :: 0 <= i < |list| ==> fresh(list[i])
    {
      MakeBlocks();
      InitialCached(Whole());
    }

    /** The recovered device is the starting point of every later run. */
    ghost method Settle()
      requires Ok(0) && header.num == 0
      modifies `view, `base, `boundaries
      ensures Ok(0) && view == base == disk && boundaries == [disk]
    {
      QuietView(Whole());
      view, base, boundaries := disk, disk, [disk];
    }

    method MakeBlocks()
      requires list == []
      modifies `list
      ensures |list| == EVICTION_THRESHOLD && Separate(list)
      ensures forall i :: 0 <= i < |list| ==>
        fresh(list[i]) && list[i].Fields() == Slot(0, false, false, false, ZeroBlock())
    {
      var n := 0;
      while n < EVICTION_THRESHOLD
        invariant 0 <= n <= EVICTION_THRESHOLD && |list| == n && Separate(list)
        invariant forall i :: 0 <= i < |list| ==>
          fresh(list[i]) && list[i].Fields() == Slot(0, false, false, false, ZeroBlock())
      {
        var b := new CachedBlock();
        list := [b] + list;
        n := n + 1;
      }
    }
  }

  /** What end_op relies on, with and without a commit. */
  lemma EndReady(sb: SuperBlock, s: LogProtocol.State, id: nat)
    requires LogProtocol.Layout(sb) && LogProtocol.Inv(sb, s) && id in s.ops && s.halt.Alive? && s.phase == 0
      && !s.committing
    ensures LogProtocol.HeaderOk(sb, s.header, s.mem)
    ensures LOG_MAX_SIZE < sb.numLogBlocks && sb.logStart + sb.numLogBlocks <= sb.numBlocks
    ensures var r := LogProtocol.DoEnd(s, id);
      && LogProtocol.Inv(sb, r)
      && (r.committing ==> LogProtocol.Inv(sb, LogProtocol.Committed(sb, r)))
  {
    LogProtocol.EndKeeps(sb, s, id);
    var r := LogProtocol.DoEnd(s, id);
    if r.committing {
      LogProtocol.CommittedKeeps(sb, r);
    }
  }

  /** What boot relies on and reaches. */
  lemma {:induction false} BootReady(sb: SuperBlock, d: Disk)
    requires LogProtocol.Layout(sb) && Readable(d, sb)
    requires var h := ReadHeader(d[sb.logStart]); Group(sb, h, Slots(d, sb.logStart, h.num))
    ensures LOG_MAX_SIZE < sb.numLogBlocks && sb.logStart + sb.numLogBlocks <= sb.numBlocks == |d|
    ensures var h := ReadHeader(d[sb.logStart]);
      && h.Fits()
      && (forall t :: 0 <= t < h.num ==> h.blockNo[t] < |d| && sb.Home(h.blockNo[t]))
      && (forall t, u :: 0 <= t < u < h.num ==> h.blockNo[t] != h.blockNo[u])
      && RecoverWrites(d, sb) ==
         HomeWrites(h, Slots(d, sb.logStart, h.num)) + [Write(sb.logStart, HeaderBlock(Cleared(h)))]
      && Reboot(d, sb, []) == Apply(d, RecoverWrites(d, sb))
      && Clean(sb, Reboot(d, sb, []))
      && ReadHeader(Reboot(d, sb, [])[sb.logStart]) == Cleared(h)
    ensures LogProtocol.Inv(sb, LogProtocol.Boot(sb, Reboot(d, sb, [])))
  {
    var h := ReadHeader(d[sb.logStart]);
    var data := Slots(d, sb.logStart, h.num);
    RebootReplays(sb, d, h, data, d, []);
    AppendOne(d, HomeWrites(h, data), Write(sb.logStart, HeaderBlock(Cleared(h))));
    HeaderRoundTrip(Cleared(h));
  }

  /** What sync relies on and does: the header is searchable, a budget means room in it,
      and a new block is appended to it. */
  lemma {:induction false} SyncReady(sb: SuperBlock, s: LogProtocol.State, id: nat, b: nat, data: Block)
    requires LogProtocol.Layout(sb) && LogProtocol.Inv(sb, s) && id in s.ops && sb.Home(b)
    ensures LogProtocol.HeaderOk(sb, s.header, s.mem) && b < Power256(8) && |s.disk| == sb.numBlocks
    ensures s.ops[id] > 0 ==> s.header.num < LOG_MAX_SIZE
    ensures LogProtocol.FindLogged(s.header, b, 0) < s.header.num <==> !Unlogged(s.header, b)
    ensures Pending(s.header, b, 0) <==> !Unlogged(s.header, b)
    ensures var r := LogProtocol.DoSync(sb, s, id, b, data);
      r.halt.Alive? ==>
        && r.mem == s.mem[b := data] && r.disk == s.disk && r.committing == s.committing
        && r.header.Fits()
        && (Pending(s.header, b, 0) ==> r.header == s.header)
        && (!Pending(s.header, b, 0) ==> r.header == LogHeader(s.header.num + 1, s.header.blockNo[s.header.num := b]))
  {
    LogProtocol.TotalWithout(s.ops, id);
  }

  ghost function SlotsOf(list: seq<CachedBlock>): (s: seq<Slot>)
    reads list
    ensures |s| == |list|
    ensures forall i :: 0 <= i < |list| ==> s[i] == list[i].Fields()
  {
    seq(|list|, i requires 0 <= i < |list| reads list => list[i].Fields())
  }

  ghost predicate Separate(list: seq<CachedBlock>) {
    forall i, j :: 0 <= i < j < |list| ==> list[i] != list[j]
  }

  function AtHead(blk: CachedBlock, rest: seq<CachedBlock>): (list: seq<CachedBlock>)
    requires Separate(rest) && blk !in rest
    reads blk, rest
    ensures Separate(list) && list == [blk] + rest
    ensures SlotsOf(list) == [blk.Fields()] + SlotsOf(rest)
    ensures forall i :: 0 <= i < |rest| ==> rest[i] in list
    ensures forall i :: 0 <= i < |list| ==> list[i] == blk || list[i] in rest
  {
    assert forall i :: 0 < i < |rest| + 1 ==> ([blk] + rest)[i] == rest[i - 1] && rest[i - 1] in rest;
    [blk] + rest
  }

  function Detach(list: seq<CachedBlock>, p: nat): (rest: seq<CachedBlock>)
    requires p < |list| && Separate(list)
    ensures |rest| == |list| - 1
    ensures forall i :: 0 <= i < |rest| ==> rest[i] == list[if i < p then i else i + 1]
    ensures Separate(rest)
    ensures forall i :: 0 <= i < |rest| ==> rest[i] != list[p]
    ensures forall i :: 0 <= i < |list| && i != p ==> list[i] in rest
  {
    var rest := list[..p] + list[p + 1..];
    assert forall i :: 0 <= i < |list| && i != p ==> list[i] == rest[if i < p then i else i - 1];
    rest
  }
}
