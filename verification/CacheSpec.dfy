/** The list of cached blocks as a value, its invariant, and why acquire, release, sync
    and checkpointing keep it (src/fs/cache.c). */
module CacheSpec {
  import opened FsLayout
  import opened Journal

  /** The fields of a cached block. */
  datatype Slot = Slot(blockNo: nat, acquired: bool, pinned: bool, valid: bool, data: Block)

  /** The cache, head of the list first, with the device, the last synced contents of
      every home block and the in-memory log header. */
  datatype Image = Image(sb: SuperBlock, slots: seq<Slot>, disk: Disk, view: Disk, header: LogHeader)

  /** What a block should hold: the last synced contents, or the device's for the log. */
  function Expected(m: Image, b: nat): (r: Block)
    requires b < |m.disk| == |m.view|
  {
    if m.sb.InLog(b) then m.disk[b] else m.view[b]
  }

  /** Block `b` belongs to the part of the group that is not yet copied home. */
  ghost predicate Pending(h: LogHeader, b: nat, k: nat)
    requires h.Fits()
  {
    exists t :: k <= t < h.num && h.blockNo[t] == b
  }

  ghost predicate HasPinned(slots: seq<Slot>, b: nat) {
    exists i :: 0 <= i < |slots| && slots[i].blockNo == b && slots[i].pinned
  }

  /** Never used blocks are invalid, free and have number 0; valid numbers are unique and
      a valid block precedes the invalid ones of its number. */
  ghost predicate ListOk(sb: SuperBlock, slots: seq<Slot>) {
    && (forall i :: 0 <= i < |slots| ==> slots[i].blockNo < sb.numBlocks)
    && (forall i :: 0 <= i < |slots| && !slots[i].valid ==>
          slots[i].blockNo == 0 && !slots[i].acquired && !slots[i].pinned)
    && (forall i, j :: 0 <= i < j < |slots| && slots[i].blockNo == slots[j].blockNo ==> !slots[j].valid)
  }

  /** The list outgrows the threshold by more than one only while every block in it is
      held or pinned. */
  ghost predicate SizeOk(slots: seq<Slot>) {
    |slots| > EVICTION_THRESHOLD + 1 ==>
      forall i :: 0 <= i < |slots| ==> slots[i].acquired || slots[i].pinned
  }

  /** Free blocks hold what they should. The header's block is written around the cache
      and is exempt. */
  ghost predicate DataOk(m: Image)
    requires |m.disk| == |m.view| == m.sb.numBlocks && ListOk(m.sb, m.slots)
  {
    forall i :: 0 <= i < |m.slots| && m.slots[i].valid && !m.slots[i].acquired && m.slots[i].blockNo != m.sb.logStart
      ==> m.slots[i].data == Expected(m, m.slots[i].blockNo)
  }

  /** Pinned blocks are exactly the pending ones; all others are on the device. */
  ghost predicate PinsOk(m: Image, k: nat)
    requires m.header.Fits() && |m.disk| == |m.view| == m.sb.numBlocks
  {
    && (forall i :: 0 <= i < |m.slots| && m.slots[i].pinned ==> Pending(m.header, m.slots[i].blockNo, k))
    && (forall t :: k <= t < m.header.num ==> HasPinned(m.slots, m.header.blockNo[t]))
    && (forall b: nat :: m.sb.Home(b) && !Pending(m.header, b, k) ==> m.disk[b] == m.view[b])
    && (forall t :: k <= t < m.header.num ==> m.sb.Home(m.header.blockNo[t]))
    && (forall t, u :: 0 <= t < u < m.header.num ==> m.header.blockNo[t] != m.header.blockNo[u])
  }

  /** The invariant, with the first `k` logged blocks already copied home and unpinned. */
  ghost predicate Cached(m: Image, k: nat) {
    && m.header.Fits() && k <= m.header.num
    && |m.disk| == |m.view| == m.sb.numBlocks
    && ListOk(m.sb, m.slots) && SizeOk(m.slots) && DataOk(m) && PinsOk(m, k)
  }

  /** The numbers of the blocks that someone holds. */
  ghost function Held(slots: seq<Slot>): (r: set<nat>) {
    set i | 0 <= i < |slots| && slots[i].acquired :: slots[i].blockNo
  }

  lemma Facts(m: Image, k: nat)
    requires Cached(m, k)
    ensures m.header.Fits() && k <= m.header.num && |m.disk| == |m.view| == m.sb.numBlocks
    ensures forall t :: k <= t < m.header.num ==> m.sb.Home(m.header.blockNo[t])
    ensures forall t, u :: 0 <= t < u < m.header.num ==> m.header.blockNo[t] != m.header.blockNo[u]
  {
  }

  /** Only one valid block has a given number. */
  lemma OnlyOne(sb: SuperBlock, slots: seq<Slot>, p: nat, i: nat)
    requires ListOk(sb, slots) && p < |slots| && i < |slots| && i != p
    requires slots[p].valid && slots[i].valid
    ensures slots[i].blockNo != slots[p].blockNo
  {
  }

  // ---------- acquire ----------

  lemma HeldMore(slots: seq<Slot>, i: nat, s: Slot)
    requires i < |slots| && !slots[i].acquired && s.acquired
    ensures Held(slots[i := s]) == Held(slots) + {s.blockNo}
  {
    var slots' := slots[i := s];
    forall c: nat ensures c in Held(slots') <==> c in Held(slots) || c == s.blockNo {
      if c in Held(slots) {
        var j :| 0 <= j < |slots| && slots[j].acquired && slots[j].blockNo == c;
        assert slots'[j] == slots[j];
      }
      assert slots'[i].blockNo == s.blockNo;
    }
  }

  /** The block is in the list: the first one with its number is taken, and loaded if it
      was never used. */
  lemma HitKeeps(m: Image, k: nat, i: nat, data: Block)
    requires Cached(m, k) && i < |m.slots| && m.slots[i].blockNo !in Held(m.slots)
    requires forall j :: 0 <= j < i ==> m.slots[j].blockNo != m.slots[i].blockNo
    requires data == if m.slots[i].valid then m.slots[i].data else m.disk[m.slots[i].blockNo]
    ensures var slots' := m.slots[i := m.slots[i].(acquired := true, valid := true, data := data)];
      Cached(m.(slots := slots'), k) && Held(slots') == Held(m.slots) + {m.slots[i].blockNo}
    ensures m.slots[i].blockNo != m.sb.logStart ==> data == Expected(m, m.slots[i].blockNo)
  {
    var b := m.slots[i].blockNo;
    var m' := m.(slots := m.slots[i := m.slots[i].(acquired := true, valid := true, data := data)]);
    SamePins(m, m', k);
    HeldMore(m.slots, i, m'.slots[i]);
    if !m.slots[i].valid && m.sb.Home(b) {
      NotPendingUnlessCached(m, k, i);
    }
  }

  /** An invalid first match is not pending: a pinned block is valid and would come first. */
  lemma NotPendingUnlessCached(m: Image, k: nat, i: nat)
    requires Cached(m, k) && i < |m.slots| && !m.slots[i].valid
    requires forall j :: 0 <= j < i ==> m.slots[j].blockNo != m.slots[i].blockNo
    ensures !Pending(m.header, m.slots[i].blockNo, k)
  {
    assert Pending(m.header, m.slots[i].blockNo, k) ==> HasPinned(m.slots, m.slots[i].blockNo);
  }

  /** Numbers and pins of every slot kept in place keep the pins invariant. */
  lemma SamePins(m: Image, m': Image, k: nat)
    requires Cached(m, k) && m' == m.(slots := m'.slots) && |m'.slots| >= |m.slots|
    requires forall i :: 0 <= i < |m.slots| && m.slots[i].pinned ==> m'.slots[i].blockNo == m.slots[i].blockNo
    requires forall i :: 0 <= i < |m.slots| ==> m'.slots[i].pinned == m.slots[i].pinned
    requires forall i :: |m.slots| <= i < |m'.slots| ==> !m'.slots[i].pinned
    ensures PinsOk(m', k)
  {
    forall t | k <= t < m.header.num ensures HasPinned(m'.slots, m.header.blockNo[t]) {
      assert HasPinned(m.slots, m.header.blockNo[t]);
      var i :| 0 <= i < |m.slots| && m.slots[i].blockNo == m.header.blockNo[t] && m.slots[i].pinned;
      assert m'.slots[i].blockNo == m.header.blockNo[t] && m'.slots[i].pinned;
    }
  }

  /** A block outside the list is read from the device, which is up to date for it. */
  lemma AbsentIsOnDisk(m: Image, k: nat, b: nat)
    requires Cached(m, k) && b < m.sb.numBlocks
    requires forall i :: 0 <= i < |m.slots| ==> m.slots[i].blockNo != b
    ensures m.disk[b] == Expected(m, b)
  {
    assert Pending(m.header, b, k) ==> HasPinned(m.slots, b);
  }

  /** Reuse of a free, unpinned block. */
  lemma ReuseKeeps(m: Image, k: nat, i: nat, b: nat)
    requires Cached(m, k) && i < |m.slots| && b < m.sb.numBlocks
    requires !m.slots[i].acquired && !m.slots[i].pinned
    requires forall j :: 0 <= j < |m.slots| ==> m.slots[j].blockNo != b
    ensures var slots' := m.slots[i := Slot(b, true, false, true, m.disk[b])];
      Cached(m.(slots := slots'), k) && Held(slots') == Held(m.slots) + {b}
    ensures m.disk[b] == Expected(m, b)
  {
    AbsentIsOnDisk(m, k, b);
    SamePins(m, m.(slots := m.slots[i := Slot(b, true, false, true, m.disk[b])]), k);
    HeldMore(m.slots, i, Slot(b, true, false, true, m.disk[b]));
  }

  /** A new block, when every block of the list is held or pinned. */
  lemma GrowKeeps(m: Image, k: nat, b: nat)
    requires Cached(m, k) && b < m.sb.numBlocks
    requires forall j :: 0 <= j < |m.slots| ==> m.slots[j].blockNo != b
    requires forall j :: 0 <= j < |m.slots| ==> m.slots[j].acquired || m.slots[j].pinned
    ensures var slots' := m.slots + [Slot(b, true, false, true, m.disk[b])];
      Cached(m.(slots := slots'), k) && Held(slots') == Held(m.slots) + {b}
    ensures m.disk[b] == Expected(m, b)
  {
    AbsentIsOnDisk(m, k, b);
    var slots' := m.slots + [Slot(b, true, false, true, m.disk[b])];
    SamePins(m, m.(slots := slots'), k);
    forall c: nat ensures c in Held(slots') <==> c in Held(m.slots) || c == b {
      if c in Held(m.slots) {
        var j :| 0 <= j < |m.slots| && m.slots[j].acquired && m.slots[j].blockNo == c;
        assert slots'[j] == m.slots[j];
      }
      assert slots'[|m.slots|].blockNo == b;
    }
  }

  // ---------- release ----------

  function Without(slots: seq<Slot>, p: nat): (r: seq<Slot>)
    requires p < |slots|
    ensures |r| == |slots| - 1
    ensures forall i :: 0 <= i < |r| ==> r[i] == slots[if i < p then i else i + 1]
  {
    slots[..p] + slots[p + 1..]
  }

  /** Releasing slot `p` moves it to the front, or drops it if the list is long. */
  function Released(slots: seq<Slot>, p: nat): (r: seq<Slot>)
    requires p < |slots|
  {
    if !slots[p].pinned && |slots| - 1 > EVICTION_THRESHOLD then Without(slots, p)
    else [slots[p].(acquired := false)] + Without(slots, p)
  }

  // ---------- which block acquire takes ----------

  /** Block `i` is the one nearest to the head that has number `b`. */
  ghost predicate IsHit(slots: seq<Slot>, b: nat, i: nat) {
    i < |slots| && slots[i].blockNo == b && forall j :: 0 <= j < i ==> slots[j].blockNo != b
  }

  ghost predicate Absent(slots: seq<Slot>, b: nat) {
    forall j :: 0 <= j < |slots| ==> slots[j].blockNo != b
  }

  /** Nobody holds it and it is not pinned. */
  predicate Idle(x: Slot) { !x.acquired && !x.pinned }

  /** Block `i` is the idle one nearest to the tail. */
  ghost predicate IsVictim(slots: seq<Slot>, i: nat) {
    i < |slots| && Idle(slots[i]) && forall j :: i < j < |slots| ==> !Idle(slots[j])
  }

  lemma WithoutList(sb: SuperBlock, slots: seq<Slot>, p: nat)
    requires ListOk(sb, slots) && p < |slots| && slots[p].valid
    ensures ListOk(sb, Without(slots, p))
    ensures forall i :: 0 <= i < |slots| - 1 && Without(slots, p)[i].valid ==>
              Without(slots, p)[i].blockNo != slots[p].blockNo
  {
    var w := Without(slots, p);
    forall i, j | 0 <= i < j < |w| && w[i].blockNo == w[j].blockNo ensures !w[j].valid {
      var i', j' := if i < p then i else i + 1, if j < p then j else j + 1;
      assert slots[i'].blockNo == slots[j'].blockNo;
    }
    forall i | 0 <= i < |w| && w[i].valid ensures w[i].blockNo != slots[p].blockNo {
      OnlyOne(sb, slots, p, if i < p then i else i + 1);
    }
  }

  lemma ToFront(sb: SuperBlock, s: Slot, w: seq<Slot>)
    requires ListOk(sb, w) && s.valid && s.blockNo < sb.numBlocks
    requires forall i :: 0 <= i < |w| && w[i].valid ==> w[i].blockNo != s.blockNo
    ensures ListOk(sb, [s] + w)
  {
    var r := [s] + w;
    forall i | 0 < i < |r| ensures r[i] == w[i - 1] { }
  }

  lemma WithoutPins(slots: seq<Slot>, p: nat, b: nat)
    requires p < |slots| && HasPinned(slots, b)
    ensures HasPinned(Without(slots, p), b) || (slots[p].blockNo == b && slots[p].pinned)
  {
    var i :| 0 <= i < |slots| && slots[i].blockNo == b && slots[i].pinned;
    if i != p {
      var j := if i < p then i else i - 1;
      assert Without(slots, p)[j].blockNo == b && Without(slots, p)[j].pinned;
    }
  }

  lemma HeldWithout(sb: SuperBlock, slots: seq<Slot>, p: nat)
    requires ListOk(sb, slots) && p < |slots| && slots[p].valid
    ensures Held(Without(slots, p)) == Held(slots) - {slots[p].blockNo}
  {
    var w := Without(slots, p);
    WithoutList(sb, slots, p);
    forall c: nat | c in Held(slots) && c != slots[p].blockNo ensures c in Held(w) {
      var j :| 0 <= j < |slots| && slots[j].acquired && slots[j].blockNo == c;
      assert w[if j < p then j else j - 1] == slots[j];
    }
    forall c: nat | c in Held(w) ensures c in Held(slots) && c != slots[p].blockNo {
      var j :| 0 <= j < |w| && w[j].acquired && w[j].blockNo == c;
      assert w[j] == slots[if j < p then j else j + 1] && w[j].valid;
    }
  }

  lemma HeldFront(s: Slot, w: seq<Slot>)
    requires !s.acquired
    ensures Held([s] + w) == Held(w)
  {
    forall c: nat | c in Held(w) ensures c in Held([s] + w) {
      var j :| 0 <= j < |w| && w[j].acquired && w[j].blockNo == c;
      assert ([s] + w)[j + 1] == w[j];
    }
  }

  lemma DropKeeps(m: Image, k: nat, p: nat)
    requires Cached(m, k) && p < |m.slots| && m.slots[p].valid && !m.slots[p].pinned
    ensures Cached(m.(slots := Without(m.slots, p)), k)
  {
    WithoutList(m.sb, m.slots, p);
    forall t | k <= t < m.header.num ensures HasPinned(Without(m.slots, p), m.header.blockNo[t]) {
      WithoutPins(m.slots, p, m.header.blockNo[t]);
    }
  }

  lemma FrontKeeps(m: Image, k: nat, p: nat)
    requires Cached(m, k) && p < |m.slots| && m.slots[p].valid
    requires m.slots[p].blockNo != m.sb.logStart ==> m.slots[p].data == Expected(m, m.slots[p].blockNo)
    requires m.slots[p].pinned || |m.slots| - 1 <= EVICTION_THRESHOLD
    ensures Cached(m.(slots := [m.slots[p].(acquired := false)] + Without(m.slots, p)), k)
  {
    var s, w := m.slots[p].(acquired := false), Without(m.slots, p);
    var r := [s] + w;
    WithoutList(m.sb, m.slots, p);
    ToFront(m.sb, s, w);
    FrontPins(m, k, p);
    forall i | 0 < i < |r| ensures r[i] == m.slots[if i <= p then i - 1 else i] { }
  }

  lemma FrontPins(m: Image, k: nat, p: nat)
    requires Cached(m, k) && p < |m.slots|
    ensures PinsOk(m.(slots := [m.slots[p].(acquired := false)] + Without(m.slots, p)), k)
  {
    hide ListOk, SizeOk, DataOk;
    var s, w := m.slots[p].(acquired := false), Without(m.slots, p);
    var r := [s] + w;
    forall t | k <= t < m.header.num ensures HasPinned(r, m.header.blockNo[t]) {
      FrontPin(m.slots, p, s, m.header.blockNo[t]);
    }
    hide HasPinned;
    assert forall i :: 0 <= i < |w| ==> w[i] == m.slots[if i < p then i else i + 1];
    assert forall i :: 0 < i < |r| ==> r[i] == w[i - 1];
    assert r[0].pinned ==> Pending(m.header, r[0].blockNo, k);
  }

  lemma FrontPin(slots: seq<Slot>, p: nat, s: Slot, b: nat)
    requires p < |slots| && HasPinned(slots, b) && s == slots[p].(acquired := false)
    ensures HasPinned([s] + Without(slots, p), b)
  {
    WithoutPins(slots, p, b);
    var w := Without(slots, p);
    var r := [s] + w;
    if HasPinned(w, b) {
      var j :| 0 <= j < |w| && w[j].blockNo == b && w[j].pinned;
      assert r[j + 1] == w[j];
    } else {
      assert r[0].blockNo == b && r[0].pinned;
    }
  }

  lemma {:induction false} ReleaseKeeps(m: Image, k: nat, p: nat)
    requires Cached(m, k) && p < |m.slots| && m.slots[p].valid
    requires m.slots[p].blockNo != m.sb.logStart ==> m.slots[p].data == Expected(m, m.slots[p].blockNo)
    ensures Cached(m.(slots := Released(m.slots, p)), k)
    ensures Held(Released(m.slots, p)) == Held(m.slots) - {m.slots[p].blockNo}
  {
    HeldWithout(m.sb, m.slots, p);
    HeldFront(m.slots[p].(acquired := false), Without(m.slots, p));
    if !m.slots[p].pinned && |m.slots| - 1 > EVICTION_THRESHOLD {
      DropKeeps(m, k, p);
    } else {
      FrontKeeps(m, k, p);
    }
  }

  // ---------- the holder's writes ----------

  /** The holder of a block may put anything into it. */
  lemma EditKeeps(m: Image, k: nat, p: nat, data: Block)
    requires Cached(m, k) && p < |m.slots| && m.slots[p].acquired
    ensures var slots' := m.slots[p := m.slots[p].(data := data)];
      Cached(m.(slots := slots'), k) && Held(slots') == Held(m.slots)
  {
    SamePins(m, m.(slots := m.slots[p := m.slots[p].(data := data)]), k);
    SameHeld(m.slots, p, m.slots[p].(data := data));
  }

  lemma SameHeld(slots: seq<Slot>, p: nat, s: Slot)
    requires p < |slots| && s.acquired == slots[p].acquired && s.blockNo == slots[p].blockNo
    ensures Held(slots[p := s]) == Held(slots)
  {
    var slots' := slots[p := s];
    forall c: nat | c in Held(slots) ensures c in Held(slots') {
      var j :| 0 <= j < |slots| && slots[j].acquired && slots[j].blockNo == c;
      assert slots'[j].blockNo == c;
    }
  }

  /** sync: the held block becomes the last synced contents and joins the group. */
  lemma SyncKeeps(m: Image, p: nat, h: LogHeader)
    requires Cached(m, 0) && p < |m.slots| && m.slots[p].acquired && m.slots[p].valid
    requires m.sb.Home(m.slots[p].blockNo) && h.Fits()
    requires if Pending(m.header, m.slots[p].blockNo, 0) then h == m.header
             else m.header.num < LOG_MAX_SIZE &&
                  h == LogHeader(m.header.num + 1, m.header.blockNo[m.header.num := m.slots[p].blockNo])
    ensures Cached(Image(m.sb, m.slots[p := m.slots[p].(pinned := true)], m.disk,
                         m.view[m.slots[p].blockNo := m.slots[p].data], h), 0)
  {
    var b := m.slots[p].blockNo;
    var m' := Image(m.sb, m.slots[p := m.slots[p].(pinned := true)], m.disk, m.view[b := m.slots[p].data], h);
    forall i | 0 <= i < |m.slots| && i != p && m.slots[i].valid ensures m.slots[i].blockNo != b {
      OnlyOne(m.sb, m.slots, p, i);
    }
    SyncPending(m.header, h, b);
    hide Pending;
    forall t | 0 <= t < h.num ensures HasPinned(m'.slots, h.blockNo[t]) {
      if t < m.header.num {
        assert HasPinned(m.slots, m.header.blockNo[t]);
        var i :| 0 <= i < |m.slots| && m.slots[i].blockNo == m.header.blockNo[t] && m.slots[i].pinned;
        assert m'.slots[i].blockNo == h.blockNo[t] && m'.slots[i].pinned;
      } else {
        assert m'.slots[p].blockNo == b && m'.slots[p].pinned;
      }
    }
  }

  /** The header after block `b` was recorded, unless it was there. */
  lemma SyncPending(was: LogHeader, h: LogHeader, b: nat)
    requires was.Fits() && h.Fits()
    requires if Pending(was, b, 0) then h == was
             else was.num < LOG_MAX_SIZE && h == LogHeader(was.num + 1, was.blockNo[was.num := b])
    ensures forall c: nat :: Pending(h, c, 0) <==> Pending(was, c, 0) || c == b
  {
    forall c: nat ensures Pending(h, c, 0) <==> Pending(was, c, 0) || c == b {
      if Pending(was, c, 0) {
        var t :| 0 <= t < was.num && was.blockNo[t] == c;
        assert h.blockNo[t] == c;
      }
      if c == b && h != was {
        assert h.blockNo[was.num] == b;
      }
    }
  }

  /** Writing a held home block to the device around the log. */
  lemma UnloggedKeeps(m: Image, p: nat)
    requires Cached(m, 0) && p < |m.slots| && m.slots[p].acquired && m.slots[p].valid && m.sb.Home(m.slots[p].blockNo)
    ensures var b, data := m.slots[p].blockNo, m.slots[p].data;
      Cached(m.(disk := m.disk[b := data], view := m.view[b := data]), 0)
  {
    var b := m.slots[p].blockNo;
    forall i | 0 <= i < |m.slots| && i != p && m.slots[i].valid ensures m.slots[i].blockNo != b {
      OnlyOne(m.sb, m.slots, p, i);
    }
  }

  /** Writing a held log slot to the device. */
  lemma LogWriteKeeps(m: Image, k: nat, p: nat)
    requires Cached(m, k) && p < |m.slots| && m.slots[p].valid && m.sb.InLog(m.slots[p].blockNo)
    ensures Cached(m.(disk := m.disk[m.slots[p].blockNo := m.slots[p].data]), k)
  {
    var b := m.slots[p].blockNo;
    forall i | 0 <= i < |m.slots| && i != p && m.slots[i].valid ensures m.slots[i].blockNo != b {
      OnlyOne(m.sb, m.slots, p, i);
    }
  }

  /** Writing the header's own block around the cache. */
  lemma HeaderWriteKeeps(m: Image, k: nat, s: Block)
    requires Cached(m, k) && m.sb.InLog(m.sb.logStart) && m.sb.logStart < m.sb.numBlocks
    ensures Cached(m.(disk := m.disk[m.sb.logStart := s]), k)
  {
  }

  /** Writing a held home block to the device: logged block `k` of a checkpoint, which is
      then unpinned, or any block of a recovery. */
  lemma HomeWriteKeeps(m: Image, k: nat, p: nat)
    requires Cached(m, k) && k < m.header.num && p < |m.slots| && m.slots[p].valid && m.slots[p].acquired
    requires m.slots[p].blockNo == m.header.blockNo[k] && m.slots[p].data == m.view[m.header.blockNo[k]]
    ensures var b := m.header.blockNo[k];
      && Cached(m.(disk := m.disk[b := m.slots[p].data], slots := m.slots[p := m.slots[p].(pinned := false)]), k + 1)
      && Held(m.slots[p := m.slots[p].(pinned := false)]) == Held(m.slots)
  {
    SameHeld(m.slots, p, m.slots[p].(pinned := false));
    var b := m.header.blockNo[k];
    var m' := m.(disk := m.disk[b := m.slots[p].data], slots := m.slots[p := m.slots[p].(pinned := false)]);
    PendingNext(m.header, k);
    forall i | 0 <= i < |m.slots| && i != p && m.slots[i].valid ensures m.slots[i].blockNo != b {
      OnlyOne(m.sb, m.slots, p, i);
    }
    assert forall t :: k + 1 <= t < m.header.num ==> m.header.blockNo[t] != b;
    assert !Pending(m.header, b, k + 1);
    hide Pending;
    forall t | k + 1 <= t < m.header.num ensures HasPinned(m'.slots, m.header.blockNo[t]) {
      assert HasPinned(m.slots, m.header.blockNo[t]);
      var i :| 0 <= i < |m.slots| && m.slots[i].blockNo == m.header.blockNo[t] && m.slots[i].pinned;
      assert m'.slots[i].blockNo == m.header.blockNo[t] && m'.slots[i].pinned;
    }
  }

  lemma PendingNext(h: LogHeader, k: nat)
    requires h.Fits() && k < h.num
    ensures forall c: nat :: Pending(h, c, k) <==> Pending(h, c, k + 1) || c == h.blockNo[k]
  {
    forall c: nat ensures Pending(h, c, k) <==> Pending(h, c, k + 1) || c == h.blockNo[k] {
      if Pending(h, c, k) {
        var t :| k <= t < h.num && h.blockNo[t] == c;
      }
    }
  }

  /** Writing a held home block during recovery, when nothing is pending. */
  lemma ReplayKeeps(m: Image, k: nat, p: nat)
    requires Cached(m, k) && p < |m.slots| && m.slots[p].valid && m.slots[p].acquired
    requires m.sb.Home(m.slots[p].blockNo)
    ensures var b := m.slots[p].blockNo;
      Cached(m.(disk := m.disk[b := m.slots[p].data], view := m.view[b := m.slots[p].data]), k)
  {
    var b := m.slots[p].blockNo;
    forall i | 0 <= i < |m.slots| && i != p && m.slots[i].valid ensures m.slots[i].blockNo != b {
      OnlyOne(m.sb, m.slots, p, i);
    }
  }

  /** With everything copied home the header can be emptied. */
  lemma EmptyHeaderKeeps(m: Image)
    requires Cached(m, m.header.num)
    ensures Cached(m.(header := Cleared(m.header)), 0)
  {
    forall b: nat ensures !Pending(m.header, b, m.header.num) && !Pending(Cleared(m.header), b, 0) { }
  }

  /** init_bcache: unused blocks over a device that nobody has touched. */
  lemma InitialCached(m: Image)
    requires m.header.Fits() && m.view == m.disk && |m.disk| == m.sb.numBlocks > 0
    requires |m.slots| <= EVICTION_THRESHOLD
    requires forall i :: 0 <= i < |m.slots| ==> m.slots[i] == Slot(0, false, false, false, ZeroBlock())
    requires forall t, u :: 0 <= t < u < m.header.num ==> m.header.blockNo[t] != m.header.blockNo[u]
    ensures Cached(m, m.header.num) && Held(m.slots) == {}
  {
  }

  /** With nothing pending, the device is the last synced contents. */
  lemma QuietView(m: Image)
    requires Cached(m, 0) && m.header.num == 0
    ensures Cached(m.(view := m.disk), 0)
  {
    forall b: nat | m.sb.Home(b) ensures m.disk[b] == m.view[b] {
      assert !Pending(m.header, b, 0);
    }
  }
}
