/** Why the block at the tail of the cache's list is the one that was released longest ago
    (cache_acquire and cache_release of src/fs/cache.c). */
module LruOrder {
  import opened FsLayout
  import opened CacheSpec
  import opened BlockCaches

  /** What happens to the list: a block is released, and kept or freed, or a new one is added. */
  datatype Use<T> = Back(x: T, kept: bool) | Added(x: T)

  ghost predicate Distinct<T>(q: seq<T>) {
    forall i, j :: 0 <= i < j < |q| ==> q[i] != q[j]
  }

  function Minus<T(==)>(q: seq<T>, x: T): (r: seq<T>)
    ensures forall i :: 0 <= i < |r| ==> r[i] in q && r[i] != x
    ensures forall i :: 0 <= i < |q| && q[i] != x ==> q[i] in r
  {
    if q == [] then [] else
      assert forall i :: 0 < i < |q| ==> q[i] == q[1..][i - 1];
      if q[0] == x then Minus(q[1..], x) else [q[0]] + Minus(q[1..], x)
  }

  function Step<T(==)>(q: seq<T>, u: Use<T>): (r: seq<T>) {
    match u
    case Back(x, kept) => (if kept then [x] else []) + Minus(q, x)
    case Added(x) => q + [x]
  }

  function Listed<T(==)>(q: seq<T>, us: seq<Use<T>>): (r: seq<T>) {
    if us == [] then q else Step(Listed(q, us[..|us| - 1]), us[|us| - 1])
  }

  /** When `x` was released last; 0 is never. */
  function LastBack<T(==)>(us: seq<Use<T>>, x: T): (t: nat)
    ensures t <= |us|
  {
    if us == [] then 0
    else if us[|us| - 1].Back? && us[|us| - 1].x == x then |us|
    else LastBack(us[..|us| - 1], x)
  }

  /** Blocks that are added are new. */
  ghost predicate Proper<T>(q: seq<T>, us: seq<Use<T>>) {
    us == [] ||
    (var before, u := us[..|us| - 1], us[|us| - 1];
     && Proper(q, before)
     && (u.Added? ==> u.x !in Listed(q, before) && LastBack(before, u.x) == 0))
  }

  /** Of two blocks the one nearer to the head was released later, or both never. */
  ghost predicate ByAge<T>(q: seq<T>, us: seq<Use<T>>) {
    forall i, j :: 0 <= i < j < |q| ==>
      LastBack(us, q[i]) > LastBack(us, q[j]) || LastBack(us, q[i]) == LastBack(us, q[j]) == 0
  }

  lemma {:induction false} MinusOrder<T>(q: seq<T>, x: T, us: seq<Use<T>>)
    requires Distinct(q) && ByAge(q, us)
    ensures Distinct(Minus(q, x)) && ByAge(Minus(q, x), us)
  {
    if q != [] {
      var rest := q[1..];
      assert forall i :: 0 <= i < |rest| ==> rest[i] == q[i + 1];
      MinusOrder(rest, x, us);
      var r := Minus(rest, x);
      assert forall j :: 0 <= j < |r| ==> r[j] in rest;
      hide LastBack;
      assert forall y :: y in rest ==>
        y != q[0] && (LastBack(us, q[0]) > LastBack(us, y) || LastBack(us, q[0]) == LastBack(us, y) == 0);
      AheadOrder(r, q[0], us);
    }
  }

  /** What is as old as its place says may be put ahead of `r`. */
  lemma {:induction false} AheadOrder<T>(r: seq<T>, x: T, us: seq<Use<T>>)
    requires Distinct(r) && ByAge(r, us) && x !in r
    requires forall y :: y in r ==> LastBack(us, x) > LastBack(us, y) || LastBack(us, x) == LastBack(us, y) == 0
    ensures Distinct([x] + r) && ByAge([x] + r, us)
  {
    hide LastBack;
    var z := [x] + r;
    assert forall j :: 0 < j < |z| ==> z[j] == r[j - 1] && r[j - 1] in r;
  }

  /** A step that does not release `x` does not change when that was. */
  lemma SameAge<T>(us: seq<Use<T>>, u: Use<T>, x: T)
    requires us != [] && u == us[|us| - 1] && !(u.Back? && u.x == x)
    ensures LastBack(us, x) == LastBack(us[..|us| - 1], x)
  {
  }

  /** The same ages, the same order. */
  lemma {:induction false} AgesKept<T>(q: seq<T>, us: seq<Use<T>>, us': seq<Use<T>>)
    requires ByAge(q, us) && forall y :: y in q ==> LastBack(us', y) == LastBack(us, y)
    ensures ByAge(q, us')
  {
    hide LastBack;
    assert forall i :: 0 <= i < |q| ==> q[i] in q;
  }

  lemma {:induction false} BackOrder<T>(q: seq<T>, us: seq<Use<T>>, x: T, kept: bool)
    requires us != [] && Back(x, kept) == us[|us| - 1] && Distinct(q) && ByAge(q, us[..|us| - 1])
    ensures Distinct(Step(q, Back(x, kept))) && ByAge(Step(q, Back(x, kept)), us)
  {
    hide Distinct, ByAge, Minus;
    var before := us[..|us| - 1];
    MinusOrder(q, x, before);
    var r := Minus(q, x);
    assert LastBack(us, x) == |us|;
    forall y | y in r ensures LastBack(us, y) == LastBack(before, y) < |us| { SameAge(us, Back(x, kept), y); }
    hide LastBack;
    AgesKept(r, before, us);
    AheadOrder(r, x, us);
    assert [] + r == r;
  }

  lemma {:induction false} AddedOrder<T>(q: seq<T>, us: seq<Use<T>>, x: T)
    requires us != [] && Added(x) == us[|us| - 1] && Distinct(q) && ByAge(q, us[..|us| - 1])
    requires x !in q && LastBack(us[..|us| - 1], x) == 0
    ensures Distinct(q + [x]) && ByAge(q + [x], us)
  {
    forall y ensures LastBack(us, y) == LastBack(us[..|us| - 1], y) { SameAge(us, Added(x), y); }
    hide LastBack;
  }

  lemma {:induction false} StepOrder<T>(q: seq<T>, us: seq<Use<T>>, u: Use<T>)
    requires us != [] && u == us[|us| - 1] && Distinct(q) && ByAge(q, us[..|us| - 1])
    requires u.Added? ==> u.x !in q && LastBack(us[..|us| - 1], u.x) == 0
    ensures Distinct(Step(q, u)) && ByAge(Step(q, u), us)
  {
    hide Distinct, ByAge, LastBack;
    match u
    case Back(x, kept) => BackOrder(q, us, x, kept);
    case Added(x) => AddedOrder(q, us, x);
  }

  lemma {:induction false} AlwaysByAge<T>(q: seq<T>, us: seq<Use<T>>)
    requires Distinct(q) && Proper(q, us)
    ensures Distinct(Listed(q, us)) && ByAge(Listed(q, us), us)
  {
    if us != [] {
      AlwaysByAge(q, us[..|us| - 1]);
      hide Distinct, ByAge, Step;
      StepOrder(Listed(q, us[..|us| - 1]), us, us[|us| - 1]);
    }
  }

  // ---------- the cache ----------

  lemma {:induction false} MinusAt<T>(q: seq<T>, p: nat)
    requires Distinct(q) && p < |q|
    ensures Minus(q, q[p]) == q[..p] + q[p + 1..]
  {
    if p == 0 {
      MinusAbsent(q[1..], q[0]);
    } else {
      MinusAt(q[1..], p - 1);
      assert q[1..][p - 1] == q[p];
      assert q[..p] + q[p + 1..] == [q[0]] + (q[1..][..p - 1] + q[1..][p..]);
    }
  }

  lemma {:induction false} MinusAbsent<T>(q: seq<T>, x: T)
    requires x !in q
    ensures Minus(q, x) == q
  {
    if q != [] { MinusAbsent(q[1..], x); }
  }

  /** release is such a use of the list, and so is an acquire that adds a block. */
  lemma ReleaseIsUse(c: BlockCache, was: seq<CachedBlock>, blk: CachedBlock, pinned: bool, list: seq<CachedBlock>)
    requires Distinct(was) && c.Left(was, blk, pinned, list)
    ensures list == Step(was, Back(blk, pinned || |was| - 1 <= EVICTION_THRESHOLD))
  {
    var p: nat :| p < |was| && was[p] == blk && list == c.Moved(was, p, pinned);
    MinusAt(was, p);
  }

  /** Least recently used: after any run of releases and additions the block that acquire
      takes for an absent number was released before every other idle block, or never. */
  lemma {:induction false} TakesLeastRecentlyUsed(c: BlockCache, q: seq<CachedBlock>, us: seq<Use<CachedBlock>>,
      slots: seq<Slot>, b: nat, blk: CachedBlock, list: seq<CachedBlock>, j: nat)
    requires Distinct(q) && Proper(q, us) && c.Took(Listed(q, us), slots, b, blk, list) && Absent(slots, b)
    requires j < |slots| && Idle(slots[j])
    ensures |Listed(q, us)| == |slots| && list == Listed(q, us) && blk in list
    ensures var x := Listed(q, us)[j];
      x == blk || LastBack(us, blk) < LastBack(us, x) || LastBack(us, blk) == LastBack(us, x) == 0
  {
    AlwaysByAge(q, us);
    hide LastBack, Listed, Proper;
    var i: nat :| IsVictim(slots, i) && blk == Listed(q, us)[i];
  }
}
