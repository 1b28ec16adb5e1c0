/** Accounts of a semaphore over a whole run: what was posted, what waits and gets were
    granted, and what is left (src/common/sem.c). Everything is counted from the steps and
    from what the calls return, not from the value. */
module SemCounts {
  import opened SleepWake

  // ---------- what one step adds to the accounts ----------

  /** One ++val of _post_sem. */
  function Posted(s: State, a: Act, x: nat): (n: nat) {
    var l := s.Pc(s.Cur(a.c));
    if a.c < s.ncpu && a.PostInc? && l.PostLocked? && l.sem == x then 1 else 0
  }

  /** A wait on `x` that returns true; `r` is the state after the step. */
  function Granted(s: State, a: Act, r: State, x: nat): (n: nat) {
    var p := s.Cur(a.c);
    var l := s.Pc(p);
    if a.c < s.ncpu && ((a.WaitDec? && l.WaitLocked?) || (a.WaitFinish? && l.WaitCheck?)) && l.sem == x
      && r.Pc(p) == Outside && r.Res(p).Waited? && r.Res(p).ok
    then 1 else 0
  }

  /** What get_sem and get_all_sem return: true counts as one. */
  function Got(s: State, a: Act, x: nat): (n: nat) {
    if a.c >= s.ncpu || s.Pc(s.Cur(a.c)) != Outside || x in s.semLock || s.Val(x) <= 0 then 0
    else if a.TryGet? && a.x == x then 1
    else if a.DrainAll? && a.x == x then s.Val(x)
    else 0
  }

  /** The unit that post_all_sem takes back when it returns. */
  function TakenBack(s: State, a: Act, r: State, x: nat): (n: nat) {
    var p := s.Cur(a.c);
    var l := s.Pc(p);
    if a.c < s.ncpu && a.PostNext? && l.PostAfter? && l.job.All? && l.sem == x && r.Pc(p) == Outside then 1 else 0
  }

  /** Posted, and not back from the wait yet. */
  function OnTheWay(s: State, x: nat): (w: set<Proc>) {
    set p | p in s.up && InWait(s.Pc(p)) && s.Pc(p).sem == x
  }

  /** What the semaphore has: its value, a sleeper owing one unit being counted as none. */
  function Units(s: State, x: nat): (n: int) {
    s.Val(x) + |s.List(x)|
  }

  // ---------- every step balances ----------

  ghost predicate Balanced(s: State, a: Act, r: State, x: nat) {
    Units(r, x) + |OnTheWay(r, x)| + Granted(s, a, r, x) + Got(s, a, x) + TakenBack(s, a, r, x)
    == Units(s, x) + |OnTheWay(s, x)| + Posted(s, a, x)
  }

  /** Steps that touch neither values nor lists nor `up`, and end no wait. */
  ghost predicate Quiet(s: State, s': State) {
    && s'.val == s.val && s'.list == s.list && s'.up == s.up
    && forall p :: p in s.up ==> SameWait(s.Pc(p), s'.Pc(p))
  }

  lemma QuietUnits(s: State, s': State, x: nat)
    requires Quiet(s, s')
    ensures Units(s', x) == Units(s, x) && OnTheWay(s', x) == OnTheWay(s, x)
  {
  }

  predicate MovesUnits(a: Act) {
    a.WaitDec? || a.WaitFinish? || a.PostInc? || a.PostNext? || a.TryGet? || a.DrainAll?
  }

  lemma SwitchQuiet(s: State, c: nat, new_: ProcState, l: Pc)
    requires SameWait(s.Pc(s.Cur(c)), l)
    ensures Quiet(s, Switch(s, c, s.Cur(c), new_, l))
  {
    hide PickNext, Without;
  }

  /** The current process only moves to another place. */
  lemma PlaceQuiet(s: State, s': State, p: Proc, l: Pc)
    requires s'.val == s.val && s'.list == s.list && s'.up == s.up
    requires s'.pc == s.pc || (s'.pc == s.pc[p := l] && SameWait(s.Pc(p), l))
    ensures Quiet(s, s')
  {
  }

  lemma WaitEnterQuiet(s: State, c: nat, x: nat, alert: bool)
    ensures Quiet(s, DoWaitEnter(s, c, x, alert))
  {
    hide Quiet;
    var p := s.Cur(c);
    var l := s.Pc(p);
    PlaceQuiet(s, DoWaitEnter(s, c, x, alert), p, WaitLocked(x, alert));
  }

  lemma PostEnterQuiet(s: State, c: nat, x: nat, all: bool)
    ensures Quiet(s, DoPostEnter(s, c, x, all))
  {
    hide Quiet;
    var p := s.Cur(c);
    var l := s.Pc(p);
    PlaceQuiet(s, DoPostEnter(s, c, x, all), p, PostLocked(x, if all then All(-1, s.Val(x), s.List(x)) else One));
  }

  lemma YieldEnterQuiet(s: State, c: nat)
    ensures Quiet(s, DoYieldEnter(s, c))
  {
    hide Quiet;
    var p := s.Cur(c);
    var l := s.Pc(p);
    PlaceQuiet(s, DoYieldEnter(s, c), p, YieldHeld);
  }

  lemma ExitEnterQuiet(s: State, c: nat)
    ensures Quiet(s, DoExitEnter(s, c))
  {
    hide Quiet;
    var p := s.Cur(c);
    var l := s.Pc(p);
    PlaceQuiet(s, DoExitEnter(s, c), p, ExitHeld);
  }

  lemma TakeRunQuiet(s: State, c: nat)
    ensures Quiet(s, DoWaitTakeRun(s, c))
  {
    hide Quiet;
    var p := s.Cur(c);
    var l := s.Pc(p);
    PlaceQuiet(s, DoWaitTakeRun(s, c), p, if l.WaitListed? then WaitBoth(l.sem, l.alert) else l);
  }

  lemma DropSemQuiet(s: State, c: nat)
    ensures Quiet(s, DoWaitDropSem(s, c))
  {
    hide Quiet;
    var p := s.Cur(c);
    var l := s.Pc(p);
    PlaceQuiet(s, DoWaitDropSem(s, c), p, if l.WaitBoth? then WaitSched(l.sem, l.alert) else l);
  }

  lemma RelockQuiet(s: State, c: nat)
    ensures Quiet(s, DoWaitRelock(s, c))
  {
    hide Quiet;
    var p := s.Cur(c);
    var l := s.Pc(p);
    PlaceQuiet(s, DoWaitRelock(s, c), p, if l.WaitWoken? then WaitCheck(l.sem, l.alert) else l);
  }

  /** Where a process goes on that was switched in. */
  function BackAt(l: Pc): (l': Pc) {
    if l.WaitSwitched? then WaitWoken(l.sem, l.alert) else Outside
  }

  lemma ResumeFields(s: State, c: nat)
    ensures var r, l := DoResume(s, c), s.Pc(s.Cur(c));
      r == if s.runLock == Some(c) && (l.WaitSwitched? || l.Switched? || l.Fresh?)
           then s.(runLock := None, pc := s.pc[s.Cur(c) := BackAt(l)]) else s
  {
  }

  lemma ResumeQuiet(s: State, c: nat)
    ensures Quiet(s, DoResume(s, c))
  {
    hide Quiet, DoResume, BackAt, SameWait;
    var l := s.Pc(s.Cur(c));
    ResumeFields(s, c);
    assert l.WaitSwitched? || l.Switched? || l.Fresh? ==> SameWait(l, BackAt(l)) by { BackIsSame(l); }
    PlaceQuiet(s, DoResume(s, c), s.Cur(c), BackAt(l));
  }

  lemma BackIsSame(l: Pc)
    ensures l.WaitSwitched? || l.Switched? || l.Fresh? ==> SameWait(l, BackAt(l))
  {
  }

  lemma ActivateQuiet(s: State, c: nat)
    ensures Quiet(s, DoPostActivate(s, c))
  {
    hide Quiet;
    var p := s.Cur(c);
    var l := s.Pc(p);
    PlaceQuiet(s, DoPostActivate(s, c), p, if l.PostWake? then PostAfter(l.sem, l.job) else l);
  }

  lemma SwitchesQuiet(s: State, c: nat)
    ensures Quiet(s, DoWaitSleep(s, c)) && Quiet(s, DoYieldSwitch(s, c)) && Quiet(s, DoExitSwitch(s, c))
  {
    hide Quiet, Switch;
    var l := s.Pc(s.Cur(c));
    PlaceQuiet(s, s, s.Cur(c), l);
    if l.WaitSched? {
      SwitchQuiet(s, c, if l.alert then Sleeping else DeepSleeping, WaitSwitched(l.sem, l.alert));
    } else if l.YieldHeld? {
      SwitchQuiet(s, c, Runnable, Switched);
    } else if l.ExitHeld? {
      SwitchQuiet(s, c, Zombie, Dead);
    }
  }

  lemma WakesQuiet(s: State, c: nat, target: Proc)
    ensures Quiet(s, DoAlert(s, c, target)) && Quiet(s, DoStart(s, c, target))
  {
    var s1 := Activate(s, target, true);
    var s2 := Activate(s, target, false);
    assert Quiet(s, s1) && Quiet(s, s2) && Quiet(s, s);
    hide Quiet, Activate;
  }

  lemma OthersQuiet(s: State, a: Act)
    requires !MovesUnits(a)
    ensures Quiet(s, Do(s, a))
  {
    hide Quiet, DoWaitEnter, DoPostEnter, DoYieldEnter, DoExitEnter, DoWaitTakeRun, DoWaitDropSem, DoWaitRelock,
      DoResume, DoPostActivate, DoWaitSleep, DoYieldSwitch, DoExitSwitch, DoAlert, DoStart;
    PlaceQuiet(s, s, s.Cur(a.c), Outside);
    match a
    case WaitEnter(c, x, alert) => WaitEnterQuiet(s, c, x, alert);
    case PostEnter(c, x, all) => PostEnterQuiet(s, c, x, all);
    case YieldEnter(c) => YieldEnterQuiet(s, c);
    case ExitEnter(c) => ExitEnterQuiet(s, c);
    case WaitTakeRun(c) => TakeRunQuiet(s, c);
    case WaitDropSem(c) => DropSemQuiet(s, c);
    case WaitRelock(c) => RelockQuiet(s, c);
    case Resume(c) => ResumeQuiet(s, c);
    case PostActivate(c) => ActivateQuiet(s, c);
    case WaitSleep(c) => SwitchesQuiet(s, c);
    case YieldSwitch(c) => SwitchesQuiet(s, c);
    case ExitSwitch(c) => SwitchesQuiet(s, c);
    case Alert(c, target) => WakesQuiet(s, c, target);
    case Start(c, target) => WakesQuiet(s, c, target);
  }

  lemma QuietBalances(s: State, a: Act, r: State, x: nat)
    requires Quiet(s, r) && !MovesUnits(a)
    ensures Balanced(s, a, r, x)
  {
    QuietUnits(s, r, x);
  }

  // ---------- the steps that move units ----------

  lemma NothingBalances(s: State, a: Act, x: nat)
    requires Granted(s, a, s, x) == Got(s, a, x) == TakenBack(s, a, s, x) == Posted(s, a, x) == 0
    ensures Balanced(s, a, s, x)
  {
  }

  /** The current process, which is not on its way back, moves; `up` stays. */
  lemma SameOnTheWay(s: State, r: State, p: Proc, l: Pc, x: nat)
    requires r.up == s.up && p !in s.up && r.pc == s.pc[p := l]
    ensures OnTheWay(r, x) == OnTheWay(s, x)
  {
    assert forall q :: q in s.up ==> r.Pc(q) == s.Pc(q);
  }

  lemma NotUp(s: State, p: Proc)
    requires ListsOk(s) && !MayBeUp(s.Pc(p))
    ensures p !in s.up
  {
  }

  lemma Awaited(s: State, p: Proc, y: nat)
    requires ListsOk(s) && InWait(s.Pc(p)) && s.Pc(p).sem == y && p !in s.up
    ensures p in s.List(y) && NoDup(s.List(y))
  {
  }

  /** The waiter that a post picks. */
  lemma PickedIs(s: State, p: Proc, y: nat)
    requires ListsOk(s) && s.Val(y) < 0 && !InWait(s.Pc(p))
    ensures s.List(y) != []
    ensures var t := s.List(y)[|s.List(y)| - 1]; t != p && t !in s.up && InWait(s.Pc(t)) && s.Pc(t).sem == y
  {
    var t := s.List(y)[|s.List(y)| - 1];
    assert t in s.List(y);
  }

  lemma ValueMoves(s: State, r: State, y: nat, v: int, x: nat)
    requires r.val == s.val[y := v] && r.list == s.list
    ensures Units(r, x) == Units(s, x) + if x == y then v - s.Val(y) else 0
  {
  }

  lemma BothMove(s: State, r: State, y: nat, v: int, z: seq<Proc>, x: nat)
    requires r.val == s.val[y := v] && r.list == s.list[y := z]
    ensures Units(r, x) == Units(s, x) + if x == y then v - s.Val(y) + |z| - |s.List(y)| else 0
  {
  }

  lemma WaitDecBalances(s: State, c: nat, x: nat)
    requires ListsOk(s) && c < s.ncpu && s.Pc(s.Cur(c)).WaitLocked?
    ensures Balanced(s, WaitDec(c), DoWaitDec(s, c), x)
  {
    hide Units, OnTheWay, ListsOk;
    var p, r := s.Cur(c), DoWaitDec(s, c);
    var y, v := s.Pc(p).sem, s.Val(s.Pc(p).sem) - 1;
    NotUp(s, p);
    assert s.up - {p} == s.up;
    SameOnTheWay(s, r, p, r.Pc(p), x);
    if v >= 0 { ValueMoves(s, r, y, v, x); }
    else { BothMove(s, r, y, v, [p] + s.List(y), x); }
  }

  lemma WaitFinishBalances(s: State, c: nat, x: nat)
    requires ListsOk(s) && c < s.ncpu && s.Pc(s.Cur(c)).WaitCheck?
    ensures Balanced(s, WaitFinish(c), DoWaitFinish(s, c), x)
  {
    hide Units, OnTheWay, Without, ListsOk;
    var p, r := s.Cur(c), DoWaitFinish(s, c);
    var y := s.Pc(p).sem;
    var z := Without(s.List(y), p);
    if p in s.up {
      LeavesWay(s, r, p, y, x);
      SameUnits(s, r, x);
    } else {
      Awaited(s, p, y);
      WithoutNoDup(s.List(y), p);
      assert s.up - {p} == s.up;
      SameOnTheWay(s, r, p, Outside, x);
      BothMove(s, r, y, s.Val(y) + 1, z, x);
    }
  }

  lemma SameUnits(s: State, r: State, x: nat)
    requires r.val == s.val && r.list == s.list
    ensures Units(r, x) == Units(s, x)
  {
  }

  /** A posted process returns from its wait. */
  lemma LeavesWay(s: State, r: State, p: Proc, y: nat, x: nat)
    requires p in s.up && InWait(s.Pc(p)) && s.Pc(p).sem == y && r.up == s.up - {p} && r.pc == s.pc[p := Outside]
    ensures |OnTheWay(r, x)| == |OnTheWay(s, x)| - if x == y then 1 else 0
  {
    assert forall q :: q != p ==> r.Pc(q) == s.Pc(q);
    assert OnTheWay(r, x) == OnTheWay(s, x) - {p};
  }

  /** A waiter is posted by another process. */
  lemma JoinsWay(s: State, r: State, p: Proc, l: Pc, t: Proc, y: nat, x: nat)
    requires p !in s.up && t != p && t !in s.up && InWait(s.Pc(t)) && s.Pc(t).sem == y
    requires r.up == s.up + {t} && r.pc == s.pc[p := l]
    ensures |OnTheWay(r, x)| == |OnTheWay(s, x)| + if x == y then 1 else 0
  {
    assert forall q :: q != p ==> r.Pc(q) == s.Pc(q);
    assert OnTheWay(r, x) == OnTheWay(s, x) + if x == y then {t} else {};
  }

  lemma PostIncFields(s: State, c: nat)
    requires s.Pc(s.Cur(c)).PostLocked?
    ensures var p, r := s.Cur(c), DoPostInc(s, c);
      var y, v := s.Pc(p).sem, s.Val(s.Pc(p).sem) + 1;
      && r.val == s.val[y := v]
      && (v > 0 ==> r.list == s.list && r.up == s.up && r.pc == s.pc[p := PostAfter(y, s.Pc(p).job)])
      && (v <= 0 && s.List(y) != [] ==>
            var z := s.List(y);
            var t := z[|z| - 1];
            && r.list == s.list[y := z[..|z| - 1]] && r.up == s.up + {t}
            && r.pc == s.pc[p := PostWake(y, t, s.Pc(p).job)])
  {
    match s.Pc(s.Cur(c))
    case PostLocked(y, job) =>
      if s.Val(y) + 1 <= 0 && s.List(y) != [] {
        var z := s.List(y);
        assert DoPostInc(s, c) == s.(val := s.val[y := s.Val(y) + 1], list := s.list[y := z[..|z| - 1]],
                                     up := s.up + {z[|z| - 1]}, pc := s.pc[s.Cur(c) := PostWake(y, z[|z| - 1], job)]);
      }
  }

  lemma PostIncBalances(s: State, c: nat, x: nat)
    requires ListsOk(s) && c < s.ncpu && s.Pc(s.Cur(c)).PostLocked?
    ensures Balanced(s, PostInc(c), DoPostInc(s, c), x)
  {
    hide Units, OnTheWay, ListsOk, DoPostInc;
    var p, r := s.Cur(c), DoPostInc(s, c);
    var l := s.Pc(p);
    var y, v := l.sem, s.Val(l.sem) + 1;
    NotUp(s, p);
    PostIncFields(s, c);
    if v > 0 {
      SameOnTheWay(s, r, p, PostAfter(y, l.job), x);
      ValueMoves(s, r, y, v, x);
    } else {
      PickedIs(s, p, y);
      var z := s.List(y);
      JoinsWay(s, r, p, PostWake(y, z[|z| - 1], l.job), z[|z| - 1], y, x);
      BothMove(s, r, y, v, z[..|z| - 1], x);
    }
  }

  /** Where PostNext leads: out of the call, or to one more post. */
  function AfterPost(s: State, y: nat, job: Job): (l: Pc) {
    if job.One? || s.Val(y) > 0 then Outside else PostLocked(y, job.(ret := job.ret + 1))
  }

  lemma PostNextFields(s: State, c: nat, y: nat, job: Job)
    requires s.Pc(s.Cur(c)) == PostAfter(y, job)
    ensures var r := DoPostNext(s, c);
      && r.list == s.list && r.up == s.up && r.pc == s.pc[s.Cur(c) := AfterPost(s, y, job)]
      && r.val == if job.All? && s.Val(y) > 0 then s.val[y := s.Val(y) - 1] else s.val
  {
    var p := s.Cur(c);
    if job.One? {
      assert DoPostNext(s, c) == s.(semLock := s.semLock - {y}, pc := s.pc[p := Outside]);
    } else if s.Val(y) > 0 {
      assert DoPostNext(s, c) == s.(val := s.val[y := s.Val(y) - 1], semLock := s.semLock - {y},
                                    pc := s.pc[p := Outside],
                                    result := s.result[p := PostedAll(job.ret + 1, job.val0, job.start)]);
    } else {
      assert DoPostNext(s, c) == s.(pc := s.pc[p := PostLocked(y, job.(ret := job.ret + 1))]);
    }
  }

  lemma PostNextBalances(s: State, c: nat, x: nat)
    requires ListsOk(s) && c < s.ncpu && s.Pc(s.Cur(c)).PostAfter?
    ensures Balanced(s, PostNext(c), DoPostNext(s, c), x)
  {
    hide Units, OnTheWay, ListsOk, DoPostNext;
    var p, r := s.Cur(c), DoPostNext(s, c);
    var y, job := s.Pc(p).sem, s.Pc(p).job;
    NotUp(s, p);
    PostNextFields(s, c, y, job);
    SameOnTheWay(s, r, p, AfterPost(s, y, job), x);
    if job.All? && s.Val(y) > 0 { ValueMoves(s, r, y, s.Val(y) - 1, x); } else { SameUnits(s, r, x); }
  }

  lemma OnlyGets(s: State, a: Act, r: State, x: nat)
    requires a.TryGet? || a.DrainAll?
    ensures Posted(s, a, x) == Granted(s, a, r, x) == TakenBack(s, a, r, x) == 0
  {
  }

  lemma TryGetUnits(s: State, c: nat, y: nat, x: nat)
    requires c < s.ncpu
    ensures var r := DoTryGet(s, c, y);
      && r.up == s.up && r.pc == s.pc && Units(r, x) + Got(s, TryGet(c, y), x) == Units(s, x)
  {
    hide Units;
    var r := DoTryGet(s, c, y);
    if r == s { SameUnits(s, r, x); } else { ValueMoves(s, r, y, s.Val(y) - 1, x); }
  }

  lemma TryGetBalances(s: State, c: nat, y: nat, x: nat)
    requires c < s.ncpu
    ensures Balanced(s, TryGet(c, y), DoTryGet(s, c, y), x)
  {
    hide Units, OnTheWay, Posted, Granted, TakenBack, Got, DoTryGet;
    var r := DoTryGet(s, c, y);
    OnlyGets(s, TryGet(c, y), r, x);
    TryGetUnits(s, c, y, x);
    SameWay(s, r, x);
  }

  lemma DrainAllUnits(s: State, c: nat, y: nat, x: nat)
    requires c < s.ncpu
    ensures var r := DoDrainAll(s, c, y);
      && r.up == s.up && r.pc == s.pc && Units(r, x) + Got(s, DrainAll(c, y), x) == Units(s, x)
  {
    hide Units;
    var r := DoDrainAll(s, c, y);
    if r == s { SameUnits(s, r, x); } else { ValueMoves(s, r, y, 0, x); }
  }

  lemma DrainAllBalances(s: State, c: nat, y: nat, x: nat)
    requires c < s.ncpu
    ensures Balanced(s, DrainAll(c, y), DoDrainAll(s, c, y), x)
  {
    hide Units, OnTheWay, Posted, Granted, TakenBack, Got, DoDrainAll;
    var r := DoDrainAll(s, c, y);
    OnlyGets(s, DrainAll(c, y), r, x);
    DrainAllUnits(s, c, y, x);
    SameWay(s, r, x);
  }

  lemma SameWay(s: State, r: State, x: nat)
    requires r.up == s.up && r.pc == s.pc
    ensures OnTheWay(r, x) == OnTheWay(s, x)
  {
    assert forall q :: r.Pc(q) == s.Pc(q);
  }

  /** Every step of every process balances the accounts of every semaphore. */
  lemma StepBalances(s: State, a: Act, x: nat)
    requires Inv(s)
    ensures Balanced(s, a, Do(s, a), x)
  {
    hide SchedInv, SemLocksOk, ListsOk, WakesOk, DeepOk, AgesOk, SweepsOk, ResultsOk, Balanced, Quiet,
      DoWaitDec, DoWaitFinish, DoPostInc, DoPostNext, DoTryGet, DoDrainAll;
    if a.c >= s.ncpu || !Moves(s, a) {
      StillBalances(s, a, x);
    } else {
      match a
      case WaitDec(c) => WaitDecBalances(s, c, x);
      case WaitFinish(c) => WaitFinishBalances(s, c, x);
      case PostInc(c) => PostIncBalances(s, c, x);
      case PostNext(c) => PostNextBalances(s, c, x);
      case TryGet(c, y) => TryGetBalances(s, c, y, x);
      case DrainAll(c, y) => DrainAllBalances(s, c, y, x);
      case _ =>
        hide Do;
        OthersQuiet(s, a);
        QuietBalances(s, a, Do(s, a), x);
    }
  }

  /** The step is one that its process stands before. */
  predicate Moves(s: State, a: Act) {
    var l := s.Pc(s.Cur(a.c));
    match a
    case WaitDec(_) => l.WaitLocked?
    case WaitFinish(_) => l.WaitCheck?
    case PostInc(_) => l.PostLocked?
    case PostNext(_) => l.PostAfter?
    case _ => true
  }

  lemma StillBalances(s: State, a: Act, x: nat)
    requires a.c >= s.ncpu || !Moves(s, a)
    ensures Balanced(s, a, Do(s, a), x)
  {
    assert Do(s, a) == s;
    hide Do;
  }

  // ---------- over every run ----------

  /** Totals of a run from `s`. */
  function AllPosted(s: State, acts: seq<Act>, x: nat): (n: nat) {
    if acts == [] then 0
    else
      var before, a := acts[..|acts| - 1], acts[|acts| - 1];
      AllPosted(s, before, x) + Posted(Run(s, before), a, x)
  }

  function AllGranted(s: State, acts: seq<Act>, x: nat): (n: nat) {
    if acts == [] then 0
    else
      var before, a := acts[..|acts| - 1], acts[|acts| - 1];
      AllGranted(s, before, x) + Granted(Run(s, before), a, Run(s, acts), x)
  }

  /** What gets returned. */
  function AllGot(s: State, acts: seq<Act>, x: nat): (n: nat) {
    if acts == [] then 0
    else
      var before, a := acts[..|acts| - 1], acts[|acts| - 1];
      AllGot(s, before, x) + Got(Run(s, before), a, x)
  }

  function AllTakenBack(s: State, acts: seq<Act>, x: nat): (n: nat) {
    if acts == [] then 0
    else
      var before, a := acts[..|acts| - 1], acts[|acts| - 1];
      AllTakenBack(s, before, x) + TakenBack(Run(s, before), a, Run(s, acts), x)
  }

  function AllTaken(s: State, acts: seq<Act>, x: nat): (n: nat) {
    AllGot(s, acts, x) + AllTakenBack(s, acts, x)
  }

  /** Conservation: over every interleaving, what the semaphore has, with the waits granted or
      on their way back and the units taken, is what it began with and what was posted. */
  lemma {:induction false} UnitsConserved(s: State, acts: seq<Act>, x: nat)
    requires Init(s)
    ensures var r := Run(s, acts);
      Units(r, x) + |OnTheWay(r, x)| + AllGranted(s, acts, x) + AllTaken(s, acts, x) == s.Val(x) + AllPosted(s, acts, x)
    decreases |acts|
  {
    if acts == [] {
      assert s.List(x) == [] && OnTheWay(s, x) == {};
    } else {
      var before := acts[..|acts| - 1];
      UnitsConserved(s, before, x);
      RunKeeps(s, before);
      hide Inv, Init, Do, Units, OnTheWay, Posted, Granted, Got, TakenBack;
      StepBalances(Run(s, before), acts[|acts| - 1], x);
    }
  }

  /** The units that were neither granted nor taken. */
  function Left(s: State, acts: seq<Act>, x: nat): (n: int) {
    s.Val(x) + AllPosted(s, acts, x) - AllGranted(s, acts, x) - AllTaken(s, acts, x) - |OnTheWay(Run(s, acts), x)|
  }

  /** A wait is granted without sleeping if and only if a unit is left. */
  lemma GrantedIffLeft(s: State, acts: seq<Act>, c: nat, x: nat, alert: bool)
    requires Init(s) && var r := Run(s, acts); r.At(c, r.Cur(c), WaitLocked(x, alert))
    ensures Left(s, acts, x) >= 0
    ensures var r := Run(s, acts);
      var r', p := Do(r, WaitDec(c)), r.Cur(c);
      && (r'.Pc(p) == Outside && r'.Res(p) == Waited(true, alert) <==> Left(s, acts, x) > 0)
      && (r'.Pc(p) == WaitListed(x, alert) && p in r'.List(x) <==> Left(s, acts, x) == 0)
  {
    hide Init, Run, OnTheWay, AllPosted, AllGranted, AllTaken;
    UnitsConserved(s, acts, x);
    RunKeeps(s, acts);
    ValueIsUnits(Run(s, acts), x);
    hide Inv, Units, Left;
    Decides(Run(s, acts), c, x, alert);
  }

  lemma ValueIsUnits(r: State, x: nat)
    requires Inv(r)
    ensures Units(r, x) == if r.Val(x) > 0 then r.Val(x) else 0
  {
    hide SchedInv, SemLocksOk, WakesOk, DeepOk, AgesOk, SweepsOk, ResultsOk;
  }

  lemma Decides(r: State, c: nat, x: nat, alert: bool)
    requires r.At(c, r.Cur(c), WaitLocked(x, alert))
    ensures var r', p := Do(r, WaitDec(c)), r.Cur(c);
      if r.Val(x) > 0 then r'.Pc(p) == Outside && r'.Res(p) == Waited(true, alert)
      else r'.Pc(p) == WaitListed(x, alert) && p in r'.List(x)
  {
    assert Do(r, WaitDec(c)) == DoWaitDec(r, c) by { hide DoWaitDec; }
    hide Do;
    if r.Val(x) > 0 { Takes(r, c, x, alert); } else { Queues(r, c, x, alert); }
    hide DoWaitDec;
  }

  lemma Takes(r: State, c: nat, x: nat, alert: bool)
    requires r.At(c, r.Cur(c), WaitLocked(x, alert)) && r.Val(x) > 0
    ensures DoWaitDec(r, c).Pc(r.Cur(c)) == Outside && DoWaitDec(r, c).Res(r.Cur(c)) == Waited(true, alert)
  {
  }

  lemma Queues(r: State, c: nat, x: nat, alert: bool)
    requires r.At(c, r.Cur(c), WaitLocked(x, alert)) && r.Val(x) <= 0
    ensures DoWaitDec(r, c).Pc(r.Cur(c)) == WaitListed(x, alert) && DoWaitDec(r, c).List(x) == [r.Cur(c)] + r.List(x)
    ensures r.Cur(c) in DoWaitDec(r, c).List(x)
  {
    assert ([r.Cur(c)] + r.List(x))[0] == r.Cur(c);
  }

  lemma {:induction false} LeftIsUnits(s: State, acts: seq<Act>, x: nat)
    requires Init(s)
    ensures Left(s, acts, x) == Units(Run(s, acts), x)
    ensures Left(s, acts, x) == if Run(s, acts).Val(x) > 0 then Run(s, acts).Val(x) else 0
  {
    hide Init, Run, OnTheWay, AllPosted, AllGranted, AllTaken;
    UnitsConserved(s, acts, x);
    RunKeeps(s, acts);
    ValueIsUnits(Run(s, acts), x);
  }

  /** A post that finds no waiter leaves one unit more. */
  lemma {:induction false} PostLeavesUnit(s: State, acts: seq<Act>, c: nat, x: nat, job: Job)
    requires Init(s)
    requires var r := Run(s, acts); r.At(c, r.Cur(c), PostLocked(x, job)) && r.List(x) == []
    ensures Left(s, acts + [PostInc(c)], x) == Left(s, acts, x) + 1 > 0
  {
    var r, more := Run(s, acts), acts + [PostInc(c)];
    assert Run(s, more) == Do(r, PostInc(c)) by { RunMore(s, acts, PostInc(c)); }
    PostIncIs(r, c);
    hide Do, Run, Left, Init, DoPostInc, Units, Inv;
    LeftIsUnits(s, acts, x);
    LeftIsUnits(s, more, x);
    RunKeeps(s, acts);
    IncAddsUnit(r, c, x);
  }

  lemma RunMore(s: State, acts: seq<Act>, a: Act)
    ensures Run(s, acts + [a]) == Do(Run(s, acts), a)
  {
    hide Do;
    assert (acts + [a])[..|acts + [a]| - 1] == acts;
  }

  lemma PostIncIs(r: State, c: nat)
    requires c < r.ncpu
    ensures Do(r, PostInc(c)) == DoPostInc(r, c)
  {
    hide DoPostInc;
  }

  lemma IncAddsUnit(r: State, c: nat, x: nat)
    requires Inv(r) && r.Pc(r.Cur(c)).PostLocked? && r.Pc(r.Cur(c)).sem == x && r.List(x) == []
    ensures DoPostInc(r, c).Val(x) == r.Val(x) + 1 > 0 && r.Val(x) >= 0
  {
    hide Units, DoPostInc;
    PostIncFields(r, c);
    EmptyIsUnsigned(r, x);
  }

  lemma EmptyIsUnsigned(r: State, x: nat)
    requires Inv(r) && r.List(x) == []
    ensures r.Val(x) >= 0
  {
    hide SchedInv, SemLocksOk, WakesOk, DeepOk, AgesOk, SweepsOk, ResultsOk;
  }

  // ---------- a semaphore used as a lock ----------

  /** Who has `x` after a run: a process that was granted a unit, by a wait or a get, and has
      posted none since. */
  function Holders(s: State, acts: seq<Act>, x: nat): (h: set<Proc>) {
    if acts == [] then {}
    else
      var before, a := acts[..|acts| - 1], acts[|acts| - 1];
      var r := Run(s, before);
      var h, p := Holders(s, before, x), r.Cur(a.c);
      if Granted(r, a, Run(s, acts), x) + Got(r, a, x) > 0 then h + {p}
      else if Posted(r, a, x) > 0 then h - {p}
      else h
  }

  /** Only a process that has `x` posts it. */
  ghost predicate PostedByHolders(s: State, acts: seq<Act>, x: nat) {
    acts == [] ||
    (var before, a := acts[..|acts| - 1], acts[|acts| - 1];
     && PostedByHolders(s, before, x)
     && (Posted(Run(s, before), a, x) > 0 ==> Run(s, before).Cur(a.c) in Holders(s, before, x)))
  }

  /** A lock's unit is left, on its way to a waiter, held, or taken back for good. */
  lemma {:induction false} OneUnit(s: State, acts: seq<Act>, x: nat)
    requires Init(s) && s.Val(x) == 1 && PostedByHolders(s, acts, x)
    ensures var r := Run(s, acts);
      Units(r, x) + |OnTheWay(r, x)| + |Holders(s, acts, x)| + AllTakenBack(s, acts, x) == 1 && Units(r, x) >= 0
    decreases |acts|
  {
    ValueIsUnits(Run(s, acts), x) by { RunKeeps(s, acts); }
    if acts == [] {
      assert s.List(x) == [] && OnTheWay(s, x) == {};
    } else {
      var before, a := acts[..|acts| - 1], acts[|acts| - 1];
      OneUnit(s, before, x);
      RunKeeps(s, before);
      hide Init, Do, Units, OnTheWay;
      StepBalances(Run(s, before), a, x);
      GetsAtMost(Run(s, before), a, x);
      hide Inv, Posted, Granted, Got, TakenBack;
    }
  }

  /** A get takes no more than there is. */
  lemma GetsAtMost(s: State, a: Act, x: nat)
    requires Inv(s)
    ensures Got(s, a, x) <= Units(s, x)
    ensures Granted(s, a, Do(s, a), x) + Got(s, a, x) > 0 ==> Posted(s, a, x) == 0
  {
    ValueIsUnits(s, x);
    hide Inv;
  }

  /** A semaphore that starts at 1 and is posted by its holders only is a lock: over every
      interleaving at most one process has it or is on its way to have it, and nobody is
      granted it meanwhile. */
  lemma {:induction false} LockExcludes(s: State, acts: seq<Act>, x: nat, p: Proc, q: Proc)
    requires Init(s) && s.Val(x) == 1 && PostedByHolders(s, acts, x)
    requires p in Holders(s, acts, x) + OnTheWay(Run(s, acts), x)
    requires q in Holders(s, acts, x) + OnTheWay(Run(s, acts), x)
    ensures p == q && Left(s, acts, x) == 0
  {
    hide Init, Run, Holders, PostedByHolders;
    OneUnit(s, acts, x);
    LeftIsUnits(s, acts, x);
    hide Left, Units, OnTheWay;
    var h, w := Holders(s, acts, x), OnTheWay(Run(s, acts), x);
    AtMostOne(h, w, p, q);
  }

  /** When nobody has a lock that post_all_sem was not used on, its unit is there to be had. */
  lemma {:induction false} LockIsFree(s: State, acts: seq<Act>, x: nat)
    requires Init(s) && s.Val(x) == 1 && PostedByHolders(s, acts, x) && AllTakenBack(s, acts, x) == 0
    ensures Left(s, acts, x) == 1 <==> Holders(s, acts, x) == {} && OnTheWay(Run(s, acts), x) == {}
  {
    hide Init, Run, Holders, PostedByHolders, AllTakenBack;
    OneUnit(s, acts, x);
    LeftIsUnits(s, acts, x);
    hide Left, Units, OnTheWay;
    assert |Holders(s, acts, x)| == 0 ==> Holders(s, acts, x) == {};
    assert |OnTheWay(Run(s, acts), x)| == 0 ==> OnTheWay(Run(s, acts), x) == {};
  }

  lemma AtMostOne(h: set<Proc>, w: set<Proc>, p: Proc, q: Proc)
    requires |h| + |w| <= 1 && p in h + w && q in h + w
    ensures p == q && |h| + |w| == 1
  {
    if p in h && q in h { Single(h, p, q); }
    if p in w && q in w { Single(w, p, q); }
  }

  lemma Single(h: set<Proc>, p: Proc, q: Proc)
    requires |h| <= 1 && p in h && q in h
    ensures p == q
  {
    assert q in h - {p} ==> |h - {p}| > 0;
  }
}
