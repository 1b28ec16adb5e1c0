/** Who runs next, who is woken, what a wait returns, and that no step is stuck but by a lock
    (src/kernel/sched.c, src/common/sem.c). */
module WakeOrder {
  import opened SleepWake
  import opened SemCounts

  // ---------- who runs next ----------

  /** Could run once `p`, which leaves its CPU, has state `new_`. */
  predicate Eligible(s: State, p: Proc, new_: ProcState, q: Proc) {
    if q == p then new_ == Runnable else s.St(q) == Runnable
  }

  lemma {:induction false} PicksFirst(s: State, q: seq<Proc>, c: nat, i: nat)
    requires i <= |q| && (forall j :: 0 <= j < i ==> s.St(q[j]) != Runnable) && (i < |q| ==> s.St(q[i]) == Runnable)
    ensures PickNext(s, q, c) == if i < |q| then q[i] else Idle(c)
  {
    if i > 0 {
      assert forall j :: 0 <= j < i - 1 ==> q[1..][j] == q[j + 1];
      PicksFirst(s, q[1..], c, i - 1);
    }
  }

  /** A process that cannot run may as well leave the queue. */
  lemma {:induction false} PickWithout(s: State, q: seq<Proc>, p: Proc, c: nat)
    requires s.St(p) != Runnable
    ensures PickNext(s, Without(q, p), c) == PickNext(s, q, c)
  {
    if q != [] {
      PickWithout(s, q[1..], p, c);
      var w := Without(q[1..], p);
      if q[0] != p { assert ([q[0]] + w)[1..] == w; }
    }
  }

  /** A switch goes to the first process of the queue that can run, and to the idle process
      if there is none. */
  lemma {:induction false} SwitchTakesFirst(s: State, c: nat, new_: ProcState, l: Pc, i: nat)
    requires var p := s.Cur(c);
      && i <= |s.queue| && (forall j :: 0 <= j < i ==> !Eligible(s, p, new_, s.queue[j]))
      && (i < |s.queue| ==> Eligible(s, p, new_, s.queue[i]))
    requires new_ == Runnable || new_ == Sleeping || new_ == DeepSleeping || new_ == Zombie
    ensures Switch(s, c, s.Cur(c), new_, l).Cur(c) == if i < |s.queue| then s.queue[i] else Idle(c)
  {
    hide PickNext, Without;
    var p := s.Cur(c);
    var s1 := UpdateState(s.(fault := s.fault || s.St(p) != Running), p, new_, l);
    assert forall q :: s1.St(q) == if q == p then new_ else s.St(q);
    if new_ != Runnable { PickWithout(s1, s.queue, p, c); }
    PicksFirst(s1, s.queue, c, i);
  }

  /** The state in which a process leaves its CPU. */
  function Leaves(l: Pc): (t: Option<ProcState>) {
    match l
    case WaitSched(_, alert) => Some(if alert then Sleeping else DeepSleeping)
    case YieldHeld => Some(Runnable)
    case ExitHeld => Some(Zombie)
    case _ => None
  }

  function SwitchAct(l: Pc, c: nat): (a: Act) {
    if l.WaitSched? then WaitSleep(c) else if l.YieldHeld? then YieldSwitch(c) else ExitSwitch(c)
  }

  lemma SwitchOf(s: State, c: nat)
    requires c < s.ncpu && Leaves(s.Pc(s.Cur(c))).Some?
    ensures var p := s.Cur(c);
      var l := s.Pc(p);
      var to := if l.WaitSched? then WaitSwitched(l.sem, l.alert) else if l.YieldHeld? then Switched else Dead;
      Do(s, SwitchAct(l, c)) == Switch(s, c, p, Leaves(l).value, to)
  {
    hide Switch;
  }

  /** The same of the three steps that switch. */
  lemma {:induction false} StepTakesFirst(s: State, c: nat, i: nat)
    requires var p := s.Cur(c);
      && c < s.ncpu && Leaves(s.Pc(p)).Some? && i <= |s.queue|
      && (forall j :: 0 <= j < i ==> !Eligible(s, p, Leaves(s.Pc(p)).value, s.queue[j]))
      && (i < |s.queue| ==> Eligible(s, p, Leaves(s.Pc(p)).value, s.queue[i]))
    ensures var r := Do(s, SwitchAct(s.Pc(s.Cur(c)), c));
      && r.Cur(c) == (if i < |s.queue| then s.queue[i] else Idle(c))
      && (forall d: nat :: d != c ==> r.Cur(d) == s.Cur(d))
  {
    var p := s.Cur(c);
    var l := s.Pc(p);
    var new_ := Leaves(l).value;
    var to := if l.WaitSched? then WaitSwitched(l.sem, l.alert) else if l.YieldHeld? then Switched else Dead;
    assert Do(s, SwitchAct(l, c)) == Switch(s, c, p, new_, to) by {
      hide Switch, Eligible;
      SwitchOf(s, c);
    }
    hide Do, SwitchAct;
    SwitchTakesFirst(s, c, new_, to, i);
    OthersStay(s, c, p, new_, to);
  }

  lemma OthersStay(s: State, c: nat, p: Proc, new_: ProcState, l: Pc)
    ensures forall d: nat :: d != c ==> Switch(s, c, p, new_, l).Cur(d) == s.Cur(d)
  {
    hide PickNext, Without;
  }

  // ---------- who is woken ----------

  /** An alert wakes an alertable sleeper, and nobody else. */
  lemma AlertWakesIff(r: State, c: nat, t: Proc)
    requires Reachable(r) && c < r.ncpu && r.Pc(r.Cur(c)) == Outside && r.runLock == None && r.St(t) != Unused
    ensures var r' := Do(r, Alert(c, t));
      && (r.St(t) == Sleeping <==> r'.St(t) != r.St(t))
      && (r.St(t) == Sleeping ==> r'.St(t) == Runnable && r.Pc(t).WaitSwitched? && r.Pc(t).alert)
      && (r.St(t) == Sleeping ==> r'.queue == [t] + r.queue && PickNext(r', r'.queue, c) == t)
      && (forall q :: q != t ==> r'.St(q) == r.St(q)) && r'.pc == r.pc && r'.up == r.up
  {
    hide Reachable;
    ReachableInv(r);
    assert Fits(r.St(t), r.Pc(t));
    hide Inv;
    var r' := Do(r, Alert(c, t));
    assert r' == DoAlert(r, c, t) by { hide DoAlert; }
    hide Do;
    if r.St(t) == Sleeping {
      assert r' == r.(st := r.st[t := Runnable], queue := [t] + r.queue);
    } else {
      assert r' == r;
    }
    hide DoAlert;
  }

  /** A process that was never run is made runnable by start, and will be the next to run if
      a CPU switches then. */
  lemma StartsFirst(r: State, c: nat, t: Proc)
    requires c < r.ncpu && r.Pc(r.Cur(c)) == Outside && r.runLock == None && r.St(t) == Unused && t.User?
    ensures var r' := Do(r, Start(c, t));
      && r'.St(t) == Runnable && r'.queue == [t] + r.queue && PickNext(r', r'.queue, c) == t
      && (forall q :: q != t ==> r'.St(q) == r.St(q)) && r'.pc == r.pc
  {
  }

  // ---------- what a wait returns ----------

  /** The processes that were posted in the wait they are in. */
  function PostedNow(s: State, acts: seq<Act>): (w: set<Proc>) {
    if acts == [] then {}
    else
      var before, a := acts[..|acts| - 1], acts[|acts| - 1];
      PostedStep(Run(s, before), a, PostedNow(s, before))
  }

  function PostedStep(r: State, a: Act, w: set<Proc>): (w': set<Proc>) {
    var p := r.Cur(a.c);
    var l := r.Pc(p);
    if a.c >= r.ncpu then w
    else if a.PostInc? && l.PostLocked? && r.List(l.sem) != [] then w + {r.List(l.sem)[|r.List(l.sem)| - 1]}
    else if (a.WaitDec? && l.WaitLocked?) || (a.WaitFinish? && l.WaitCheck?) then w - {p}
    else w
  }

  lemma WaitDecUp(r: State, c: nat)
    requires ListsOk(r) && r.Pc(r.Cur(c)).WaitLocked?
    ensures DoWaitDec(r, c).up == r.up - {r.Cur(c)}
  {
    NotUp(r, r.Cur(c));
    hide ListsOk;
  }

  lemma WaitFinishUp(r: State, c: nat)
    requires r.Pc(r.Cur(c)).WaitCheck?
    ensures DoWaitFinish(r, c).up == r.up - {r.Cur(c)}
  {
    hide Without;
  }

  lemma GetStepsUp(r: State, c: nat, x: nat)
    ensures DoTryGet(r, c, x).up == r.up && DoDrainAll(r, c, x).up == r.up
  {
  }

  lemma EmptyIffNoWaiter(r: State, x: nat)
    requires ListsOk(r)
    ensures r.List(x) != [] <==> r.Val(x) < 0
  {
  }

  lemma UpIsPosted(r: State, a: Act)
    requires Inv(r)
    ensures Do(r, a).up == PostedStep(r, a, r.up)
  {
    hide SchedInv, SemLocksOk, ListsOk, WakesOk, DeepOk, AgesOk, SweepsOk, ResultsOk;
    hide DoWaitDec, DoWaitFinish, DoPostInc, DoPostNext, DoTryGet, DoDrainAll, Quiet;
    var l := r.Pc(r.Cur(a.c));
    if a.c >= r.ncpu || !Moves(r, a) {
      StandsStill(r, a);
    } else {
      match a
      case WaitDec(c) => WaitDecUp(r, c);
      case WaitFinish(c) => WaitFinishUp(r, c);
      case PostInc(c) =>
        EmptyIffNoWaiter(r, l.sem);
        PostIncFields(r, c);
      case PostNext(c) => PostNextFields(r, c, l.sem, l.job);
      case TryGet(c, x) => GetStepsUp(r, c, x);
      case DrainAll(c, x) => GetStepsUp(r, c, x);
      case _ =>
        hide Do;
        OthersQuiet(r, a);
        assert Do(r, a).up == r.up by { QuietUp(r, Do(r, a)); }
    }
  }

  lemma QuietUp(s: State, s': State)
    requires Quiet(s, s')
    ensures s'.up == s.up
  {
  }

  lemma StandsStill(r: State, a: Act)
    requires a.c >= r.ncpu || !Moves(r, a)
    ensures Do(r, a) == r && PostedStep(r, a, r.up) == r.up
  {
  }

  lemma {:induction false} PostedIsUp(s: State, acts: seq<Act>)
    requires Init(s)
    ensures Run(s, acts).up == PostedNow(s, acts)
    decreases |acts|
  {
    if acts != [] {
      PostedIsUp(s, acts[..|acts| - 1]);
      RunKeeps(s, acts[..|acts| - 1]);
      hide Inv, Init, Do, PostedStep;
      UpIsPosted(Run(s, acts[..|acts| - 1]), acts[|acts| - 1]);
    }
  }

  /** A wait that slept, alertable or not, returns true if and only if the process was posted
      in it; otherwise it takes itself off the list and gives its count back. */
  lemma {:induction false} TrueIffPosted(s: State, acts: seq<Act>, c: nat, x: nat, alert: bool)
    requires Init(s) && var r := Run(s, acts); r.At(c, r.Cur(c), WaitCheck(x, alert))
    ensures var r := Run(s, acts);
      var r', p := Do(r, WaitFinish(c)), r.Cur(c);
      && r'.Pc(p) == Outside && r'.Res(p) == Waited(p in PostedNow(s, acts), alert)
      && (p in PostedNow(s, acts) ==> r'.Val(x) == r.Val(x) && r'.List(x) == r.List(x))
      && (p !in PostedNow(s, acts) ==>
            alert && r'.Val(x) == r.Val(x) + 1 && r'.List(x) == Without(r.List(x), p) && p in r.List(x))
  {
    hide Init, Run, Without;
    PostedIsUp(s, acts);
    RunKeeps(s, acts);
    Returns(Run(s, acts), c, x, alert);
  }

  lemma Returns(r: State, c: nat, x: nat, alert: bool)
    requires Inv(r) && r.At(c, r.Cur(c), WaitCheck(x, alert))
    ensures var r', p := Do(r, WaitFinish(c)), r.Cur(c);
      && r'.Pc(p) == Outside && r'.Res(p) == Waited(p in r.up, alert)
      && (p in r.up ==> r'.Val(x) == r.Val(x) && r'.List(x) == r.List(x))
      && (p !in r.up ==> alert && r'.Val(x) == r.Val(x) + 1 && r'.List(x) == Without(r.List(x), p) && p in r.List(x))
  {
    hide SchedInv, SemLocksOk, WakesOk, AgesOk, SweepsOk, ResultsOk, Without;
    if r.Cur(c) !in r.up { Awaited(r, r.Cur(c), x); }
    assert r.Cur(c) !in r.up ==> alert;
    hide Inv;
    assert Do(r, WaitFinish(c)) == DoWaitFinish(r, c) by { hide DoWaitFinish; }
    hide Do;
  }

  // ---------- no step is stuck but by a lock ----------

  /** The next step of a process at `l` on CPU `c`. */
  function NextAct(l: Pc, c: nat): (a: Act)
    requires l != Outside && l != Dead
  {
    match l
    case Fresh => Resume(c)
    case Switched => Resume(c)
    case YieldHeld => YieldSwitch(c)
    case ExitHeld => ExitSwitch(c)
    case WaitLocked(_, _) => WaitDec(c)
    case WaitListed(_, _) => WaitTakeRun(c)
    case WaitBoth(_, _) => WaitDropSem(c)
    case WaitSched(_, _) => WaitSleep(c)
    case WaitSwitched(_, _) => Resume(c)
    case WaitWoken(_, _) => WaitRelock(c)
    case WaitCheck(_, _) => WaitFinish(c)
    case PostLocked(_, _) => PostInc(c)
    case PostWake(_, _, _) => PostActivate(c)
    case PostAfter(_, _) => PostNext(c)
  }

  /** Where it leads. */
  predicate Leads(l: Pc, l': Pc) {
    match l
    case Fresh => l' == Outside
    case Switched => l' == Outside
    case YieldHeld => l' == Switched
    case ExitHeld => l' == Dead
    case WaitLocked(x, alert) => l' == Outside || l' == WaitListed(x, alert)
    case WaitListed(x, alert) => l' == WaitBoth(x, alert)
    case WaitBoth(x, alert) => l' == WaitSched(x, alert)
    case WaitSched(x, alert) => l' == WaitSwitched(x, alert)
    case WaitSwitched(x, alert) => l' == WaitWoken(x, alert)
    case WaitWoken(x, alert) => l' == WaitCheck(x, alert)
    case WaitCheck(_, _) => l' == Outside
    case PostLocked(x, job) => l' == PostAfter(x, job) || (l'.PostWake? && l'.sem == x && l'.job == job)
    case PostWake(x, _, job) => l' == PostAfter(x, job)
    case PostAfter(x, job) =>
      l' == Outside || (job.All? && l'.PostLocked? && l'.sem == x && l'.job == job.(ret := job.ret + 1))
    case _ => false
  }

  /** It waits for a lock that another process holds. */
  predicate Blocked(r: State, p: Proc) {
    match r.Pc(p)
    case WaitListed(_, _) => r.runLock.Some?
    case PostWake(_, _, _) => r.runLock.Some?
    case WaitWoken(x, _) => x in r.semLock && r.semLock[x] != p
    case _ => false
  }

  lemma ProgressFacts(r: State, c: nat)
    requires Inv(r) && c < r.ncpu
    ensures var p := r.Cur(c);
      var l := r.Pc(p);
      && l != Dead && (NeedsRun(l) ==> r.runLock == Some(c))
      && (l.PostLocked? && r.Val(l.sem) < 0 ==> r.List(l.sem) != [])
      && (l.WaitWoken? && l.sem in r.semLock ==> r.semLock[l.sem] != p)
  {
    hide QueueOk, IdleOk, WakesOk, DeepOk, AgesOk, SweepsOk, ResultsOk;
    var p := r.Cur(c);
    assert r.St(p) == Running && r.On(p) == c && Fits(r.St(p), r.Pc(p));
  }

  /** One step as `Leads` has it, or a lock is in the way. */
  ghost predicate Goes(r: State, c: nat, r': State) {
    Blocked(r, r.Cur(c)) || Leads(r.Pc(r.Cur(c)), r'.Pc(r.Cur(c)))
  }

  lemma WaitDecGoes(r: State, c: nat, x: nat, alert: bool)
    requires r.Pc(r.Cur(c)) == WaitLocked(x, alert)
    ensures Goes(r, c, DoWaitDec(r, c))
  {
    hide Blocked;
  }

  lemma TakeRunGoes(r: State, c: nat, x: nat, alert: bool)
    requires r.Pc(r.Cur(c)) == WaitListed(x, alert)
    ensures Goes(r, c, DoWaitTakeRun(r, c))
  {
  }

  lemma DropSemGoes(r: State, c: nat, x: nat, alert: bool)
    requires r.Pc(r.Cur(c)) == WaitBoth(x, alert)
    ensures Goes(r, c, DoWaitDropSem(r, c))
  {
    hide Blocked;
  }

  lemma RelockGoes(r: State, c: nat, x: nat, alert: bool)
    requires r.Pc(r.Cur(c)) == WaitWoken(x, alert) && (x in r.semLock ==> r.semLock[x] != r.Cur(c))
    ensures Goes(r, c, DoWaitRelock(r, c))
  {
  }

  lemma FinishGoes(r: State, c: nat, x: nat, alert: bool)
    requires r.Pc(r.Cur(c)) == WaitCheck(x, alert)
    ensures Goes(r, c, DoWaitFinish(r, c))
  {
    hide Without, Blocked;
  }

  lemma PostGoes(r: State, c: nat)
    requires var l := r.Pc(r.Cur(c)); l.PostLocked? && r.Val(l.sem) < 0 ==> r.List(l.sem) != []
    ensures r.Pc(r.Cur(c)).PostLocked? ==> Goes(r, c, DoPostInc(r, c))
    ensures r.Pc(r.Cur(c)).PostWake? ==> Goes(r, c, DoPostActivate(r, c))
  {
    var l := r.Pc(r.Cur(c));
    if l.PostLocked? {
      PostIncFields(r, c);
      hide DoPostInc;
    }
  }

  lemma PostNextGoes(r: State, c: nat)
    ensures r.Pc(r.Cur(c)).PostAfter? ==> Goes(r, c, DoPostNext(r, c))
  {
    hide DoPostNext;
    var l := r.Pc(r.Cur(c));
    if l.PostAfter? { PostNextFields(r, c, l.sem, l.job); }
  }

  lemma ResumeGoes(r: State, c: nat)
    requires r.runLock == Some(c) && (r.Pc(r.Cur(c)) == Fresh || r.Pc(r.Cur(c)) == Switched)
    ensures Goes(r, c, DoResume(r, c))
  {
    hide Blocked;
  }

  lemma WokenGoes(r: State, c: nat, x: nat, alert: bool)
    requires r.runLock == Some(c) && r.Pc(r.Cur(c)) == WaitSwitched(x, alert)
    ensures Goes(r, c, DoResume(r, c))
  {
    hide Blocked;
  }

  lemma SwitchGoes(s: State, c: nat, new_: ProcState, l: Pc)
    ensures Switch(s, c, s.Cur(c), new_, l).Pc(s.Cur(c)) == l
  {
    hide PickNext, Without;
  }

  lemma SwitchesGo(r: State, c: nat)
    ensures var l := r.Pc(r.Cur(c));
      && (l.WaitSched? ==> Goes(r, c, DoWaitSleep(r, c)))
      && (l.YieldHeld? ==> Goes(r, c, DoYieldSwitch(r, c)))
      && (l.ExitHeld? ==> Goes(r, c, DoExitSwitch(r, c)))
  {
    hide Switch;
    var l := r.Pc(r.Cur(c));
    if l.WaitSched? { SwitchGoes(r, c, if l.alert then Sleeping else DeepSleeping, WaitSwitched(l.sem, l.alert)); }
    if l.YieldHeld? { SwitchGoes(r, c, Runnable, Switched); }
    if l.ExitHeld? { SwitchGoes(r, c, Zombie, Dead); }
  }

  /** In every reachable state, a process on a CPU that is in a call takes the call's next
      step, unless it waits for a lock. */
  lemma Progress(r: State, c: nat)
    requires Reachable(r) && c < r.ncpu && r.Pc(r.Cur(c)) != Outside
    ensures r.Pc(r.Cur(c)) != Dead
    ensures var l := r.Pc(r.Cur(c));
      Blocked(r, r.Cur(c)) || Leads(l, Do(r, NextAct(l, c)).Pc(r.Cur(c)))
  {
    hide Reachable, Inv, Do, Leads, Blocked;
    ReachableInv(r);
    ProgressFacts(r, c);
    var l := r.Pc(r.Cur(c));
    assert Goes(r, c, Do(r, NextAct(l, c))) by { StepGoes(r, c); }
  }

  lemma StepGoes(r: State, c: nat)
    requires c < r.ncpu
    requires var l := r.Pc(r.Cur(c));
      && l != Outside && l != Dead && (NeedsRun(l) ==> r.runLock == Some(c))
      && (l.PostLocked? && r.Val(l.sem) < 0 ==> r.List(l.sem) != [])
      && (l.WaitWoken? && l.sem in r.semLock ==> r.semLock[l.sem] != r.Cur(c))
    ensures Goes(r, c, Do(r, NextAct(r.Pc(r.Cur(c)), c)))
  {
    hide DoWaitDec, DoWaitTakeRun, DoWaitDropSem, DoWaitRelock, DoWaitFinish, DoPostInc, DoPostActivate,
      DoPostNext, DoResume, DoWaitSleep, DoYieldSwitch, DoExitSwitch, Leads, Blocked, Goes;
    match r.Pc(r.Cur(c))
    case WaitLocked(x, alert) => WaitDecGoes(r, c, x, alert);
    case WaitListed(x, alert) => TakeRunGoes(r, c, x, alert);
    case WaitBoth(x, alert) => DropSemGoes(r, c, x, alert);
    case WaitSwitched(x, alert) => WokenGoes(r, c, x, alert);
    case WaitSched(_, _) => SwitchesGo(r, c);
    case YieldHeld => SwitchesGo(r, c);
    case ExitHeld => SwitchesGo(r, c);
    case WaitWoken(x, alert) => RelockGoes(r, c, x, alert);
    case WaitCheck(x, alert) => FinishGoes(r, c, x, alert);
    case PostLocked(_, _) => PostGoes(r, c);
    case PostWake(_, _, _) => PostGoes(r, c);
    case PostAfter(_, _) => PostNextGoes(r, c);
    case Fresh => ResumeGoes(r, c);
    case Switched => ResumeGoes(r, c);
  }

  /** A process in no call enters one when the lock that it needs is free. */
  lemma Enters(r: State, c: nat, x: nat, alert: bool, all: bool)
    requires c < r.ncpu && r.Pc(r.Cur(c)) == Outside && x !in r.semLock
    ensures r.Cur(c).User? ==> Do(r, WaitEnter(c, x, alert)).Pc(r.Cur(c)) == WaitLocked(x, alert)
    ensures var l := Do(r, PostEnter(c, x, all)).Pc(r.Cur(c)); l.PostLocked? && l.sem == x && (l.job.All? <==> all)
  {
    var p := r.Cur(c);
    var w, q := Do(r, WaitEnter(c, x, alert)), Do(r, PostEnter(c, x, all));
    assert p.User? ==> w.pc == r.pc[p := WaitLocked(x, alert)];
    assert q.pc == r.pc[p := PostLocked(x, if all then All(-1, r.Val(x), r.List(x)) else One)];
    hide Do;
  }

  lemma EntersSched(r: State, c: nat)
    requires c < r.ncpu && r.Pc(r.Cur(c)) == Outside && r.runLock == None
    ensures Do(r, YieldEnter(c)).Pc(r.Cur(c)) == YieldHeld
    ensures r.Cur(c).User? ==> Do(r, ExitEnter(c)).Pc(r.Cur(c)) == ExitHeld
  {
  }
}
