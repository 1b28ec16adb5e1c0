/** Semaphores and the scheduler on any number of CPUs: processes with a program counter
    each, semaphore locks and the run-queue lock, every interleaving of wait, post, alert,
    yield, exit and start (src/common/sem.c, src/kernel/sched.c). */
module SleepWake {

  datatype Option<T> = None | Some(value: T)

  /** The idle process of a CPU, or any other process. */
  datatype Proc = Idle(cpu: nat) | User(pid: nat)

  datatype ProcState = Unused | Runnable | Running | Sleeping | DeepSleeping | Zombie

  /** What a post is part of: post_sem, or post_all_sem with its counter; `val0` and
      `start` are the value and the waiters when it took the lock. */
  datatype Job = One | All(ret: int, val0: int, start: seq<Proc>)

  /** Where a process is in the code. */
  datatype Pc =
    | Fresh                                // never ran; starts by releasing the run lock
    | Outside                              // in no modelled function
    | Dead
    | Switched                             // switched out by a yield
    | YieldHeld | ExitHeld                 // holds the run lock, about to switch
    | WaitLocked(sem: nat, alert: bool)    // holds the semaphore's lock, before --val
    | WaitListed(sem: nat, alert: bool)    // its record is listed, about to take the run lock
    | WaitBoth(sem: nat, alert: bool)      // holds both locks
    | WaitSched(sem: nat, alert: bool)     // holds the run lock, about to switch
    | WaitSwitched(sem: nat, alert: bool)  // switched out
    | WaitWoken(sem: nat, alert: bool)     // back, about to take the semaphore's lock
    | WaitCheck(sem: nat, alert: bool)     // holds it, about to look at `up`
    | PostLocked(sem: nat, job: Job)       // holds the semaphore's lock, before ++val
    | PostWake(sem: nat, target: Proc, job: Job)  // has picked a waiter, about to activate it
    | PostAfter(sem: nat, job: Job)        // _post_sem is over

  /** The last result a process got. */
  datatype Result = Nothing | Waited(ok: bool, alert: bool) | PostedAll(ret: int, val0: int, start: seq<Proc>)

  datatype State = State(
    ncpu: nat,
    cur: map<nat, Proc>,          // cpus[i].sched.thisproc
    st: map<Proc, ProcState>,
    pc: map<Proc, Pc>,
    on: map<Proc, nat>,           // the CPU a running process is on
    queue: seq<Proc>,             // runnable_queue, head first
    runLock: Option<nat>,         // the CPU that holds the run lock
    val: map<nat, int>,
    list: map<nat, seq<Proc>>,    // sleeplist, head first
    semLock: map<nat, Proc>,      // holders of semaphore locks
    up: set<Proc>,                // WaitData.up
    ticket: map<Proc, nat>,       // when the process was listed
    clock: nat,
    result: map<Proc, Result>,
    fault: bool)                  // an ASSERT has failed
  {
    function Cur(c: nat): Proc { if c in cur then cur[c] else Idle(c) }
    function St(p: Proc): ProcState { if p in st then st[p] else Unused }
    function Pc(p: Proc): Pc { if p in pc then pc[p] else Fresh }
    function On(p: Proc): nat { if p in on then on[p] else 0 }
    function Val(x: nat): int { if x in val then val[x] else 0 }
    function List(x: nat): seq<Proc> { if x in list then list[x] else [] }
    function Ticket(p: Proc): nat { if p in ticket then ticket[p] else 0 }
    function Res(p: Proc): Result { if p in result then result[p] else Nothing }
    /** CPU `c` runs `p`, which is at `l`. */
    predicate At(c: nat, p: Proc, l: Pc) { c < ncpu && Cur(c) == p && Pc(p) == l }
  }

  // ---------- pieces of the code ----------

  /** The processes of `q` other than `p`, in order. */
  function Without(q: seq<Proc>, p: Proc): (r: seq<Proc>)
    ensures forall x :: x in r <==> x in q && x != p
    ensures |r| <= |q|
  {
    if q == [] then [] else
      assert forall x :: x in q <==> x == q[0] || x in q[1..];
      if q[0] == p then Without(q[1..], p) else [q[0]] + Without(q[1..], p)
  }

  /** pick_next: the first runnable process of the queue, or the CPU's idle process. */
  function PickNext(s: State, q: seq<Proc>, c: nat): (p: Proc)
    ensures p == Idle(c) || (p in q && s.St(p) == Runnable)
  {
    if q == [] then Idle(c)
    else if s.St(q[0]) == Runnable then q[0]
    else PickNext(s, q[1..], c)
  }

  /** _activate_proc. */
  function Activate(s: State, p: Proc, onalert: bool): (r: State) {
    if s.St(p) == Sleeping || s.St(p) == Unused || (s.St(p) == DeepSleeping && !onalert)
    then s.(st := s.st[p := Runnable], queue := [p] + s.queue)
    else s
  }

  /** update_this_state, the current process `p` being about to leave the CPU at `l`. */
  function UpdateState(s: State, p: Proc, new_: ProcState, l: Pc): (r: State) {
    s.(st := s.st[p := new_], pc := s.pc[p := l],
       queue := if new_ == Sleeping || new_ == Zombie || new_ == DeepSleeping then Without(s.queue, p) else s.queue)
  }

  /** update_this_proc and the new process's state, with the second ASSERT of simple_sched. */
  function GiveCpu(s: State, c: nat, next: Proc): (r: State) {
    s.(fault := s.fault || !(s.St(next) == Runnable || next.Idle?),
       cur := s.cur[c := next], st := s.st[next := Running], on := s.on[next := c])
  }

  /** simple_sched up to the switch of stacks; the run lock stays held. */
  function Switch(s: State, c: nat, p: Proc, new_: ProcState, l: Pc): (r: State) {
    var s1 := UpdateState(s.(fault := s.fault || s.St(p) != Running), p, new_, l);
    GiveCpu(s1, c, PickNext(s1, s1.queue, c))
  }

  datatype Act =
    | WaitEnter(c: nat, x: nat, alert: bool)
    | WaitDec(c: nat)
    | WaitTakeRun(c: nat)
    | WaitDropSem(c: nat)
    | WaitSleep(c: nat)
    | Resume(c: nat)
    | WaitRelock(c: nat)
    | WaitFinish(c: nat)
    | PostEnter(c: nat, x: nat, all: bool)
    | PostInc(c: nat)
    | PostActivate(c: nat)
    | PostNext(c: nat)
    | TryGet(c: nat, x: nat)
    | DrainAll(c: nat, x: nat)
    | Alert(c: nat, target: Proc)
    | Start(c: nat, target: Proc)
    | YieldEnter(c: nat)
    | YieldSwitch(c: nat)
    | ExitEnter(c: nat)
    | ExitSwitch(c: nat)

  // ---------- _wait_sem ----------

  function DoWaitEnter(s: State, c: nat, x: nat, alert: bool): (r: State) {
    var p := s.Cur(c);
    if s.Pc(p) != Outside || p.Idle? || x in s.semLock then s
    else s.(semLock := s.semLock[x := p], pc := s.pc[p := WaitLocked(x, alert)])
  }

  function DoWaitDec(s: State, c: nat): (r: State) {
    var p := s.Cur(c);
    match s.Pc(p)
    case WaitLocked(x, alert) =>
      var v := s.Val(x) - 1;
      if v >= 0 then
        s.(val := s.val[x := v], semLock := s.semLock - {x}, pc := s.pc[p := Outside],
           result := s.result[p := Waited(true, alert)])
      else
        s.(val := s.val[x := v], list := s.list[x := [p] + s.List(x)], up := s.up - {p},
           ticket := s.ticket[p := s.clock], clock := s.clock + 1, pc := s.pc[p := WaitListed(x, alert)])
    case _ => s
  }

  function DoWaitTakeRun(s: State, c: nat): (r: State) {
    var p := s.Cur(c);
    match s.Pc(p)
    case WaitListed(x, alert) =>
      if s.runLock.Some? then s else s.(runLock := Some(c), pc := s.pc[p := WaitBoth(x, alert)])
    case _ => s
  }

  function DoWaitDropSem(s: State, c: nat): (r: State) {
    var p := s.Cur(c);
    match s.Pc(p)
    case WaitBoth(x, alert) => s.(semLock := s.semLock - {x}, pc := s.pc[p := WaitSched(x, alert)])
    case _ => s
  }

  function DoWaitSleep(s: State, c: nat): (r: State) {
    var p := s.Cur(c);
    match s.Pc(p)
    case WaitSched(x, alert) => Switch(s, c, p, if alert then Sleeping else DeepSleeping, WaitSwitched(x, alert))
    case _ => s
  }

  /** The end of simple_sched, or proc_entry: the run lock is released. */
  function DoResume(s: State, c: nat): (r: State) {
    var p := s.Cur(c);
    if s.runLock != Some(c) then s else
    match s.Pc(p)
    case WaitSwitched(x, alert) => s.(runLock := None, pc := s.pc[p := WaitWoken(x, alert)])
    case Switched => s.(runLock := None, pc := s.pc[p := Outside])
    case Fresh => s.(runLock := None, pc := s.pc[p := Outside])
    case _ => s
  }

  function DoWaitRelock(s: State, c: nat): (r: State) {
    var p := s.Cur(c);
    match s.Pc(p)
    case WaitWoken(x, alert) =>
      if x in s.semLock then s else s.(semLock := s.semLock[x := p], pc := s.pc[p := WaitCheck(x, alert)])
    case _ => s
  }

  function DoWaitFinish(s: State, c: nat): (r: State) {
    var p := s.Cur(c);
    match s.Pc(p)
    case WaitCheck(x, alert) =>
      var s1 := s.(semLock := s.semLock - {x}, pc := s.pc[p := Outside], up := s.up - {p},
                   result := s.result[p := Waited(p in s.up, alert)]);
      if p in s.up then s1
      else s1.(val := s.val[x := s.Val(x) + 1], fault := s.fault || s.Val(x) + 1 > 0,
               list := s.list[x := Without(s.List(x), p)])
    case _ => s
  }

  // ---------- _post_sem, post_all_sem, get_sem, get_all_sem ----------

  function DoPostEnter(s: State, c: nat, x: nat, all: bool): (r: State) {
    var p := s.Cur(c);
    if s.Pc(p) != Outside || x in s.semLock then s
    else s.(semLock := s.semLock[x := p],
            pc := s.pc[p := PostLocked(x, if all then All(-1, s.Val(x), s.List(x)) else One)])
  }

  function DoPostInc(s: State, c: nat): (r: State) {
    var p := s.Cur(c);
    match s.Pc(p)
    case PostLocked(x, job) =>
      var v, l := s.Val(x) + 1, s.List(x);
      if v > 0 then s.(val := s.val[x := v], pc := s.pc[p := PostAfter(x, job)])
      else if l == [] then s.(val := s.val[x := v], fault := true)
      else
        var t := l[|l| - 1];
        s.(val := s.val[x := v], list := s.list[x := l[..|l| - 1]], up := s.up + {t},
           pc := s.pc[p := PostWake(x, t, job)])
    case _ => s
  }

  function DoPostActivate(s: State, c: nat): (r: State) {
    var p := s.Cur(c);
    match s.Pc(p)
    case PostWake(x, t, job) =>
      if s.runLock.Some? then s else Activate(s.(pc := s.pc[p := PostAfter(x, job)]), t, false)
    case _ => s
  }

  function DoPostNext(s: State, c: nat): (r: State) {
    var p := s.Cur(c);
    match s.Pc(p)
    case PostAfter(x, One) => s.(semLock := s.semLock - {x}, pc := s.pc[p := Outside])
    case PostAfter(x, All(ret, val0, start)) =>
      if s.Val(x) > 0 then
        s.(val := s.val[x := s.Val(x) - 1], semLock := s.semLock - {x}, pc := s.pc[p := Outside],
           result := s.result[p := PostedAll(ret + 1, val0, start)])
      else s.(pc := s.pc[p := PostLocked(x, All(ret + 1, val0, start))])
    case _ => s
  }

  function DoTryGet(s: State, c: nat, x: nat): (r: State) {
    if s.Pc(s.Cur(c)) != Outside || x in s.semLock || s.Val(x) <= 0 then s
    else s.(val := s.val[x := s.Val(x) - 1])
  }

  function DoDrainAll(s: State, c: nat, x: nat): (r: State) {
    if s.Pc(s.Cur(c)) != Outside || x in s.semLock || s.Val(x) <= 0 then s
    else s.(val := s.val[x := 0])
  }

  // ---------- other uses of the scheduler ----------

  function DoAlert(s: State, c: nat, target: Proc): (r: State) {
    if s.Pc(s.Cur(c)) != Outside || s.runLock.Some? || s.St(target) == Unused then s
    else Activate(s, target, true)
  }

  function DoStart(s: State, c: nat, target: Proc): (r: State) {
    if s.Pc(s.Cur(c)) != Outside || s.runLock.Some? || s.St(target) != Unused || target.Idle? then s
    else Activate(s, target, false)
  }

  function DoYieldEnter(s: State, c: nat): (r: State) {
    var p := s.Cur(c);
    if s.Pc(p) != Outside || s.runLock.Some? then s
    else s.(runLock := Some(c), pc := s.pc[p := YieldHeld])
  }

  function DoYieldSwitch(s: State, c: nat): (r: State) {
    var p := s.Cur(c);
    if s.Pc(p) != YieldHeld then s else Switch(s, c, p, Runnable, Switched)
  }

  function DoExitEnter(s: State, c: nat): (r: State) {
    var p := s.Cur(c);
    if s.Pc(p) != Outside || s.runLock.Some? || p.Idle? then s
    else s.(runLock := Some(c), pc := s.pc[p := ExitHeld])
  }

  function DoExitSwitch(s: State, c: nat): (r: State) {
    var p := s.Cur(c);
    if s.Pc(p) != ExitHeld then s else Switch(s, c, p, Zombie, Dead)
  }

  /** One step of CPU `a.c`; a step that cannot be taken leaves the state as it is. */
  function Do(s: State, a: Act): (r: State) {
    if a.c >= s.ncpu then s else
    match a
    case WaitEnter(c, x, alert) => DoWaitEnter(s, c, x, alert)
    case WaitDec(c) => DoWaitDec(s, c)
    case WaitTakeRun(c) => DoWaitTakeRun(s, c)
    case WaitDropSem(c) => DoWaitDropSem(s, c)
    case WaitSleep(c) => DoWaitSleep(s, c)
    case Resume(c) => DoResume(s, c)
    case WaitRelock(c) => DoWaitRelock(s, c)
    case WaitFinish(c) => DoWaitFinish(s, c)
    case PostEnter(c, x, all) => DoPostEnter(s, c, x, all)
    case PostInc(c) => DoPostInc(s, c)
    case PostActivate(c) => DoPostActivate(s, c)
    case PostNext(c) => DoPostNext(s, c)
    case TryGet(c, x) => DoTryGet(s, c, x)
    case DrainAll(c, x) => DoDrainAll(s, c, x)
    case Alert(c, target) => DoAlert(s, c, target)
    case Start(c, target) => DoStart(s, c, target)
    case YieldEnter(c) => DoYieldEnter(s, c)
    case YieldSwitch(c) => DoYieldSwitch(s, c)
    case ExitEnter(c) => DoExitEnter(s, c)
    case ExitSwitch(c) => DoExitSwitch(s, c)
  }

  function Run(s: State, acts: seq<Act>): (r: State)
    decreases |acts|
  {
    if acts == [] then s else Do(Run(s, acts[..|acts| - 1]), acts[|acts| - 1])
  }

  /** Boot: every CPU runs its idle process, nothing is locked or waiting. */
  ghost predicate Init(s: State) {
    && (forall c: nat :: c < s.ncpu ==>
          s.Cur(c) == Idle(c) && s.St(Idle(c)) == Running && s.Pc(Idle(c)) == Outside && s.On(Idle(c)) == c)
    && (forall p: Proc :: (s.Pc(p) == Fresh && s.St(p) == Unused) || (p.Idle? && p.cpu < s.ncpu))
    && s.queue == [] && s.runLock == None && s.semLock == map[] && s.list == map[] && s.up == {}
    && (forall x: nat :: s.Val(x) >= 0)
    && (forall p: Proc :: s.Res(p) == Nothing)
    && !s.fault
  }

  // ---------- the scheduler's invariant ----------

  ghost predicate NoDup(q: seq<Proc>) {
    forall i, j :: 0 <= i < j < |q| ==> q[i] != q[j]
  }

  predicate Parked(l: Pc) { l.Fresh? || l.Switched? || l.WaitSwitched? }

  predicate HoldsRun(l: Pc) { l.YieldHeld? || l.ExitHeld? || l.WaitBoth? || l.WaitSched? }

  /** Its wait record exists and it has not returned. */
  predicate InWait(l: Pc) {
    l.WaitListed? || l.WaitBoth? || l.WaitSched? || l.WaitSwitched? || l.WaitWoken? || l.WaitCheck?
  }

  predicate HoldsSem(l: Pc) {
    l.WaitLocked? || l.WaitListed? || l.WaitBoth? || l.WaitCheck? || l.PostLocked? || l.PostWake? || l.PostAfter?
  }

  predicate Asleep(t: ProcState) { t == Sleeping || t == DeepSleeping }

  predicate Ready(t: ProcState) { t == Runnable || t == Running }

  /** The states a process can be in at a point of the code. */
  predicate Fits(t: ProcState, l: Pc) {
    match t
    case Unused => l == Fresh
    case Runnable => Parked(l)
    case Running => l != Dead
    case Sleeping => l.WaitSwitched? && l.alert
    case DeepSleeping => l.WaitSwitched? && !l.alert
    case Zombie => l == Dead
  }

  /** A process is running exactly when it is the current process of exactly one CPU. */
  ghost predicate CpusOk(s: State) {
    && (forall c: nat :: c < s.ncpu ==> s.St(s.Cur(c)) == Running && s.On(s.Cur(c)) == c)
    && (forall p: Proc :: s.St(p) == Running ==> s.On(p) < s.ncpu && s.Cur(s.On(p)) == p)
  }

  /** The run queue holds exactly the ready processes other than idle ones, once each. */
  ghost predicate QueueOk(s: State) {
    && NoDup(s.queue)
    && (forall p: Proc :: p in s.queue <==> p.User? && Ready(s.St(p)))
  }

  /** Idle processes neither wait nor exit. */
  predicate IdleMay(l: Pc) { !InWait(l) && !l.WaitLocked? && !l.ExitHeld? }

  ghost predicate IdleOk(s: State) {
    && (forall c: nat ::
          && (c < s.ncpu ==> Ready(s.St(Idle(c))))
          && (c >= s.ncpu ==> s.St(Idle(c)) == Unused)
          && (s.St(Idle(c)) == Running ==> s.On(Idle(c)) == c))
    && (forall p: Proc :: p.Idle? ==> IdleMay(s.Pc(p)))
  }

  ghost predicate PlacesOk(s: State) {
    forall p: Proc :: Fits(s.St(p), s.Pc(p))
  }

  /** Who holds the run lock. */
  ghost predicate RunLockOk(s: State) {
    && (forall p: Proc :: s.St(p) == Running && (Parked(s.Pc(p)) || HoldsRun(s.Pc(p))) ==> s.runLock == Some(s.On(p)))
    && (s.runLock.Some? ==>
          && s.runLock.value < s.ncpu
          && (Parked(s.Pc(s.Cur(s.runLock.value))) || HoldsRun(s.Pc(s.Cur(s.runLock.value)))))
  }

  ghost predicate SchedInv(s: State) {
    CpusOk(s) && QueueOk(s) && IdleOk(s) && PlacesOk(s) && RunLockOk(s)
  }

  // ---------- the semaphores' invariant ----------

  ghost predicate SemLocksOk(s: State) {
    && (forall p: Proc :: HoldsSem(s.Pc(p)) ==> s.Pc(p).sem in s.semLock && s.semLock[s.Pc(p).sem] == p)
    && (forall x: nat :: x in s.semLock ==> HoldsSem(s.Pc(s.semLock[x])) && s.Pc(s.semLock[x]).sem == x)
  }

  /** A semaphore's list holds exactly the processes that wait on it and were not posted. */
  ghost predicate ListsOk(s: State) {
    && (forall x: nat, p: Proc :: p in s.List(x) <==> InWait(s.Pc(p)) && s.Pc(p).sem == x && p !in s.up)
    && (forall x: nat :: NoDup(s.List(x)))
    && (forall x: nat :: |s.List(x)| == if s.Val(x) < 0 then -s.Val(x) else 0)
    && (forall p: Proc :: p in s.up ==> MayBeUp(s.Pc(p)))
  }

  /** A listed process cannot be posted before it lets go of the semaphore's lock. */
  predicate MayBeUp(l: Pc) { l.WaitSched? || l.WaitSwitched? || l.WaitWoken? || l.WaitCheck? }

  /** No lost wake-up: a posted process that sleeps, or is about to, has a poster on its way. */
  ghost predicate WakesOk(s: State) {
    && (forall p: Proc :: s.Pc(p).PostWake? ==>
          s.Pc(p).target in s.up && InWait(s.Pc(s.Pc(p).target)) && s.Pc(s.Pc(p).target).sem == s.Pc(p).sem)
    && (forall p: Proc :: p in s.up && (Asleep(s.St(p)) || s.Pc(p).WaitSched?) ==> WakerComes(s, p))
  }

  ghost predicate WakerComes(s: State, p: Proc) {
    && InWait(s.Pc(p))
    && s.Pc(p).sem in s.semLock
    && s.Pc(s.semLock[s.Pc(p).sem]).PostWake?
    && s.Pc(s.semLock[s.Pc(p).sem]).target == p
  }

  /** An unalertable wait goes on only after a post. */
  ghost predicate DeepOk(s: State) {
    forall p: Proc ::
      (s.Pc(p).WaitSwitched? && Ready(s.St(p))) || s.Pc(p).WaitWoken? || s.Pc(p).WaitCheck?
      ==> s.Pc(p).alert || p in s.up
  }

  /** Lists are ordered by age, the oldest waiter last. */
  ghost predicate AgesOk(s: State) {
    && (forall x: nat, i, j :: 0 <= i < j < |s.List(x)| ==> s.Ticket(s.List(x)[i]) > s.Ticket(s.List(x)[j]))
    && (forall x: nat, i :: 0 <= i < |s.List(x)| ==> s.Ticket(s.List(x)[i]) < s.clock)
  }

  /** The number of posts a post_all_sem has made by this point. */
  function Posts(l: Pc): (n: int)
    requires (l.PostLocked? || l.PostWake? || l.PostAfter?) && l.job.All?
  {
    if l.PostLocked? then l.job.ret + 1 else l.job.ret + 2
  }

  /** A post_all_sem in progress: the youngest of its waiters are still listed, the others
      were all posted. */
  ghost predicate SweepOk(s: State, l: Pc)
    requires (l.PostLocked? || l.PostWake? || l.PostAfter?) && l.job.All?
  {
    var start, n := l.job.start, Posts(l);
    && |start| == (if l.job.val0 < 0 then -l.job.val0 else 0)
    && (if l.PostLocked? then 0 else 1) <= n <= |start| + (if l.PostAfter? then 1 else 0)
    && s.Val(l.sem) == l.job.val0 + n
    && s.List(l.sem) == (if n <= |start| then start[..|start| - n] else [])
    && (forall i {:trigger start[i]} :: 0 <= i < |start| && i >= |start| - n ==>
          start[i] in s.up && InWait(s.Pc(start[i])) && s.Pc(start[i]).sem == l.sem)
  }

  ghost predicate SweepsOk(s: State) {
    forall p: Proc :: (s.Pc(p).PostLocked? || s.Pc(p).PostWake? || s.Pc(p).PostAfter?) && s.Pc(p).job.All?
      ==> SweepOk(s, s.Pc(p))
  }

  ghost predicate ResultsOk(s: State) {
    forall p: Proc ::
      && (s.Res(p).Waited? ==> s.Res(p).alert || s.Res(p).ok)
      && (s.Res(p).PostedAll? ==> s.Res(p).ret == |s.Res(p).start|)
  }

  ghost predicate SemInv(s: State) {
    SemLocksOk(s) && ListsOk(s) && WakesOk(s) && DeepOk(s) && AgesOk(s) && SweepsOk(s) && ResultsOk(s)
  }

  ghost predicate Inv(s: State) {
    SchedInv(s) && SemInv(s) && !s.fault
  }

  // ---------- what the steps do to the scheduler ----------

  predicate NeedsRun(l: Pc) { Parked(l) || HoldsRun(l) }

  ghost predicate SameSched(s: State, s': State) {
    s'.ncpu == s.ncpu && s'.cur == s.cur && s'.st == s.st && s'.on == s.on && s'.queue == s.queue
  }

  /** The current process of `c` moves on; it may take or release the run lock. */
  lemma SchedMove(s: State, s': State, c: nat, l: Pc)
    requires SchedInv(s) && c < s.ncpu
    requires SameSched(s, s') && s'.pc == s.pc[s.Cur(c) := l]
    requires l != Dead && (s.Cur(c).Idle? ==> IdleMay(l))
    requires s'.runLock == s.runLock ==> NeedsRun(l) == NeedsRun(s.Pc(s.Cur(c)))
    requires s'.runLock != s.runLock ==>
      || (s.runLock == None && s'.runLock == Some(c) && NeedsRun(l))
      || (s.runLock == Some(c) && s'.runLock == None && !NeedsRun(l))
    ensures SchedInv(s')
  {
    var p := s.Cur(c);
    assert forall q :: s'.St(q) == s.St(q) && s'.On(q) == s.On(q);
    assert forall q :: s'.Pc(q) == if q == p then l else s.Pc(q);
    assert forall d :: s'.Cur(d) == s.Cur(d);
  }

  /** _activate_proc. */
  lemma ActivateSched(s: State, p: Proc, onalert: bool)
    requires SchedInv(s) && (s.St(p) == Unused ==> p.User?)
    ensures SchedInv(Activate(s, p, onalert))
  {
    var s' := Activate(s, p, onalert);
    if s' != s {
      assert !Ready(s.St(p));
      assert p.User?;
      assert p !in s.queue;
      assert forall q :: s'.St(q) == if q == p then Runnable else s.St(q);
      assert forall d :: s'.Cur(d) == s.Cur(d);
      assert forall q :: s'.Pc(q) == s.Pc(q);
      ConsNoDup(p, s.queue);
      hide NoDup;
      assert CpusOk(s') && IdleOk(s') && PlacesOk(s') && RunLockOk(s');
    }
  }

  lemma ConsNoDup(p: Proc, q: seq<Proc>)
    requires p !in q && NoDup(q)
    ensures NoDup([p] + q)
    ensures forall r :: r in [p] + q <==> r == p || r in q
  {
    var z := [p] + q;
    forall i, j | 0 <= i < j < |z| ensures z[i] != z[j] {
      assert z[j] == q[j - 1];
      if i > 0 { assert z[i] == q[i - 1]; }
    }
  }

  lemma {:induction false} WithoutNoDup(q: seq<Proc>, p: Proc)
    requires NoDup(q)
    ensures NoDup(Without(q, p))
    ensures p !in q ==> Without(q, p) == q
    ensures p in q ==> |Without(q, p)| == |q| - 1
  {
    if q != [] {
      WithoutNoDup(q[1..], p);
      if q[0] == p {
        assert p !in q[1..];
      } else {
        assert q == [q[0]] + q[1..];
        assert q[0] !in Without(q[1..], p);
        ConsNoDup(q[0], Without(q[1..], p));
      }
    }
  }

  /** pick_next finds idle only when nothing in the queue is runnable. */
  lemma {:induction false} PickNextIdle(s: State, q: seq<Proc>, c: nat)
    requires (forall p :: p in q ==> p.User?) && PickNext(s, q, c).Idle?
    ensures forall p :: p in q ==> s.St(p) != Runnable
  {
    if q != [] {
      assert q[0] in q;
      PickNextIdle(s, q[1..], c);
    }
  }

  /** What a switch from `p` to `next` on CPU `c` leaves behind. */
  ghost predicate SwitchedTo(s: State, s': State, c: nat, next: Proc, new_: ProcState, l: Pc) {
    var p := s.Cur(c);
    && s'.ncpu == s.ncpu && s'.runLock == s.runLock
    && (forall r :: s'.St(r) == if r == next then Running else if r == p then new_ else s.St(r))
    && (forall r :: s'.Pc(r) == if r == p then l else s.Pc(r))
    && (forall d: nat :: s'.Cur(d) == if d == c then next else s.Cur(d))
    && (forall r :: s'.On(r) == if r == next then c else s.On(r))
    && (if next == p then new_ == Runnable else s.St(next) == Runnable)
    && (next.Idle? ==> next.cpu == c)
    && NoDup(s'.queue)
    && (forall r :: r in s'.queue <==> r in s.queue && (r == p ==> new_ == Runnable))
  }

  /** pick_next's choice after the current process changed its state is runnable. */
  lemma {:induction false} NextIsRunnable(s: State, s1: State, c: nat, q: seq<Proc>, new_: ProcState)
    requires CpusOk(s) && IdleOk(s) && c < s.ncpu
    requires new_ == Runnable || s.Cur(c).User?
    requires forall r :: s1.St(r) == if r == s.Cur(c) then new_ else s.St(r)
    ensures s1.St(PickNext(s1, q, c)) == Runnable
  {
    var next := PickNext(s1, q, c);
    if next == Idle(c) { assert s.St(next) == Running ==> s.On(next) == c; }
  }

  lemma UpdateView(s: State, p: Proc, new_: ProcState, l: Pc)
    requires QueueOk(s) && (new_ == Runnable || Asleep(new_) || new_ == Zombie)
    ensures var s1 := UpdateState(s, p, new_, l);
      && s1 == s.(st := s1.st, pc := s1.pc, queue := s1.queue)
      && (forall r :: s1.St(r) == if r == p then new_ else s.St(r))
      && (forall r :: s1.Pc(r) == if r == p then l else s.Pc(r))
      && NoDup(s1.queue)
      && (forall r :: r in s1.queue <==> r in s.queue && (r == p ==> new_ == Runnable))
  {
    WithoutNoDup(s.queue, p);
  }

  lemma GiveView(s: State, c: nat, next: Proc)
    requires s.St(next) == Runnable
    ensures var s' := GiveCpu(s, c, next);
      && s' == s.(cur := s'.cur, st := s'.st, on := s'.on)
      && (forall r :: s'.St(r) == if r == next then Running else s.St(r))
      && (forall r :: s'.Pc(r) == s.Pc(r))
      && (forall d: nat :: s'.Cur(d) == if d == c then next else s.Cur(d))
      && (forall r :: s'.On(r) == if r == next then c else s.On(r))
  {
  }

  /** Neither ASSERT of simple_sched fails. */
  lemma SwitchParts(s: State, c: nat, new_: ProcState, l: Pc) returns (s1: State, next: Proc)
    requires CpusOk(s) && IdleOk(s) && QueueOk(s) && c < s.ncpu
    requires new_ == Runnable || (s.Cur(c).User? && (Asleep(new_) || new_ == Zombie))
    ensures s1 == UpdateState(s, s.Cur(c), new_, l)
    ensures Switch(s, c, s.Cur(c), new_, l) == GiveCpu(s1, c, next)
    ensures s1.St(next) == Runnable && (next.Idle? ==> next.cpu == c)
  {
    var p := s.Cur(c);
    assert s.(fault := s.fault || s.St(p) != Running) == s;
    s1 := UpdateState(s, p, new_, l);
    next := PickNext(s1, s1.queue, c);
    UpdateView(s, p, new_, l);
    hide GiveCpu, UpdateState;
    NextIsRunnable(s, s1, c, s1.queue, new_);
    assert next in s1.queue ==> next.User?;
  }

  lemma SwitchView(s: State, s': State, c: nat, new_: ProcState, l: Pc)
    requires CpusOk(s) && IdleOk(s) && QueueOk(s) && c < s.ncpu
    requires new_ == Runnable || (s.Cur(c).User? && (Asleep(new_) || new_ == Zombie))
    requires s' == Switch(s, c, s.Cur(c), new_, l)
    ensures SwitchedTo(s, s', c, s'.Cur(c), new_, l)
    ensures s'.fault == s.fault
  {
    hide Switch, GiveCpu, UpdateState, CpusOk, IdleOk, QueueOk, NoDup;
    var s1, next := SwitchParts(s, c, new_, l);
    UpdateView(s, s.Cur(c), new_, l);
    GiveView(s1, c, next);
    assert forall d: nat :: s1.Cur(d) == s.Cur(d);
    assert forall r :: s1.On(r) == s.On(r);
  }

  lemma SwitchKeeps(s: State, s': State, c: nat, next: Proc, new_: ProcState, l: Pc)
    requires CpusOk(s) && IdleOk(s) && c < s.ncpu
    requires new_ == Runnable || (s.Cur(c).User? && (Asleep(new_) || new_ == Zombie))
    requires s.Cur(c).Idle? ==> IdleMay(l)
    requires SwitchedTo(s, s', c, next, new_, l)
    ensures CpusOk(s') && IdleOk(s')
  {
    hide NoDup;
  }

  lemma SwitchKeepsQueue(s: State, s': State, c: nat, next: Proc, new_: ProcState, l: Pc)
    requires CpusOk(s) && QueueOk(s) && PlacesOk(s) && c < s.ncpu
    requires new_ == Runnable || (s.Cur(c).User? && (Asleep(new_) || new_ == Zombie))
    requires Fits(new_, l)
    requires SwitchedTo(s, s', c, next, new_, l)
    ensures QueueOk(s') && PlacesOk(s')
  {
    assert s.St(s.Cur(c)) == Running;
    hide NoDup, CpusOk;
  }

  lemma SwitchKeepsRunLock(s: State, s': State, c: nat, next: Proc, new_: ProcState, l: Pc)
    requires CpusOk(s) && PlacesOk(s) && RunLockOk(s) && c < s.ncpu && s.runLock == Some(c)
    requires Fits(new_, l)
    requires SwitchedTo(s, s', c, next, new_, l)
    ensures RunLockOk(s')
  {
    hide NoDup;
    var p := s.Cur(c);
    assert Parked(s'.Pc(next)) && s'.Cur(c) == next && s'.On(next) == c;
    forall r | s'.St(r) == Running && NeedsRun(s'.Pc(r)) ensures s'.On(r) == c {
      if r != next {
        assert r != p ==> s.On(r) == c && s.Cur(c) == r;
      }
    }
  }

  /** simple_sched: neither ASSERT fails, and the next process gets the CPU. */
  lemma SwitchSched(s: State, c: nat, new_: ProcState, l: Pc)
    requires SchedInv(s) && c < s.ncpu && s.runLock == Some(c)
    requires new_ == Runnable || (s.Cur(c).User? && (Asleep(new_) || new_ == Zombie))
    requires Fits(new_, l) && (s.Cur(c).Idle? ==> IdleMay(l))
    ensures SchedInv(Switch(s, c, s.Cur(c), new_, l))
    ensures Switch(s, c, s.Cur(c), new_, l).fault == s.fault
  {
    var s' := Switch(s, c, s.Cur(c), new_, l);
    hide Switch, CpusOk, QueueOk, IdleOk, PlacesOk, RunLockOk, SwitchedTo;
    SwitchView(s, s', c, new_, l);
    SwitchKeeps(s, s', c, s'.Cur(c), new_, l);
    SwitchKeepsQueue(s, s', c, s'.Cur(c), new_, l);
    SwitchKeepsRunLock(s, s', c, s'.Cur(c), new_, l);
  }

  // ---------- what the steps do to the semaphores ----------

  predicate Posting(l: Pc) { l.PostLocked? || l.PostWake? || l.PostAfter? }

  /** `p` is at `l` in `s'`, every other process is where it was. */
  ghost predicate Moved(s: State, s': State, p: Proc, l: Pc) {
    forall q :: s'.Pc(q) == if q == p then l else s.Pc(q)
  }

  /** The semaphore locks after the move. */
  ghost predicate LocksMoved(s: State, s': State, p: Proc, l: Pc) {
    var was := s.Pc(p);
    if HoldsSem(l) then
      && s'.semLock == s.semLock[l.sem := p]
      && (if HoldsSem(was) then was.sem == l.sem else l.sem !in s.semLock)
    else s'.semLock == if HoldsSem(was) then s.semLock - {was.sem} else s.semLock
  }

  lemma LocksKept(s: State, s': State, p: Proc, l: Pc)
    requires SemLocksOk(s) && Moved(s, s', p, l) && LocksMoved(s, s', p, l)
    ensures SemLocksOk(s')
  {
    assert s'.Pc(p) == l;
    forall q: Proc | HoldsSem(s'.Pc(q)) ensures s'.Pc(q).sem in s'.semLock && s'.semLock[s'.Pc(q).sem] == q {
      assert q != p ==> s'.Pc(q) == s.Pc(q);
    }
    forall x: nat | x in s'.semLock ensures HoldsSem(s'.Pc(s'.semLock[x])) && s'.Pc(s'.semLock[x]).sem == x {
      assert s'.semLock[x] != p ==> x in s.semLock && s'.Pc(s'.semLock[x]) == s.Pc(s.semLock[x]);
    }
  }

  ghost predicate SameLists(s: State, s': State) {
    s'.list == s.list && s'.up == s.up && s'.ticket == s.ticket && s'.clock == s.clock
  }

  predicate SameWait(l: Pc, l': Pc) {
    InWait(l) == InWait(l') && (InWait(l) ==> l.sem == l'.sem && l.alert == l'.alert)
  }

  lemma ListsKept(s: State, s': State)
    requires ListsOk(s) && AgesOk(s) && SameLists(s, s')
    requires forall x :: s'.Val(x) == s.Val(x) || (s.Val(x) >= 0 && s'.Val(x) >= 0)
    requires forall q :: SameWait(s.Pc(q), s'.Pc(q)) && (MayBeUp(s.Pc(q)) ==> MayBeUp(s'.Pc(q)))
    ensures ListsOk(s') && AgesOk(s')
  {
    assert forall x :: s'.List(x) == s.List(x);
    assert forall q :: s'.Ticket(q) == s.Ticket(q);
  }

  /** Sweeps of others than `p` go on when their own semaphore is untouched and their
      waiters stay. */
  lemma SweepsKept(s: State, s': State, p: Proc)
    requires SweepsOk(s)
    requires forall q :: q != p && Posting(s'.Pc(q)) && s'.Pc(q).job.All? ==>
      var l := s.Pc(q);
      s'.Pc(q) == l && s'.Val(l.sem) == s.Val(l.sem) && s'.List(l.sem) == s.List(l.sem)
    requires Posting(s'.Pc(p)) && s'.Pc(p).job.All? ==> SweepOk(s', s'.Pc(p))
    requires forall q :: q in s.up && InWait(s.Pc(q)) ==>
      || (q in s'.up && SameWait(s.Pc(q), s'.Pc(q)))
      || (forall r :: Posting(s.Pc(r)) ==> s.Pc(r).sem != s.Pc(q).sem)
    ensures SweepsOk(s')
  {
    forall q | q != p && Posting(s'.Pc(q)) && s'.Pc(q).job.All? ensures SweepOk(s', s'.Pc(q)) {
      assert SweepOk(s, s.Pc(q));
    }
  }

  lemma ResultsKept(s: State, s': State)
    requires ResultsOk(s) && s'.result == s.result
    ensures ResultsOk(s')
  {
    assert forall q :: s'.Res(q) == s.Res(q);
  }

  predicate Plain(l: Pc) { !InWait(l) && !HoldsSem(l) }

  /** Steps of the scheduler alone. */
  lemma PlainKept(s: State, s': State, p: Proc)
    requires SemInv(s) && SameLists(s, s') && s'.val == s.val && s'.semLock == s.semLock && s'.result == s.result
    requires forall q :: q != p ==> s'.Pc(q) == s.Pc(q)
    requires Plain(s.Pc(p)) && Plain(s'.Pc(p))
    requires forall q :: Asleep(s'.St(q)) ==> Asleep(s.St(q))
    requires forall q :: Ready(s'.St(q)) && !Ready(s.St(q)) && s'.Pc(q).WaitSwitched? ==> s'.Pc(q).alert
    ensures SemInv(s')
  {
    ListsKept(s, s') by { hide SemLocksOk, WakesOk, DeepOk, SweepsOk, ResultsOk; }
    hide AgesOk, ListsOk;
    PlainLocks(s, s');
    hide SemLocksOk, WakesOk, DeepOk;
    SweepsKept(s, s', p);
    hide SweepsOk;
    assert forall q :: s'.Res(q) == s.Res(q);
  }

  lemma PlainLocks(s: State, s': State)
    requires SemLocksOk(s) && WakesOk(s) && DeepOk(s) && s'.up == s.up && s'.semLock == s.semLock
    requires forall q :: s'.Pc(q) == s.Pc(q) || (Plain(s.Pc(q)) && Plain(s'.Pc(q)))
    requires forall q :: Asleep(s'.St(q)) ==> Asleep(s.St(q))
    requires forall q :: Ready(s'.St(q)) && !Ready(s.St(q)) && s'.Pc(q).WaitSwitched? ==> s'.Pc(q).alert
    ensures SemLocksOk(s') && WakesOk(s') && DeepOk(s')
  {
  }

  lemma TakeRunSem(s: State, s': State, c: nat, l: Pc)
    requires SemInv(s) && s.Pc(s.Cur(c)) == Outside && (l == YieldHeld || l == ExitHeld)
    requires s' == s.(runLock := Some(c), pc := s.pc[s.Cur(c) := l])
    ensures SemInv(s')
  {
    hide SemInv;
    assert forall q :: s'.St(q) == s.St(q);
    PlainKept(s, s', s.Cur(c));
  }

  lemma TakeRunKeeps(s: State, s': State, c: nat, l: Pc)
    requires Inv(s) && c < s.ncpu && s.runLock == None && s.Pc(s.Cur(c)) == Outside
    requires l == YieldHeld || (l == ExitHeld && s.Cur(c).User?)
    requires s' == s.(runLock := Some(c), pc := s.pc[s.Cur(c) := l])
    ensures Inv(s')
  {
    hide CpusOk, QueueOk, IdleOk, PlacesOk, RunLockOk, SemInv;
    SchedMove(s, s', c, l);
    TakeRunSem(s, s', c, l);
  }

  lemma YieldEnterKeeps(s: State, c: nat)
    requires Inv(s) && c < s.ncpu
    ensures Inv(DoYieldEnter(s, c))
  {
    hide SchedInv, SemInv;
    if s.Pc(s.Cur(c)) == Outside && s.runLock == None { TakeRunKeeps(s, DoYieldEnter(s, c), c, YieldHeld); }
  }

  lemma ExitEnterKeeps(s: State, c: nat)
    requires Inv(s) && c < s.ncpu
    ensures Inv(DoExitEnter(s, c))
  {
    hide SchedInv, SemInv;
    if s.Pc(s.Cur(c)) == Outside && s.runLock == None && s.Cur(c).User? {
      TakeRunKeeps(s, DoExitEnter(s, c), c, ExitHeld);
    }
  }

  lemma SwitchPlain(s: State, c: nat, new_: ProcState, l: Pc)
    requires Inv(s) && c < s.ncpu && s.runLock == Some(c)
    requires new_ == Runnable || (s.Cur(c).User? && new_ == Zombie)
    requires Fits(new_, l) && (s.Cur(c).Idle? ==> IdleMay(l))
    requires Plain(s.Pc(s.Cur(c))) && Plain(l)
    ensures Inv(Switch(s, c, s.Cur(c), new_, l))
  {
    var s' := Switch(s, c, s.Cur(c), new_, l);
    assert s'.list == s.list && s'.up == s.up && s'.ticket == s.ticket && s'.clock == s.clock
        && s'.val == s.val && s'.semLock == s.semLock && s'.result == s.result;
    hide Switch, CpusOk, QueueOk, IdleOk, PlacesOk, RunLockOk, SemLocksOk, ListsOk, WakesOk, DeepOk, AgesOk, SweepsOk,
      ResultsOk;
    SwitchSched(s, c, new_, l);
    SwitchView(s, s', c, new_, l);
    hide SchedInv;
    PlainKept(s, s', s.Cur(c));
  }

  lemma YieldSwitchKeeps(s: State, c: nat)
    requires Inv(s) && c < s.ncpu
    ensures Inv(DoYieldSwitch(s, c))
  {
    if s.Pc(s.Cur(c)) == YieldHeld {
      assert s.runLock == Some(c);
      hide CpusOk, QueueOk, IdleOk, PlacesOk, RunLockOk, SemInv, Switch;
      SwitchPlain(s, c, Runnable, Switched);
    }
  }

  lemma ExitSwitchKeeps(s: State, c: nat)
    requires Inv(s) && c < s.ncpu
    ensures Inv(DoExitSwitch(s, c))
  {
    if s.Pc(s.Cur(c)) == ExitHeld {
      assert s.runLock == Some(c);
      hide CpusOk, QueueOk, IdleOk, PlacesOk, RunLockOk, SemInv, Switch;
      SwitchPlain(s, c, Zombie, Dead);
    }
  }

  lemma AlertKeeps(s: State, c: nat, target: Proc)
    requires Inv(s) && c < s.ncpu
    ensures Inv(DoAlert(s, c, target))
  {
    var s' := DoAlert(s, c, target);
    if s' != s {
      assert s.St(target) == Sleeping ==> s.Pc(target).alert;
      hide CpusOk, QueueOk, IdleOk, PlacesOk, RunLockOk, SemLocksOk, ListsOk, WakesOk, DeepOk, AgesOk, SweepsOk,
        ResultsOk;
      ActivateSched(s, target, true);
      PlainKept(s, s', s.Cur(c));
    }
  }

  lemma StartKeeps(s: State, c: nat, target: Proc)
    requires Inv(s) && c < s.ncpu
    ensures Inv(DoStart(s, c, target))
  {
    var s' := DoStart(s, c, target);
    if s' != s {
      assert s.Pc(target) == Fresh;
      hide CpusOk, QueueOk, IdleOk, PlacesOk, RunLockOk, SemLocksOk, ListsOk, WakesOk, DeepOk, AgesOk, SweepsOk,
        ResultsOk;
      ActivateSched(s, target, false);
      PlainKept(s, s', s.Cur(c));
    }
  }

  // ---------- _wait_sem ----------

  /** A process goes on in its wait; no semaphore's value or list changes. */
  lemma WaitMoved(s: State, s': State, p: Proc, l: Pc)
    requires SemInv(s) && Moved(s, s', p, l) && LocksMoved(s, s', p, l)
    requires SameLists(s, s') && s'.val == s.val && s'.result == s.result
    requires SameWait(s.Pc(p), l) && InWait(l) && (MayBeUp(s.Pc(p)) ==> MayBeUp(l))
    ensures SemLocksOk(s') && ListsOk(s') && AgesOk(s') && SweepsOk(s') && ResultsOk(s')
  {
    hide WakesOk, DeepOk, AgesOk, SweepsOk, ResultsOk, ListsOk;
    LocksKept(s, s', p, l);
    hide SemLocksOk, LocksMoved;
    ListsKept(s, s');
    WaitMovedSweeps(s, s', p, l);
    ResultsKept(s, s');
  }

  lemma WaitMovedSweeps(s: State, s': State, p: Proc, l: Pc)
    requires SweepsOk(s) && Moved(s, s', p, l) && SameLists(s, s') && s'.val == s.val
    requires SameWait(s.Pc(p), l) && InWait(l)
    ensures SweepsOk(s')
  {
    SweepsKept(s, s', p);
  }

  /** No wake-up is lost while a process goes on in its wait. */
  lemma WakesMoved(s: State, s': State, p: Proc, l: Pc)
    requires SemLocksOk(s) && WakesOk(s) && Moved(s, s', p, l) && LocksMoved(s, s', p, l) && s'.up == s.up
    requires SameWait(s.Pc(p), l) && InWait(l)
    requires forall q :: Asleep(s'.St(q)) ==> Asleep(s.St(q)) || (q == p && s.Pc(p).WaitSched?)
    requires l.WaitSched? ==> p !in s.up
    ensures WakesOk(s')
  {
    forall q | q in s'.up && (Asleep(s'.St(q)) || s'.Pc(q).WaitSched?) ensures WakerComes(s', q) {
      assert WakerComes(s, q);
    }
  }

  lemma DeepMoved(s: State, s': State, p: Proc, l: Pc)
    requires DeepOk(s) && Moved(s, s', p, l) && s'.up == s.up
    requires SameWait(s.Pc(p), l) && InWait(l)
    requires forall q :: q != p && s'.Pc(q).WaitSwitched? && Ready(s'.St(q)) ==> Ready(s.St(q))
    requires l.WaitListed? || l.WaitBoth? || l.WaitSched? || (l.WaitSwitched? && !Ready(s'.St(p)))
      || s.Pc(p).WaitWoken? || (s.Pc(p).WaitSwitched? && Ready(s.St(p)))
    ensures DeepOk(s')
  {
  }

  lemma WaitStep(s: State, s': State, p: Proc, l: Pc)
    requires SemInv(s) && s'.pc == s.pc[p := l] && LocksMoved(s, s', p, l)
    requires SameLists(s, s') && s'.val == s.val && s'.result == s.result
    requires SameWait(s.Pc(p), l) && InWait(l) && (MayBeUp(s.Pc(p)) ==> MayBeUp(l))
    requires l.WaitSched? ==> s.Pc(p).WaitBoth?
    requires forall q :: Asleep(s'.St(q)) ==> Asleep(s.St(q)) || (q == p && s.Pc(p).WaitSched?)
    requires forall q :: q != p && s'.Pc(q).WaitSwitched? && Ready(s'.St(q)) ==> Ready(s.St(q))
    requires l.WaitListed? || l.WaitBoth? || l.WaitSched? || (l.WaitSwitched? && !Ready(s'.St(p)))
      || s.Pc(p).WaitWoken? || (s.Pc(p).WaitSwitched? && Ready(s.St(p)))
    ensures SemInv(s')
  {
    assert s.Pc(p).WaitBoth? ==> p !in s.up;
    assert Moved(s, s', p, l);
    hide SemLocksOk, ListsOk, AgesOk, SweepsOk, ResultsOk, DeepOk, WakesOk, LocksMoved, Moved;
    WaitMoved(s, s', p, l);
    WakesMoved(s, s', p, l);
    DeepMoved(s, s', p, l);
  }

  lemma WaitTakeRunKeeps(s: State, c: nat)
    requires Inv(s) && c < s.ncpu
    ensures Inv(DoWaitTakeRun(s, c))
  {
    var p := s.Cur(c);
    if s.Pc(p).WaitListed? && s.runLock == None {
      var s', l := DoWaitTakeRun(s, c), WaitBoth(s.Pc(p).sem, s.Pc(p).alert);
      assert s.semLock[l.sem := p] == s.semLock;
      hide CpusOk, QueueOk, PlacesOk, RunLockOk, SemInv;
      SchedMove(s, s', c, l);
      hide SchedInv;
      WaitStep(s, s', p, l);
    }
  }

  lemma WaitDropSemKeeps(s: State, c: nat)
    requires Inv(s) && c < s.ncpu
    ensures Inv(DoWaitDropSem(s, c))
  {
    hide CpusOk, QueueOk, PlacesOk, RunLockOk, SemInv;
    var p := s.Cur(c);
    if s.Pc(p).WaitBoth? {
      var s', l := DoWaitDropSem(s, c), WaitSched(s.Pc(p).sem, s.Pc(p).alert);
      SchedMove(s, s', c, l);
      hide SchedInv;
      WaitStep(s, s', p, l);
    }
  }

  lemma WaitRelockKeeps(s: State, c: nat)
    requires Inv(s) && c < s.ncpu
    ensures Inv(DoWaitRelock(s, c))
  {
    hide CpusOk, QueueOk, PlacesOk, RunLockOk, SemInv;
    var p := s.Cur(c);
    if s.Pc(p).WaitWoken? && s.Pc(p).sem !in s.semLock {
      var s', l := DoWaitRelock(s, c), WaitCheck(s.Pc(p).sem, s.Pc(p).alert);
      SchedMove(s, s', c, l);
      hide SchedInv;
      WaitStep(s, s', p, l);
    }
  }

  lemma ResumeWait(s: State, s': State, c: nat)
    requires Inv(s) && c < s.ncpu && s.runLock == Some(c) && s.Pc(s.Cur(c)).WaitSwitched?
    requires s' == DoResume(s, c)
    ensures Inv(s')
  {
    hide QueueOk, PlacesOk, RunLockOk, SemInv;
    var p := s.Cur(c);
    var l := WaitWoken(s.Pc(p).sem, s.Pc(p).alert);
    assert s' == s.(runLock := None, pc := s.pc[p := l]);
    hide DoResume;
    assert s.St(p) == Running;
    ResumeSched(s, s', c, l);
    hide SchedInv;
    WaitStep(s, s', p, l);
  }

  lemma ResumeSched(s: State, s': State, c: nat, l: Pc)
    requires SchedInv(s) && c < s.ncpu && s.runLock == Some(c) && l.WaitWoken? && s.Pc(s.Cur(c)).WaitSwitched?
    requires s' == s.(runLock := None, pc := s.pc[s.Cur(c) := l])
    ensures SchedInv(s')
  {
    hide CpusOk, QueueOk, PlacesOk, RunLockOk;
    SchedMove(s, s', c, l);
  }

  lemma ResumePlain(s: State, s': State, c: nat)
    requires Inv(s) && c < s.ncpu && s.runLock == Some(c) && (s.Pc(s.Cur(c)) == Switched || s.Pc(s.Cur(c)) == Fresh)
    requires s' == DoResume(s, c)
    ensures Inv(s')
  {
    hide CpusOk, QueueOk, PlacesOk, IdleOk, RunLockOk, SemInv;
    assert s' == s.(runLock := None, pc := s.pc[s.Cur(c) := Outside]);
    hide DoResume;
    SchedMove(s, s', c, Outside);
    hide SchedInv;
    PlainKept(s, s', s.Cur(c));
  }

  lemma ResumeKeeps(s: State, c: nat)
    requires Inv(s) && c < s.ncpu
    ensures Inv(DoResume(s, c))
  {
    var p := s.Cur(c);
    hide SchedInv, SemInv;
    if s.runLock == Some(c) && s.Pc(p).WaitSwitched? {
      ResumeWait(s, DoResume(s, c), c);
    } else if s.runLock == Some(c) && (s.Pc(p) == Switched || s.Pc(p) == Fresh) {
      ResumePlain(s, DoResume(s, c), c);
    }
  }

  lemma SleepSem(s: State, s': State, c: nat, next: Proc, new_: ProcState, l: Pc)
    requires SemInv(s) && s.Pc(s.Cur(c)).WaitSched? && SwitchedTo(s, s', c, next, new_, l) && Asleep(new_)
    requires l == WaitSwitched(s.Pc(s.Cur(c)).sem, s.Pc(s.Cur(c)).alert) && s'.pc == s.pc[s.Cur(c) := l]
    requires SameLists(s, s') && s'.val == s.val && s'.semLock == s.semLock && s'.result == s.result
    ensures SemInv(s')
  {
    hide SemInv, NoDup;
    WaitStep(s, s', s.Cur(c), l);
  }

  lemma SleepSched(s: State, c: nat, new_: ProcState, l: Pc)
    requires SchedInv(s) && c < s.ncpu && s.Pc(s.Cur(c)).WaitSched? && Asleep(new_) && Fits(new_, l)
    ensures var s' := Switch(s, c, s.Cur(c), new_, l);
      SchedInv(s') && s'.fault == s.fault && SwitchedTo(s, s', c, s'.Cur(c), new_, l)
  {
    assert s.runLock == Some(c);
    hide CpusOk, QueueOk, PlacesOk, RunLockOk, Switch;
    SwitchSched(s, c, new_, l);
    SwitchView(s, Switch(s, c, s.Cur(c), new_, l), c, new_, l);
  }

  lemma WaitSleepKeeps(s: State, c: nat)
    requires Inv(s) && c < s.ncpu
    ensures Inv(DoWaitSleep(s, c))
  {
    hide SchedInv, SemInv, SwitchedTo;
    var p := s.Cur(c);
    if s.Pc(p).WaitSched? {
      var s' := DoWaitSleep(s, c);
      var l, new_ := WaitSwitched(s.Pc(p).sem, s.Pc(p).alert), if s.Pc(p).alert then Sleeping else DeepSleeping;
      assert s' == Switch(s, c, p, new_, l);
      SleepSched(s, c, new_, l);
      SleepSem(s, s', c, s'.Cur(c), new_, l);
    }
  }

  // ---------- posts ----------

  lemma OuterLocks(s: State, s': State, p: Proc, l: Pc)
    requires SemLocksOk(s) && WakesOk(s) && DeepOk(s) && s'.up == s.up && s'.st == s.st
    requires Moved(s, s', p, l) && LocksMoved(s, s', p, l)
    requires !InWait(s.Pc(p)) && !InWait(l) && !s.Pc(p).PostWake? && !l.PostWake?
    ensures SemLocksOk(s') && WakesOk(s') && DeepOk(s')
  {
    LocksKept(s, s', p, l);
    hide SemLocksOk, LocksMoved;
    assert forall q :: s'.St(q) == s.St(q);
    forall q | q in s'.up && (Asleep(s'.St(q)) || s'.Pc(q).WaitSched?) ensures WakerComes(s', q) {
      assert WakerComes(s, q);
    }
  }

  /** Steps outside waits that pick no waiter. */
  lemma OuterStep(s: State, s': State, p: Proc, l: Pc)
    requires SemInv(s) && s'.pc == s.pc[p := l] && LocksMoved(s, s', p, l) && SameLists(s, s') && s'.st == s.st
    requires !InWait(s.Pc(p)) && !InWait(l) && !s.Pc(p).PostWake? && !l.PostWake?
    requires forall x :: s'.Val(x) == s.Val(x) || (s.Val(x) >= 0 && s'.Val(x) >= 0)
    requires forall q :: q != p && Posting(s.Pc(q)) ==> s'.Val(s.Pc(q).sem) == s.Val(s.Pc(q).sem)
    requires Posting(l) && l.job.All? ==> SweepOk(s', l)
    requires ResultsOk(s')
    ensures SemInv(s')
  {
    assert Moved(s, s', p, l);
    OuterLocks(s, s', p, l);
    hide SemLocksOk, WakesOk, DeepOk, LocksMoved, ResultsOk, SweepOk;
    ListsKept(s, s');
    hide ListsOk, AgesOk;
    assert forall x :: s'.List(x) == s.List(x);
    SweepsKept(s, s', p);
  }

  /** A process takes the lock of a semaphore. */
  lemma EnterSem(s: State, s': State, p: Proc, l: Pc)
    requires SemInv(s) && s.Pc(p) == Outside && HoldsSem(l) && l.sem !in s.semLock
    requires l.WaitLocked? || (l.PostLocked? && (l.job.One? || l.job == All(-1, s.Val(l.sem), s.List(l.sem))))
    requires s' == s.(semLock := s.semLock[l.sem := p], pc := s.pc[p := l])
    ensures SemInv(s')
  {
    hide SemLocksOk, WakesOk, DeepOk, AgesOk, SweepsOk, ResultsOk;
    ResultsKept(s, s');
    assert |s.List(l.sem)| == if s.Val(l.sem) < 0 then -s.Val(l.sem) else 0;
    hide SemInv, ListsOk;
    OuterStep(s, s', p, l);
  }

  lemma EnterKeeps(s: State, s': State, c: nat, l: Pc)
    requires Inv(s) && c < s.ncpu && s.Pc(s.Cur(c)) == Outside && HoldsSem(l) && l.sem !in s.semLock
    requires l.WaitLocked? || (l.PostLocked? && (l.job.One? || l.job == All(-1, s.Val(l.sem), s.List(l.sem))))
    requires s.Cur(c).Idle? ==> l.PostLocked?
    requires s' == s.(semLock := s.semLock[l.sem := s.Cur(c)], pc := s.pc[s.Cur(c) := l])
    ensures Inv(s')
  {
    hide CpusOk, QueueOk, PlacesOk, IdleOk, RunLockOk, SemInv;
    EnterSem(s, s', s.Cur(c), l);
    SchedMove(s, s', c, l);
  }

  lemma WaitEnterKeeps(s: State, c: nat, x: nat, alert: bool)
    requires Inv(s) && c < s.ncpu
    ensures Inv(DoWaitEnter(s, c, x, alert))
  {
    hide SchedInv, SemInv;
    if s.Pc(s.Cur(c)) == Outside && s.Cur(c).User? && x !in s.semLock {
      EnterKeeps(s, DoWaitEnter(s, c, x, alert), c, WaitLocked(x, alert));
    }
  }

  lemma PostEnterKeeps(s: State, c: nat, x: nat, all: bool)
    requires Inv(s) && c < s.ncpu
    ensures Inv(DoPostEnter(s, c, x, all))
  {
    hide SchedInv, SemInv;
    if s.Pc(s.Cur(c)) == Outside && x !in s.semLock {
      EnterKeeps(s, DoPostEnter(s, c, x, all), c, PostLocked(x, if all then All(-1, s.Val(x), s.List(x)) else One));
    }
  }

  lemma TryGetKeeps(s: State, c: nat, x: nat)
    requires Inv(s) && c < s.ncpu
    ensures Inv(DoTryGet(s, c, x)) && Inv(DoDrainAll(s, c, x))
  {
    if s.Pc(s.Cur(c)) == Outside && x !in s.semLock && s.Val(x) > 0 {
      TakeKeeps(s, DoTryGet(s, c, x), c, x, s.Val(x) - 1);
      TakeKeeps(s, DoDrainAll(s, c, x), c, x, 0);
    }
  }

  lemma {:induction false} TakeKeeps(s: State, s': State, c: nat, x: nat, v: nat)
    requires Inv(s) && c < s.ncpu && s.Pc(s.Cur(c)) == Outside && x !in s.semLock && s.Val(x) > 0
    requires s' == s.(val := s.val[x := v])
    ensures Inv(s')
  {
    var p := s.Cur(c);
    hide CpusOk, QueueOk, PlacesOk, IdleOk, RunLockOk, ListsOk, WakesOk, DeepOk, AgesOk, SweepsOk, ResultsOk;
    ResultsKept(s, s');
    assert forall q :: Posting(s.Pc(q)) ==> s.Pc(q).sem != x;
    hide CpusOk, QueueOk, PlacesOk, IdleOk, RunLockOk, SemInv, ResultsOk;
    assert s.pc[p := Outside] == s.pc;
    SchedMove(s, s', c, Outside);
    hide SchedInv;
    OuterStep(s, s', p, Outside);
  }

  /** What a poster's own step may do. */
  ghost predicate PosterStep(s: State, s': State, p: Proc, l: Pc) {
    && Posting(s.Pc(p)) && (l == Outside || l.PostLocked? || l.PostAfter?)
    && s' == s.(pc := s.pc[p := l], val := s'.val, semLock := s'.semLock, result := s'.result)
    && (forall y :: y != s.Pc(p).sem ==> s'.Val(y) == s.Val(y))
    && (if l == Outside then s'.semLock == s.semLock - {s.Pc(p).sem}
        else s'.semLock == s.semLock && l.sem == s.Pc(p).sem)
    && (s'.Val(s.Pc(p).sem) == s.Val(s.Pc(p).sem) || (s.Val(s.Pc(p).sem) >= 0 && s'.Val(s.Pc(p).sem) >= 0))
    && (Posting(l) && l.job.All? ==> SweepOk(s', l))
    && ResultsOk(s')
  }

  lemma PosterKeeps(s: State, s': State, c: nat, l: Pc)
    requires Inv(s) && c < s.ncpu && PosterStep(s, s', s.Cur(c), l) && !s.Pc(s.Cur(c)).PostWake?
    ensures Inv(s')
  {
    hide CpusOk, QueueOk, PlacesOk, IdleOk, RunLockOk, ListsOk, WakesOk, DeepOk, AgesOk, SweepsOk, ResultsOk, SweepOk;
    SchedMove(s, s', c, l);
    PosterSem(s, s', s.Cur(c), l);
  }

  lemma PosterSem(s: State, s': State, p: Proc, l: Pc)
    requires SemInv(s) && PosterStep(s, s', p, l) && !s.Pc(p).PostWake?
    ensures SemInv(s')
  {
    hide ListsOk, WakesOk, DeepOk, AgesOk, SweepsOk, ResultsOk, SweepOk;
    assert s.semLock[s.Pc(p).sem := p] == s.semLock;
    assert forall q :: q != p && Posting(s.Pc(q)) ==> s.Pc(q).sem != s.Pc(p).sem;
    hide SemInv;
    OuterStep(s, s', p, l);
  }

  /** post_sem returns. */
  lemma PostOneDone(s: State, c: nat)
    requires Inv(s) && c < s.ncpu && s.Pc(s.Cur(c)).PostAfter? && s.Pc(s.Cur(c)).job.One?
    ensures Inv(DoPostNext(s, c))
  {
    hide SchedInv, SemLocksOk, ListsOk, WakesOk, DeepOk, AgesOk, SweepsOk, ResultsOk;
    var s', p := DoPostNext(s, c), s.Cur(c);
    ResultsKept(s, s');
    hide SemInv;
    assert PosterStep(s, s', p, Outside);
    PosterKeeps(s, s', c, Outside);
  }

  /** A sweep's record depends on its semaphore and on its waiters only. */
  lemma SweepMoves(s: State, s': State, p: Proc, l: Pc)
    requires Posting(s.Pc(p)) && s.Pc(p).job.All? && SweepOk(s, s.Pc(p))
    requires s'.up == s.up && s'.list == s.list && s'.pc == s.pc[p := l] && !InWait(s.Pc(p))
    requires Posting(l) && l.job.All? && l.sem == s.Pc(p).sem
    requires l.job.start == s.Pc(p).job.start && l.job.val0 == s.Pc(p).job.val0
    requires s'.Val(l.sem) == l.job.val0 + Posts(l)
    requires Posts(l) == Posts(s.Pc(p)) || (Posts(l) == Posts(s.Pc(p)) + 1 && s.List(l.sem) == [])
    requires (if l.PostLocked? then 0 else 1) <= Posts(l) <= |l.job.start| + (if l.PostAfter? then 1 else 0)
    ensures SweepOk(s', l)
  {
    var start := l.job.start;
    forall i | 0 <= i < |start| && i >= |start| - Posts(l)
      ensures start[i] in s'.up && InWait(s'.Pc(start[i])) && s'.Pc(start[i]).sem == l.sem
    {
      assert start[i] in s.up && InWait(s.Pc(start[i]));
    }
  }

  /** post_all_sem goes round again. */
  lemma PostAllAgain(s: State, c: nat)
    requires Inv(s) && c < s.ncpu && s.Pc(s.Cur(c)).PostAfter? && s.Pc(s.Cur(c)).job.All?
    requires s.Val(s.Pc(s.Cur(c)).sem) <= 0
    ensures Inv(DoPostNext(s, c))
  {
    hide SchedInv, SemLocksOk, ListsOk, WakesOk, DeepOk, AgesOk, ResultsOk;
    var s', p := DoPostNext(s, c), s.Cur(c);
    var l := s'.Pc(p);
    assert SweepOk(s, s.Pc(p));
    SweepMoves(s, s', p, l);
    ResultsKept(s, s');
    hide SemInv, SweepOk, SweepsOk;
    assert PosterStep(s, s', p, l);
    PosterKeeps(s, s', c, l);
  }

  /** post_all_sem returns the number of waiters it found, and has posted every one. */
  lemma PostAllDone(s: State, c: nat)
    requires Inv(s) && c < s.ncpu && s.Pc(s.Cur(c)).PostAfter? && s.Pc(s.Cur(c)).job.All?
    requires s.Val(s.Pc(s.Cur(c)).sem) > 0
    ensures Inv(DoPostNext(s, c))
    ensures DoPostNext(s, c).Res(s.Cur(c))
      == PostedAll(|s.Pc(s.Cur(c)).job.start|, s.Pc(s.Cur(c)).job.val0, s.Pc(s.Cur(c)).job.start)
  {
    hide SchedInv, SemLocksOk, ListsOk, WakesOk, DeepOk, AgesOk;
    var s', p := DoPostNext(s, c), s.Cur(c);
    assert SweepOk(s, s.Pc(p));
    assert forall q :: q != p ==> s'.Res(q) == s.Res(q);
    assert ResultsOk(s');
    hide SemInv, SweepOk, SweepsOk, ResultsOk;
    assert PosterStep(s, s', p, Outside);
    PosterKeeps(s, s', c, Outside);
  }

  lemma PostNextKeeps(s: State, c: nat)
    requires Inv(s) && c < s.ncpu
    ensures Inv(DoPostNext(s, c))
  {
    hide SchedInv, SemInv;
    var l := s.Pc(s.Cur(c));
    if l.PostAfter? {
      if l.job.One? { PostOneDone(s, c); }
      else if s.Val(l.sem) > 0 { PostAllDone(s, c); }
      else { PostAllAgain(s, c); }
    }
  }

  /** A post that finds no waiter. */
  lemma PostIncUp(s: State, c: nat)
    requires Inv(s) && c < s.ncpu && s.Pc(s.Cur(c)).PostLocked? && s.Val(s.Pc(s.Cur(c)).sem) >= 0
    ensures Inv(DoPostInc(s, c))
  {
    hide SchedInv, SemLocksOk, WakesOk, DeepOk, AgesOk, ResultsOk;
    var s', p := DoPostInc(s, c), s.Cur(c);
    var l := s'.Pc(p);
    assert s.List(l.sem) == [];
    if l.job.All? {
      assert SweepOk(s, s.Pc(p));
      SweepMoves(s, s', p, l);
    }
    ResultsKept(s, s');
    hide SemInv, SweepOk, SweepsOk;
    assert PosterStep(s, s', p, l);
    PosterKeeps(s, s', c, l);
  }

  // ---------- steps that change a list ----------

  /** What `_wait_sem` writes when it has to sleep. */
  ghost predicate Listed(s: State, s': State, p: Proc, x: nat, alert: bool) {
    && s.Pc(p) == WaitLocked(x, alert) && s.Val(x) <= 0
    && s' == s.(val := s.val[x := s.Val(x) - 1], list := s.list[x := [p] + s.List(x)], up := s.up - {p},
           ticket := s.ticket[p := s.clock], clock := s.clock + 1, pc := s.pc[p := WaitListed(x, alert)])
  }

  lemma ListedLists(s: State, s': State, p: Proc, x: nat, alert: bool)
    requires ListsOk(s) && Listed(s, s', p, x, alert)
    ensures ListsOk(s')
  {
    assert p !in s.List(x);
    ConsNoDup(p, s.List(x));
    assert forall y :: s'.List(y) == if y == x then [p] + s.List(x) else s.List(y);
    assert forall q :: s'.Pc(q) == if q == p then WaitListed(x, alert) else s.Pc(q);
    hide NoDup;
  }

  lemma ListedAges(s: State, s': State, p: Proc, x: nat, alert: bool)
    requires ListsOk(s) && AgesOk(s) && Listed(s, s', p, x, alert)
    ensures AgesOk(s')
  {
    assert forall y :: p !in s.List(y);
    assert forall y :: s'.List(y) == if y == x then [p] + s.List(x) else s.List(y);
    assert forall q :: s'.Ticket(q) == if q == p then s.clock else s.Ticket(q);
    hide ListsOk;
  }

  lemma ListedRest(s: State, s': State, p: Proc, x: nat, alert: bool)
    requires SemLocksOk(s) && ListsOk(s) && WakesOk(s) && DeepOk(s) && Listed(s, s', p, x, alert)
    ensures SemLocksOk(s') && WakesOk(s') && DeepOk(s')
  {
    ListedLocks(s, s', p, x, alert) by { hide ListsOk, WakesOk, DeepOk; }
    hide SemLocksOk;
    assert p !in s.up;
    hide ListsOk;
    ListedWakes(s, s', p, x, alert);
  }

  lemma ListedLocks(s: State, s': State, p: Proc, x: nat, alert: bool)
    requires SemLocksOk(s) && Listed(s, s', p, x, alert)
    ensures SemLocksOk(s')
  {
    assert forall q :: s'.Pc(q) == if q == p then WaitListed(x, alert) else s.Pc(q);
  }

  lemma ListedWakes(s: State, s': State, p: Proc, x: nat, alert: bool)
    requires WakesOk(s) && DeepOk(s) && Listed(s, s', p, x, alert) && p !in s.up
    ensures WakesOk(s') && DeepOk(s')
  {
    assert forall q :: s'.St(q) == s.St(q);
    assert forall q :: s'.Pc(q) == if q == p then WaitListed(x, alert) else s.Pc(q);
    forall q | q in s'.up && (Asleep(s'.St(q)) || s'.Pc(q).WaitSched?) ensures WakerComes(s', q) {
      assert WakerComes(s, q);
    }
  }

  /** What listing a process leaves alone. */
  lemma ListedFrame(s: State, s': State, p: Proc, x: nat, alert: bool)
    requires SemLocksOk(s) && ListsOk(s) && Listed(s, s', p, x, alert)
    ensures p !in s.up && s'.up == s.up - {p}
    ensures forall q :: q != p && Posting(s.Pc(q)) ==> s.Pc(q).sem != x
    ensures forall q :: s'.Pc(q) == if q == p then WaitListed(x, alert) else s.Pc(q)
    ensures s.Pc(p) == WaitLocked(x, alert)
    ensures forall y: nat :: y != x ==> s'.List(y) == s.List(y) && s'.Val(y) == s.Val(y)
  {
  }

  lemma ListedSweeps(s: State, s': State, p: Proc, x: nat, alert: bool)
    requires SemLocksOk(s) && ListsOk(s) && SweepsOk(s) && Listed(s, s', p, x, alert)
    ensures SweepsOk(s')
  {
    hide SweepsOk, SweepOk;
    ListedFrame(s, s', p, x, alert);
    hide Listed, ListsOk, SemLocksOk;
    SweepsKept(s, s', p);
  }

  lemma WaitDecSleeps(s: State, s': State, c: nat, x: nat, alert: bool)
    requires Inv(s) && c < s.ncpu && Listed(s, s', s.Cur(c), x, alert)
    ensures Inv(s')
  {
    hide CpusOk, QueueOk, PlacesOk, RunLockOk, SemLocksOk, ListsOk, WakesOk, DeepOk, AgesOk, SweepsOk, ResultsOk;
    SchedMove(s, s', c, WaitListed(x, alert));
    hide SchedInv;
    ListedLists(s, s', s.Cur(c), x, alert);
    ListedAges(s, s', s.Cur(c), x, alert);
    ListedRest(s, s', s.Cur(c), x, alert);
    ListedSweeps(s, s', s.Cur(c), x, alert);
    ResultsKept(s, s');
  }

  lemma WaitDecPassesSem(s: State, s': State, c: nat)
    requires SemInv(s) && s.Pc(s.Cur(c)).WaitLocked? && s.Val(s.Pc(s.Cur(c)).sem) > 0
    requires s' == DoWaitDec(s, c)
    ensures SemInv(s')
  {
    hide ListsOk, WakesOk, DeepOk, AgesOk, SweepsOk;
    var p := s.Cur(c);
    var x := s.Pc(p).sem;
    assert s' == s.(val := s.val[x := s.Val(x) - 1], semLock := s.semLock - {x}, pc := s.pc[p := Outside],
           result := s.result[p := Waited(true, s.Pc(p).alert)]);
    hide DoWaitDec;
    assert forall q :: q != p ==> s'.Res(q) == s.Res(q);
    assert ResultsOk(s');
    assert forall q :: q != p && Posting(s.Pc(q)) ==> s.Pc(q).sem != x;
    hide ResultsOk, SemInv;
    OuterStep(s, s', p, Outside);
  }

  lemma WaitDecPasses(s: State, c: nat)
    requires Inv(s) && c < s.ncpu && s.Pc(s.Cur(c)).WaitLocked? && s.Val(s.Pc(s.Cur(c)).sem) > 0
    ensures Inv(DoWaitDec(s, c))
  {
    hide CpusOk, QueueOk, PlacesOk, RunLockOk, SemInv;
    WaitDecPassesSem(s, DoWaitDec(s, c), c);
    SchedMove(s, DoWaitDec(s, c), c, Outside);
  }

  lemma WaitDecKeeps(s: State, c: nat)
    requires Inv(s) && c < s.ncpu
    ensures Inv(DoWaitDec(s, c))
  {
    hide SchedInv, SemInv;
    var l := s.Pc(s.Cur(c));
    if l.WaitLocked? {
      if s.Val(l.sem) > 0 { WaitDecPasses(s, c); }
      else { WaitDecSleeps(s, DoWaitDec(s, c), c, l.sem, l.alert); }
    }
  }

  /** What a post writes when there is a waiter. */
  ghost predicate Picked(s: State, s': State, p: Proc, x: nat, job: Job) {
    var k := |s.List(x)| - 1;
    && s.Pc(p) == PostLocked(x, job) && s.Val(x) < 0 && k >= 0
    && s' == s.(val := s.val[x := s.Val(x) + 1], list := s.list[x := s.List(x)[..k]], up := s.up + {s.List(x)[k]},
           pc := s.pc[p := PostWake(x, s.List(x)[k], job)])
  }

  lemma PickedLists(s: State, s': State, p: Proc, x: nat, job: Job)
    requires SemLocksOk(s) && ListsOk(s) && Picked(s, s', p, x, job)
    ensures ListsOk(s')
  {
    var z := s.List(x);
    var t := z[|z| - 1];
    assert t in z;
    assert MayBeUp(s.Pc(t)) && s.Pc(t).sem == x;
    hide SemLocksOk;
    ButLast(z);
    hide NoDup;
    assert forall y :: s'.List(y) == if y == x then z[..|z| - 1] else s.List(y);
    assert Moved(s, s', p, PostWake(x, t, job));
    assert s'.up == s.up + {t};
    assert forall y :: s'.Val(y) == if y == x then s.Val(x) + 1 else s.Val(y);
    PickedMembers(s, s', p, x, t, PostWake(x, t, job), z[..|z| - 1]);
  }

  lemma PickedMembers(s: State, s': State, p: Proc, x: nat, t: Proc, l: Pc, z: seq<Proc>)
    requires ListsOk(s) && Moved(s, s', p, l) && !InWait(l) && !InWait(s.Pc(p)) && s'.up == s.up + {t}
    requires MayBeUp(s.Pc(t)) && s.Pc(t).sem == x
    requires forall q :: q in z <==> q in s.List(x) && q != t
    requires forall y :: s'.List(y) == if y == x then z else s.List(y)
    ensures forall y: nat, q: Proc :: q in s'.List(y) <==> InWait(s'.Pc(q)) && s'.Pc(q).sem == y && q !in s'.up
    ensures forall q: Proc :: q in s'.up ==> MayBeUp(s'.Pc(q))
  {
    hide NoDup;
  }

  lemma ButLast(z: seq<Proc>)
    requires NoDup(z) && z != []
    ensures NoDup(z[..|z| - 1])
    ensures forall q :: q in z[..|z| - 1] <==> q in z && q != z[|z| - 1]
  {
    assert forall q :: q in z ==> q in z[..|z| - 1] || q == z[|z| - 1];
  }

  lemma PickedAges(s: State, s': State, p: Proc, x: nat, job: Job)
    requires AgesOk(s) && Picked(s, s', p, x, job)
    ensures AgesOk(s')
  {
    var z := s.List(x);
    assert forall y :: s'.List(y) == if y == x then z[..|z| - 1] else s.List(y);
    assert forall q :: s'.Ticket(q) == s.Ticket(q);
  }

  lemma PickedRest(s: State, s': State, p: Proc, x: nat, job: Job)
    requires SemLocksOk(s) && ListsOk(s) && WakesOk(s) && DeepOk(s) && Picked(s, s', p, x, job)
    ensures SemLocksOk(s') && WakesOk(s') && DeepOk(s')
  {
    var t := s.List(x)[|s.List(x)| - 1];
    assert t in s.List(x);
    assert InWait(s.Pc(t)) && s.Pc(t).sem == x && t !in s.up;
    hide ListsOk;
    var l := PostWake(x, t, job);
    assert forall q :: s'.St(q) == s.St(q);
    assert Moved(s, s', p, l) && s'.up == s.up + {t} && s'.semLock == s.semLock;
    assert s.semLock[x := p] == s.semLock;
    hide Picked;
    LocksKept(s, s', p, l);
    PickedWakes(s, s', p, x, t, job);
    hide SemLocksOk, WakesOk;
  }

  lemma PickedWakes(s: State, s': State, p: Proc, x: nat, t: Proc, job: Job)
    requires SemLocksOk(s) && WakesOk(s) && s.Pc(p) == PostLocked(x, job)
    requires InWait(s.Pc(t)) && s.Pc(t).sem == x && t !in s.up && s'.up == s.up + {t} && s'.semLock == s.semLock
    requires Moved(s, s', p, PostWake(x, t, job)) && forall q :: s'.St(q) == s.St(q)
    ensures WakesOk(s')
  {
    forall q | q in s'.up && (Asleep(s'.St(q)) || s'.Pc(q).WaitSched?) ensures WakerComes(s', q) {
      assert q != t ==> WakerComes(s, q);
    }
  }

  lemma PickedOwnSweep(s: State, s': State, p: Proc, x: nat, job: Job)
    requires Picked(s, s', p, x, job) && job.All? && SweepOk(s, s.Pc(p))
    requires var t := s.List(x)[|s.List(x)| - 1]; InWait(s.Pc(t)) && s.Pc(t).sem == x
    ensures SweepOk(s', s'.Pc(p))
  {
    var z, start, n := s.List(x), job.start, job.ret + 1;
    var t := z[|z| - 1];
    assert forall q :: s'.Pc(q) == if q == p then PostWake(x, t, job) else s.Pc(q);
    assert z == start[..|start| - n] && t == start[|start| - n - 1];
    assert s'.List(x) == start[..|start| - n - 1];
    assert forall i {:trigger start[i]} :: 0 <= i < |start| && i >= |start| - n - 1 ==>
      i == |start| - n - 1 || i >= |start| - n;
  }

  lemma PickedSweeps(s: State, s': State, p: Proc, x: nat, job: Job)
    requires SemLocksOk(s) && ListsOk(s) && SweepsOk(s) && Picked(s, s', p, x, job)
    ensures SweepsOk(s')
  {
    var t := s.List(x)[|s.List(x)| - 1];
    assert t in s.List(x);
    assert InWait(s.Pc(t)) && s.Pc(t).sem == x;
    hide ListsOk;
    assert forall q :: q != p && Posting(s.Pc(q)) ==> s.Pc(q).sem != x;
    hide SemLocksOk;
    assert job.All? ==> SweepOk(s, s.Pc(p));
    hide SweepOk, SweepsOk;
    if job.All? { PickedOwnSweep(s, s', p, x, job); }
    OthersSweep(s, s', p, x, job);
  }

  lemma OthersSweep(s: State, s': State, p: Proc, x: nat, job: Job)
    requires SweepsOk(s) && Picked(s, s', p, x, job)
    requires forall q :: q != p && Posting(s.Pc(q)) ==> s.Pc(q).sem != x
    requires job.All? ==> SweepOk(s', s'.Pc(p))
    ensures SweepsOk(s')
  {
    hide SweepOk;
    assert Moved(s, s', p, s'.Pc(p));
    SweepsKept(s, s', p);
  }

  lemma PostIncWakes(s: State, s': State, c: nat, x: nat, job: Job)
    requires Inv(s) && c < s.ncpu && Picked(s, s', s.Cur(c), x, job)
    ensures Inv(s')
  {
    hide CpusOk, QueueOk, PlacesOk, RunLockOk, SemLocksOk, ListsOk, WakesOk, DeepOk, AgesOk, SweepsOk, ResultsOk;
    SchedMove(s, s', c, s'.Pc(s.Cur(c)));
    hide SchedInv;
    PickedLists(s, s', s.Cur(c), x, job);
    PickedAges(s, s', s.Cur(c), x, job);
    PickedRest(s, s', s.Cur(c), x, job);
    PickedSweeps(s, s', s.Cur(c), x, job);
    ResultsKept(s, s');
  }

  lemma PostIncKeeps(s: State, c: nat)
    requires Inv(s) && c < s.ncpu
    ensures Inv(DoPostInc(s, c))
  {
    hide SchedInv, SemLocksOk, WakesOk, DeepOk, AgesOk, SweepsOk, ResultsOk;
    var l := s.Pc(s.Cur(c));
    if l.PostLocked? {
      if s.Val(l.sem) >= 0 {
        PostIncUp(s, c);
      } else {
        assert |s.List(l.sem)| > 0;
        hide SemInv;
        PostIncWakes(s, DoPostInc(s, c), c, l.sem, l.job);
      }
    }
  }

  /** The end of a wait that was posted. */
  ghost predicate Taken(s: State, s': State, p: Proc, x: nat, alert: bool) {
    && s.Pc(p) == WaitCheck(x, alert) && p in s.up
    && s' == s.(semLock := s.semLock - {x}, pc := s.pc[p := Outside], up := s.up - {p},
                   result := s.result[p := Waited(true, alert)])
  }

  /** The end of a wait that was only alerted. */
  ghost predicate GaveUp(s: State, s': State, p: Proc, x: nat, alert: bool) {
    && s.Pc(p) == WaitCheck(x, alert) && p !in s.up
    && s' == s.(semLock := s.semLock - {x}, pc := s.pc[p := Outside], up := s.up - {p},
                   result := s.result[p := Waited(false, alert)],
                   val := s.val[x := s.Val(x) + 1], fault := s.fault || s.Val(x) + 1 > 0,
                   list := s.list[x := Without(s.List(x), p)])
  }

  lemma LeftLocks(s: State, s': State, p: Proc, x: nat, alert: bool)
    requires SemLocksOk(s) && WakesOk(s) && DeepOk(s)
    requires Taken(s, s', p, x, alert) || GaveUp(s, s', p, x, alert)
    ensures SemLocksOk(s') && WakesOk(s') && DeepOk(s')
  {
    assert forall q :: s'.St(q) == s.St(q);
    assert Moved(s, s', p, Outside);
    assert LocksMoved(s, s', p, Outside) && s'.up == s.up - {p};
    hide Taken, GaveUp;
    LocksKept(s, s', p, Outside);
    LeftWakes(s, s', p);
    hide SemLocksOk, WakesOk, LocksMoved;
  }

  lemma LeftWakes(s: State, s': State, p: Proc)
    requires SemLocksOk(s) && WakesOk(s) && s.Pc(p).WaitCheck?
    requires Moved(s, s', p, Outside) && LocksMoved(s, s', p, Outside) && s'.up == s.up - {p}
    requires forall q :: s'.St(q) == s.St(q)
    ensures WakesOk(s')
  {
    forall q | q in s'.up && (Asleep(s'.St(q)) || s'.Pc(q).WaitSched?) ensures WakerComes(s', q) {
      assert WakerComes(s, q);
    }
  }

  /** What leaving a wait leaves alone. */
  lemma LeftFrame(s: State, s': State, p: Proc, x: nat, alert: bool)
    requires SemLocksOk(s)
    requires Taken(s, s', p, x, alert) || GaveUp(s, s', p, x, alert)
    ensures forall q :: Posting(s.Pc(q)) ==> s.Pc(q).sem != x
    ensures forall q :: s'.Pc(q) == if q == p then Outside else s.Pc(q)
    ensures forall q :: q in s.up && q != p ==> q in s'.up
    ensures InWait(s.Pc(p)) && s.Pc(p).sem == x
    ensures forall y: nat :: y != x ==> s'.List(y) == s.List(y) && s'.Val(y) == s.Val(y)
  {
  }

  lemma LeftSweeps(s: State, s': State, p: Proc, x: nat, alert: bool)
    requires SemLocksOk(s) && SweepsOk(s)
    requires Taken(s, s', p, x, alert) || GaveUp(s, s', p, x, alert)
    ensures SweepsOk(s')
  {
    hide SweepsOk, SweepOk;
    LeftFrame(s, s', p, x, alert);
    hide Taken, GaveUp, SemLocksOk;
    SweepsKept(s, s', p);
  }

  lemma TakenLists(s: State, s': State, p: Proc, x: nat, alert: bool)
    requires ListsOk(s) && AgesOk(s) && Taken(s, s', p, x, alert)
    ensures ListsOk(s') && AgesOk(s')
  {
    assert Moved(s, s', p, Outside);
    assert forall y :: s'.List(y) == s.List(y) && s'.Val(y) == s.Val(y);
    assert forall q :: s'.Ticket(q) == s.Ticket(q);
    hide NoDup;
  }

  lemma GaveUpLists(s: State, s': State, p: Proc, x: nat, alert: bool)
    requires ListsOk(s) && GaveUp(s, s', p, x, alert)
    ensures ListsOk(s') && s'.fault == s.fault
  {
    assert Moved(s, s', p, Outside);
    assert p in s.List(x);
    WithoutNoDup(s.List(x), p);
    var z := Without(s.List(x), p);
    assert forall y :: s'.List(y) == if y == x then z else s.List(y);
    hide NoDup, Without;
    assert forall y :: s'.Val(y) == if y == x then s.Val(x) + 1 else s.Val(y);
    assert s'.up == s.up;
    GaveUpMembers(s, s', p, x, z);
  }

  lemma GaveUpMembers(s: State, s': State, p: Proc, x: nat, z: seq<Proc>)
    requires ListsOk(s) && Moved(s, s', p, Outside) && s.Pc(p).WaitCheck? && s.Pc(p).sem == x && p !in s.up
      && s'.up == s.up
    requires forall q :: q in z <==> q in s.List(x) && q != p
    requires forall y :: s'.List(y) == if y == x then z else s.List(y)
    ensures forall y: nat, q: Proc :: q in s'.List(y) <==> InWait(s'.Pc(q)) && s'.Pc(q).sem == y && q !in s'.up
    ensures forall q: Proc :: q in s'.up ==> MayBeUp(s'.Pc(q))
  {
    hide NoDup;
  }

  lemma {:induction false} WithoutOrder(s: State, z: seq<Proc>, p: Proc)
    requires forall i, j :: 0 <= i < j < |z| ==> s.Ticket(z[i]) > s.Ticket(z[j])
    ensures forall i, j :: 0 <= i < j < |Without(z, p)| ==> s.Ticket(Without(z, p)[i]) > s.Ticket(Without(z, p)[j])
  {
    if z != [] {
      var rest := z[1..];
      assert forall i :: 0 <= i < |rest| ==> rest[i] == z[i + 1];
      WithoutOrder(s, rest, p);
      var r := Without(rest, p);
      assert Without(z, p) == if z[0] == p then r else [z[0]] + r;
      assert forall j :: 0 <= j < |r| ==> r[j] in rest;
      hide Without;
      assert forall q :: q in rest ==> s.Ticket(z[0]) > s.Ticket(q);
    }
  }

  lemma GaveUpAges(s: State, s': State, p: Proc, x: nat, alert: bool)
    requires AgesOk(s) && GaveUp(s, s', p, x, alert)
    ensures AgesOk(s')
  {
    var z := Without(s.List(x), p);
    WithoutOrder(s, s.List(x), p);
    assert forall j :: 0 <= j < |z| ==> z[j] in s.List(x);
    hide Without;
    assert forall y :: s'.List(y) == if y == x then z else s.List(y);
    assert forall q :: s'.Ticket(q) == s.Ticket(q);
  }

  lemma LeftResults(s: State, s': State, p: Proc, x: nat, alert: bool)
    requires DeepOk(s) && ResultsOk(s)
    requires Taken(s, s', p, x, alert) || GaveUp(s, s', p, x, alert)
    ensures ResultsOk(s')
  {
    assert forall q :: q != p ==> s'.Res(q) == s.Res(q);
  }

  lemma LeftKeeps(s: State, s': State, c: nat, x: nat, alert: bool)
    requires Inv(s) && c < s.ncpu
    requires Taken(s, s', s.Cur(c), x, alert) || GaveUp(s, s', s.Cur(c), x, alert)
    ensures Inv(s')
  {
    var p := s.Cur(c);
    hide CpusOk, QueueOk, PlacesOk, IdleOk, RunLockOk, SemLocksOk, ListsOk, WakesOk, DeepOk, AgesOk, SweepsOk,
      ResultsOk;
    SchedMove(s, s', c, Outside);
    hide SchedInv;
    if Taken(s, s', p, x, alert) { TakenLists(s, s', p, x, alert); }
    else { GaveUpLists(s, s', p, x, alert); GaveUpAges(s, s', p, x, alert); }
    LeftLocks(s, s', p, x, alert);
    LeftSweeps(s, s', p, x, alert);
    LeftResults(s, s', p, x, alert);
  }

  lemma WaitFinishKeeps(s: State, c: nat)
    requires Inv(s) && c < s.ncpu
    ensures Inv(DoWaitFinish(s, c))
  {
    hide SchedInv, SemInv;
    var l := s.Pc(s.Cur(c));
    if l.WaitCheck? { LeftKeeps(s, DoWaitFinish(s, c), c, l.sem, l.alert); }
  }

  // ---------- activation by a post ----------

  lemma ActivateLocks(s: State, s': State, p: Proc, l: Pc, t: Proc)
    requires SemLocksOk(s) && WakesOk(s) && DeepOk(s) && s'.up == s.up && s'.semLock == s.semLock
    requires s.Pc(p).PostWake? && s.Pc(p).target == t && l == PostAfter(s.Pc(p).sem, s.Pc(p).job)
    requires Moved(s, s', p, l)
    requires forall q :: q != t ==> s'.St(q) == s.St(q)
    requires !Asleep(s'.St(t)) && !s.Pc(t).WaitSched?
    ensures SemLocksOk(s') && WakesOk(s') && DeepOk(s')
  {
    assert t in s.up;
    forall q | q in s'.up && (Asleep(s'.St(q)) || s'.Pc(q).WaitSched?) ensures WakerComes(s', q) {
      assert q != t && WakerComes(s, q);
    }
  }

  lemma ActivateSem(s: State, s': State, p: Proc, l: Pc, t: Proc)
    requires SemInv(s)
    requires s.Pc(p).PostWake? && s.Pc(p).target == t && l == PostAfter(s.Pc(p).sem, s.Pc(p).job)
    requires s' == s.(st := s'.st, queue := s'.queue, pc := s.pc[p := l])
    requires forall q :: q != t ==> s'.St(q) == s.St(q)
    requires !Asleep(s'.St(t)) && !s.Pc(t).WaitSched?
    ensures SemInv(s')
  {
    assert Moved(s, s', p, l);
    ActivateLocks(s, s', p, l, t);
    hide SemLocksOk, WakesOk, DeepOk;
    ListsKept(s, s');
    hide ListsOk, AgesOk;
    ResultsKept(s, s');
    hide ResultsOk;
    ActivateSweeps(s, s', p, l);
  }

  lemma ActivateSweeps(s: State, s': State, p: Proc, l: Pc)
    requires SweepsOk(s) && s.Pc(p).PostWake? && l == PostAfter(s.Pc(p).sem, s.Pc(p).job)
    requires s' == s.(st := s'.st, queue := s'.queue, pc := s.pc[p := l])
    ensures SweepsOk(s')
  {
    assert Moved(s, s', p, l);
    if l.job.All? {
      assert SweepOk(s, s.Pc(p));
      SweepMoves(s, s', p, l);
    }
    hide SweepOk;
    SweepsKept(s, s', p);
  }

  lemma PostActivateSched(s: State, c: nat, t: Proc)
    requires SchedInv(s) && c < s.ncpu && s.runLock == None
    requires s.Pc(s.Cur(c)).PostWake? && s.Pc(s.Cur(c)).target == t && InWait(s.Pc(t))
    ensures SchedInv(DoPostActivate(s, c)) && !s.Pc(t).WaitSched? && s.St(t) != Zombie
  {
    var p := s.Cur(c);
    var l := PostAfter(s.Pc(p).sem, s.Pc(p).job);
    assert s.St(t) != Unused && s.St(t) != Zombie;
    assert !s.Pc(t).WaitSched?;
    hide CpusOk, QueueOk, PlacesOk, IdleOk, RunLockOk;
    SchedMove(s, s.(pc := s.pc[p := l]), c, l);
    ActivateSched(s.(pc := s.pc[p := l]), t, false);
  }

  lemma PostActivateKeeps(s: State, c: nat)
    requires Inv(s) && c < s.ncpu
    ensures Inv(DoPostActivate(s, c))
  {
    hide SchedInv, SemLocksOk, ListsOk, DeepOk, AgesOk, SweepsOk, ResultsOk;
    var p := s.Cur(c);
    if s.Pc(p).PostWake? && s.runLock == None {
      var t := s.Pc(p).target;
      PostActivateSched(s, c, t);
      hide SemInv;
      ActivateSem(s, DoPostActivate(s, c), p, PostAfter(s.Pc(p).sem, s.Pc(p).job), t);
    }
  }

  // ---------- every run ----------

  lemma StepKeeps(s: State, a: Act)
    requires Inv(s)
    ensures Inv(Do(s, a))
  {
    hide Inv;
    if a.c < s.ncpu {
      hide DoWaitEnter, DoWaitDec, DoWaitTakeRun, DoWaitDropSem, DoWaitSleep, DoResume, DoWaitRelock, DoWaitFinish,
           DoPostEnter, DoPostInc, DoPostActivate, DoPostNext, DoTryGet, DoDrainAll, DoAlert, DoStart,
           DoYieldEnter, DoYieldSwitch, DoExitEnter, DoExitSwitch;
      match a
      case WaitEnter(c, x, alert) => WaitEnterKeeps(s, c, x, alert);
      case WaitDec(c) => WaitDecKeeps(s, c);
      case WaitTakeRun(c) => WaitTakeRunKeeps(s, c);
      case WaitDropSem(c) => WaitDropSemKeeps(s, c);
      case WaitSleep(c) => WaitSleepKeeps(s, c);
      case Resume(c) => ResumeKeeps(s, c);
      case WaitRelock(c) => WaitRelockKeeps(s, c);
      case WaitFinish(c) => WaitFinishKeeps(s, c);
      case PostEnter(c, x, all) => PostEnterKeeps(s, c, x, all);
      case PostInc(c) => PostIncKeeps(s, c);
      case PostActivate(c) => PostActivateKeeps(s, c);
      case PostNext(c) => PostNextKeeps(s, c);
      case TryGet(c, x) => TryGetKeeps(s, c, x);
      case DrainAll(c, x) => TryGetKeeps(s, c, x);
      case Alert(c, target) => AlertKeeps(s, c, target);
      case Start(c, target) => StartKeeps(s, c, target);
      case YieldEnter(c) => YieldEnterKeeps(s, c);
      case YieldSwitch(c) => YieldSwitchKeeps(s, c);
      case ExitEnter(c) => ExitEnterKeeps(s, c);
      case ExitSwitch(c) => ExitSwitchKeeps(s, c);
    }
  }

  lemma InitKeeps(s: State)
    requires Init(s)
    ensures Inv(s)
  {
    assert SchedInv(s);
    assert forall x :: s.List(x) == [];
    assert forall p :: !InWait(s.Pc(p)) && !HoldsSem(s.Pc(p));
    assert ListsOk(s);
    assert SemInv(s);
  }

  /** The invariant holds in every state that any interleaving of any number of CPUs reaches. */
  lemma {:induction false} RunKeeps(s: State, acts: seq<Act>)
    requires Init(s)
    ensures Inv(Run(s, acts))
    decreases |acts|
  {
    if acts == [] {
      InitKeeps(s);
    } else {
      RunKeeps(s, acts[..|acts| - 1]);
      hide Inv, Do;
      StepKeeps(Run(s, acts[..|acts| - 1]), acts[|acts| - 1]);
    }
  }

  /** Reached from a boot state by some interleaving. */
  ghost predicate Reachable(r: State) {
    exists s, acts :: Init(s) && r == Run(s, acts)
  }

  lemma ReachableInv(r: State)
    requires Reachable(r)
    ensures Inv(r)
  {
    var s, acts :| Init(s) && r == Run(s, acts);
    RunKeeps(s, acts);
  }

  /** Scheduler safety: running is being the current process of exactly one CPU, the queue
      holds the ready processes once each and no idle one, and no ASSERT of the scheduler or
      of the semaphores has failed. */
  lemma SchedulerSafety(r: State)
    requires Reachable(r)
    ensures forall p :: r.St(p) == Running <==> exists c: nat :: c < r.ncpu && r.Cur(c) == p
    ensures forall c: nat, d: nat :: c < r.ncpu && d < r.ncpu && r.Cur(c) == r.Cur(d) ==> c == d
    ensures forall p :: p in r.queue <==> p.User? && (r.St(p) == Runnable || r.St(p) == Running)
    ensures NoDup(r.queue) && !r.fault
  {
    hide Reachable;
    ReachableInv(r);
    hide SemInv, PlacesOk, RunLockOk, IdleOk;
    forall p | r.St(p) == Running ensures exists c: nat :: c < r.ncpu && r.Cur(c) == p {
      assert r.Cur(r.On(p)) == p;
    }
  }

  /** The sleep list holds exactly the waiters that were not posted, max(0, -val) of them. */
  lemma SleepersMatchValue(r: State, x: nat)
    requires Reachable(r)
    ensures |r.List(x)| == if r.Val(x) < 0 then -r.Val(x) else 0
    ensures NoDup(r.List(x))
    ensures forall p :: p in r.List(x) <==> InWait(r.Pc(p)) && r.Pc(p).sem == x && p !in r.up
  {
    hide Reachable;
    ReachableInv(r);
    hide SchedInv, WakesOk, DeepOk, AgesOk, SweepsOk, SemLocksOk;
  }

  lemma WakerRuns(r: State, p: Proc)
    requires Inv(r) && p in r.up && Asleep(r.St(p))
    ensures WakerComes(r, p)
    ensures var w := r.semLock[r.Pc(p).sem]; r.St(w) == Running && r.On(w) < r.ncpu && r.Cur(r.On(w)) == w
  {
    hide ListsOk, DeepOk, AgesOk, SweepsOk, ResultsOk, QueueOk, IdleOk, RunLockOk;
    assert WakerComes(r, p);
    var w := r.semLock[r.Pc(p).sem];
    assert HoldsSem(r.Pc(w)) && Fits(r.St(w), r.Pc(w));
  }

  /** No lost wake-up: a sleeping process is still listed, or a process that runs on a CPU
      and holds the semaphore's lock is about to activate it, which it can do as soon as
      the run lock is free. */
  lemma NoLostWakeUp(r: State, p: Proc)
    requires Reachable(r) && Asleep(r.St(p))
    ensures r.Pc(p).WaitSwitched?
    ensures p !in r.List(r.Pc(p).sem) ==>
      && r.Pc(p).sem in r.semLock
      && var w := r.semLock[r.Pc(p).sem];
      && r.St(w) == Running && r.On(w) < r.ncpu
      && (r.runLock == None ==> DoPostActivate(r, r.On(w)).St(p) == Runnable)
  {
    hide Reachable;
    ReachableInv(r);
    hide CpusOk, QueueOk, IdleOk, RunLockOk, SemLocksOk, WakesOk, DeepOk, AgesOk, SweepsOk, ResultsOk;
    assert Fits(r.St(p), r.Pc(p));
    if p !in r.List(r.Pc(p).sem) {
      assert p in r.up;
      WakerRuns(r, p);
    }
  }

  /** An unalertable wait never returns false. */
  lemma DeepWaitReturnsTrue(r: State, p: Proc)
    requires Reachable(r) && r.Res(p).Waited? && !r.Res(p).alert
    ensures r.Res(p).ok
  {
    hide Reachable;
    ReachableInv(r);
    hide SchedInv, SemLocksOk, ListsOk, WakesOk, DeepOk, AgesOk, SweepsOk;
  }

  lemma LastIsOldest(r: State, x: nat)
    requires ListsOk(r) && AgesOk(r) && r.Val(x) < 0
    ensures |r.List(x)| > 0
    ensures var z := r.List(x); forall q :: q in z && q != z[|z| - 1] ==> r.Ticket(z[|z| - 1]) < r.Ticket(q)
  {
  }

  /** A post wakes the waiter that was listed first, and takes only that one off the list. */
  lemma OldestFirst(r: State, r': State, c: nat, x: nat, job: Job)
    requires Reachable(r) && r.At(c, r.Cur(c), PostLocked(x, job)) && r.Val(x) < 0
    requires r' == DoPostInc(r, c)
    ensures r'.Pc(r.Cur(c)).PostWake?
    ensures var t := r'.Pc(r.Cur(c)).target;
      && r.List(x) == r'.List(x) + [t]
      && (forall q :: q in r.List(x) && q != t ==> r.Ticket(t) < r.Ticket(q))
      && r'.up == r.up + {t}
  {
    hide Reachable, DoPostInc, SchedInv, SemLocksOk, ListsOk, AgesOk, WakesOk, DeepOk, SweepsOk, ResultsOk;
    ReachableInv(r);
    PickOldest(r, r', c, x, job);
  }

  lemma PickOldest(r: State, r': State, c: nat, x: nat, job: Job)
    requires ListsOk(r) && AgesOk(r) && r.Pc(r.Cur(c)) == PostLocked(x, job) && r.Val(x) < 0
    requires r' == DoPostInc(r, c)
    ensures r'.Pc(r.Cur(c)).PostWake?
    ensures var t := r'.Pc(r.Cur(c)).target;
      && r.List(x) == r'.List(x) + [t]
      && (forall q :: q in r.List(x) && q != t ==> r.Ticket(t) < r.Ticket(q))
      && r'.up == r.up + {t}
  {
    LastIsOldest(r, x);
    hide ListsOk, AgesOk;
    var z := r.List(x);
    var t := z[|z| - 1];
    assert Picked(r, r', r.Cur(c), x, job);
    hide DoPostInc;
    assert r'.List(x) == z[..|z| - 1];
    assert z == z[..|z| - 1] + [t];
  }

  /** When post_all_sem returns: every process that waited when it took the lock has been
      posted and is awake, no other is listed, the result is their number, and the value is
      what it was, or 0 if there were waiters. */
  lemma PostAllWakesAll(r: State, r': State, c: nat, x: nat, job: Job)
    requires Reachable(r) && r.At(c, r.Cur(c), PostAfter(x, job)) && job.All? && r.Val(x) > 0
    requires r' == DoPostNext(r, c)
    ensures r'.Res(r.Cur(c)) == PostedAll(|job.start|, job.val0, job.start)
    ensures |job.start| == if job.val0 < 0 then -job.val0 else 0
    ensures forall q :: q in job.start ==> q in r'.up && !Asleep(r'.St(q))
    ensures r'.List(x) == []
    ensures r'.Val(x) == if job.val0 > 0 then job.val0 else 0
  {
    hide Reachable;
    ReachableInv(r);
    SweptAwake(r, c, x, job);
    SweptCount(r, c, x, job);
    PostAllDone(r, c);
    hide Inv;
    SweepEnds(r, c, x, job);
  }

  /** The last step of post_all counts the value down and gives the lock up. */
  lemma SweepEnds(r: State, c: nat, x: nat, job: Job)
    requires r.Pc(r.Cur(c)) == PostAfter(x, job) && job.All? && r.Val(x) > 0
    ensures var r' := DoPostNext(r, c);
      r'.up == r.up && r'.st == r.st && r'.list == r.list && r'.Val(x) == r.Val(x) - 1
  {
  }

  lemma SweptCount(r: State, c: nat, x: nat, job: Job)
    requires Inv(r) && r.At(c, r.Cur(c), PostAfter(x, job)) && job.All? && r.Val(x) > 0
    ensures |job.start| == if job.val0 < 0 then -job.val0 else 0
    ensures r.List(x) == [] && r.Val(x) - 1 == if job.val0 > 0 then job.val0 else 0
  {
    hide SchedInv, ListsOk, DeepOk, AgesOk, ResultsOk, WakesOk, SemLocksOk;
    assert SweepOk(r, r.Pc(r.Cur(c)));
    hide SweepsOk;
  }

  /** The sweep is over: everyone who was listed is posted and awake. */
  lemma SweptAwake(r: State, c: nat, x: nat, job: Job)
    requires Inv(r) && r.At(c, r.Cur(c), PostAfter(x, job)) && job.All? && r.Val(x) > 0
    ensures forall q :: q in job.start ==> q in r.up && !Asleep(r.St(q))
  {
    hide SchedInv, ListsOk, DeepOk, AgesOk, ResultsOk;
    var l := r.Pc(r.Cur(c));
    assert SweepOk(r, l);
    hide SweepsOk;
    assert r.semLock[x] == r.Cur(c) by { SweepHolds(r, r.Cur(c)); }
    hide SemLocksOk;
    forall q | q in job.start ensures q in r.up && !Asleep(r.St(q)) {
      var i :| 0 <= i < |job.start| && job.start[i] == q;
      assert q in r.up && InWait(r.Pc(q)) && r.Pc(q).sem == x;
      assert Asleep(r.St(q)) ==> WakerComes(r, q);
    }
  }

  lemma SweepHolds(r: State, p: Proc)
    requires SemLocksOk(r) && HoldsSem(r.Pc(p))
    ensures r.Pc(p).sem in r.semLock && r.semLock[r.Pc(p).sem] == p
  {
  }

  /** The steps by which the process on CPU `c`, holding the run lock, lets it go. */
  function LetGo(s: State, c: nat): (r: State) {
    match s.Pc(s.Cur(c))
    case WaitBoth(_, _) => DoResume(DoWaitSleep(DoWaitDropSem(s, c), c), c)
    case WaitSched(_, _) => DoResume(DoWaitSleep(s, c), c)
    case YieldHeld => DoResume(DoYieldSwitch(s, c), c)
    case ExitHeld => DoResume(DoExitSwitch(s, c), c)
    case _ => DoResume(s, c)
  }

  lemma SwitchParks(s: State, s': State, c: nat, new_: ProcState, l: Pc)
    requires SchedInv(s) && c < s.ncpu && s.runLock == Some(c)
    requires new_ == Runnable || (s.Cur(c).User? && (Asleep(new_) || new_ == Zombie))
    requires Fits(new_, l) && s' == Switch(s, c, s.Cur(c), new_, l)
    ensures DoResume(s', c).runLock == None
  {
    hide Switch, CpusOk, IdleOk, QueueOk, RunLockOk, PlacesOk, NoDup, SwitchedTo;
    SwitchView(s, s', c, new_, l);
    NextParked(s, s', c, s'.Cur(c), new_, l);
  }

  lemma NextParked(s: State, s': State, c: nat, next: Proc, new_: ProcState, l: Pc)
    requires PlacesOk(s) && SwitchedTo(s, s', c, next, new_, l) && Fits(new_, l) && next == s'.Cur(c)
    ensures Parked(s'.Pc(s'.Cur(c))) && s'.runLock == s.runLock
  {
    hide NoDup;
  }

  lemma LetGoWait(s: State, c: nat)
    requires SchedInv(s) && c < s.ncpu && s.runLock == Some(c) && s.Pc(s.Cur(c)).WaitSched?
    ensures DoResume(DoWaitSleep(s, c), c).runLock == None
  {
    hide CpusOk, QueueOk, RunLockOk, PlacesOk;
    var l := s.Pc(s.Cur(c));
    SwitchParks(s, DoWaitSleep(s, c), c, if l.alert then Sleeping else DeepSleeping, WaitSwitched(l.sem, l.alert));
  }

  /** The holder of the run lock releases it by its own steps, waiting for nothing. */
  lemma RunLockReleases(r: State, c: nat)
    requires Reachable(r) && r.runLock == Some(c)
    ensures LetGo(r, c).runLock == None
  {
    hide Reachable;
    ReachableInv(r);
    LetGoWorks(r, c);
  }

  lemma LetGoWorks(r: State, c: nat)
    requires Inv(r) && r.runLock == Some(c)
    ensures LetGo(r, c).runLock == None
  {
    hide SemInv, QueueOk, PlacesOk, DoResume, DoYieldSwitch, DoExitSwitch, DoWaitSleep, DoWaitDropSem;
    var l := r.Pc(r.Cur(c));
    assert c < r.ncpu && NeedsRun(l);
    hide SchedInv;
    if l.WaitBoth? || l.WaitSched? {
      LetGoWaits(r, c);
    } else if l.YieldHeld? || l.ExitHeld? {
      LetGoSwitches(r, c);
    } else {
      LetGoAtOnce(r, c);
    }
  }

  lemma LetGoAtOnce(r: State, c: nat)
    requires r.runLock == Some(c) && Parked(r.Pc(r.Cur(c)))
    ensures DoResume(r, c).runLock == None
  {
    var l := r.Pc(r.Cur(c));
    assert l.WaitSwitched? || l.Switched? || l.Fresh?;
  }

  lemma LetGoSwitches(r: State, c: nat)
    requires Inv(r) && c < r.ncpu && r.runLock == Some(c) && (r.Pc(r.Cur(c)).YieldHeld? || r.Pc(r.Cur(c)).ExitHeld?)
    ensures LetGo(r, c).runLock == None
  {
    hide SemInv, CpusOk, QueueOk, PlacesOk, DoResume;
    if r.Pc(r.Cur(c)).YieldHeld? {
      hide SchedInv;
      SwitchParks(r, DoYieldSwitch(r, c), c, Runnable, Switched);
    } else {
      assert r.Cur(c).User?;
      hide SchedInv;
      SwitchParks(r, DoExitSwitch(r, c), c, Zombie, Dead);
    }
  }

  lemma LetGoWaits(r: State, c: nat)
    requires Inv(r) && c < r.ncpu && r.runLock == Some(c) && (r.Pc(r.Cur(c)).WaitBoth? || r.Pc(r.Cur(c)).WaitSched?)
    ensures LetGo(r, c).runLock == None
  {
    hide SemInv, SchedInv, DoWaitSleep, DoResume;
    if r.Pc(r.Cur(c)).WaitBoth? {
      WaitDropSemKeeps(r, c);
      LetGoWait(DoWaitDropSem(r, c), c);
    } else {
      LetGoWait(r, c);
    }
  }
}
