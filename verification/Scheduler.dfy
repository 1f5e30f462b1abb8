/**
  N workers running Scheduler::run over one shared queue, as a transition system.
  A worker's program counter names the point of the loop it has reached; a block
  protected by m_mutex is one step, and so is every access to a shared counter or
  fiber state between two such blocks.
 */
module SchedulerModel {
  import opened Common
  import opened Runs

  type FiberId = nat

  datatype FiberState = INIT | HOLD | EXEC | TERM | READY | EXCEPT

  datatype Task = FiberTask(fiber: FiberId) | CbTask(cb: nat)

  const ANY_THREAD: int := -1

  /** FiberAndThread: a task and the worker it is pinned to. */
  datatype Entry = Entry(task: Task, thread: int)

  datatype Pc =
    | NotStarted                            // the caller's own worker, until stop() calls it
    | Scan                                  // loop head
    | Dequeued(task: Task)                  // ft filled, m_activeThreadCount raised
    | Enter(fiber: FiberId, viaCb: bool)    // about to swapIn
    | Running(fiber: FiberId, viaCb: bool)  // on the fiber's stack
    | Leaving(fiber: FiberId, viaCb: bool)  // still on that stack, inside swapOut
    | Returned(fiber: FiberId, viaCb: bool) // back on the worker's stack
    | Settling(fiber: FiberId, viaCb: bool) // m_activeThreadCount lowered
    | Requeuing(fiber: FiberId, viaCb: bool)// READY seen, schedule() not yet called
    | Dropping                              // dequeued a dead fiber
    | Nothing                               // the scan found no task
    | IdleTest                              // in the idle fiber, before stopping()
    | IdleWork                              // in the idle fiber, after stopping() was false
    | Exited

  datatype Worker = Worker(pc: Pc, idleTerm: bool, cbFiber: Option<FiberId>)

  datatype State = State(
    workers: seq<Worker>,
    queue: seq<Entry>,
    fibers: map<FiberId, FiberState>,
    nextFiber: FiberId,
    code: map<FiberId, Option<nat>>,  // the callback that run() last put into a fiber of its own
    active: int,
    autoStop: bool,
    stopping: bool,
    tickets: set<FiberId>,   // fibers that armed a wake-up which has not been issued yet
    aborted: bool)           // a SYLAR_ASSERT failed

  /**
    earlyHold: YieldToHold writes HOLD before the context is saved (as fiber.cc does);
    otherwise HOLD is written by run() alone, after the switch.
    wakeOnce: a fiber is woken only through a ticket it took while running, it takes one
    ticket per suspension, and it does not finish or yield READY with one outstanding.
    wakeSettled: a fiber is woken only when no worker has it any more.
   */
  datatype Policy = Policy(earlyHold: bool, wakeOnce: bool, wakeSettled: bool)

  datatype Job = NewFiber(thread: int) | NewCb(cb: nat, thread: int) | Wake(fiber: FiberId, thread: int)

  datatype Step =
    | SetAutoStop | SetStopping | Outside(job: Job)
    | Start(w: nat, quit: bool) | Take(w: nat, k: nat) | ScanNone(w: nat)
    | Dispatch(w: nat) | SwapIn(w: nat)
    | Spawn(w: nat, job: Job) | Arm(w: nat)
    | YieldHold(w: nat) | YieldReady(w: nat) | Finish(w: nat, threw: bool)
    | SwapOut(w: nat) | Decrement(w: nat) | Settle(w: nat) | Requeue(w: nat)
    | Drop(w: nat) | Empty(w: nat) | IdleCheck(w: nat, quit: bool) | IdleOut(w: nat)

  /** The worker a step belongs to; a call from outside is charged to worker 0, whose record it keeps. */
  function Who(step: Step): nat {
    if step.SetAutoStop? || step.SetStopping? || step.Outside? then 0 else step.w
  }

  function StateOf(s: State, f: FiberId): FiberState {
    if f in s.fibers then s.fibers[f] else INIT
  }

  predicate Dead(st: FiberState) { st == TERM || st == EXCEPT }

  /** The test at the scheduler's queue scan: may worker w take entry e now? */
  predicate Eligible(s: State, w: nat, e: Entry) {
    && (e.thread == ANY_THREAD || e.thread == w)
    && !(e.task.FiberTask? && StateOf(s, e.task.fiber) == EXEC)
  }

  /** Scheduler::stopping. */
  predicate Stopping(s: State) {
    s.autoStop && s.stopping && s.queue == [] && s.active == 0
  }

  predicate InQueue(s: State, f: FiberId) {
    exists i | 0 <= i < |s.queue| :: s.queue[i].task == FiberTask(f)
  }

  predicate Outstanding(s: State, f: FiberId) { f in s.tickets || InQueue(s, f) }

  function PcFiber(pc: Pc): Option<FiberId> {
    match pc
    case Dequeued(FiberTask(f)) => Some(f)
    case Enter(f, _) => Some(f)
    case Running(f, _) => Some(f)
    case Leaving(f, _) => Some(f)
    case Returned(f, _) => Some(f)
    case Settling(f, _) => Some(f)
    case Requeuing(f, _) => Some(f)
    case _ => None
  }

  /** Some worker has the fiber: it is about to run it, runs it, or has yet to settle what became of it. */
  predicate Had(s: State, f: FiberId) {
    exists w | 0 <= w < |s.workers| :: PcFiber(s.workers[w].pc) == Some(f)
  }

  predicate JobAllowed(p: Policy, s: State, job: Job) {
    job.Wake? ==>
      && job.fiber < s.nextFiber
      && (p.wakeOnce ==> job.fiber in s.tickets) && (p.wakeSettled ==> !Had(s, job.fiber))
  }

  predicate CanSpawn(pc: Pc) { pc.Running? || pc.IdleWork? }

  predicate Enabled(p: Policy, s: State, step: Step) {
    && !s.aborted
    && match step
       case SetAutoStop => true
       case SetStopping => s.autoStop
       case Outside(job) => |s.workers| > 0 && !(s.autoStop && s.stopping) && JobAllowed(p, s, job)
       case Take(w, k) =>
         && w < |s.workers| && s.workers[w].pc.Scan? && k < |s.queue|
         && Eligible(s, w, s.queue[k])
         && (forall i | 0 <= i < k :: !Eligible(s, w, s.queue[i]))
       case ScanNone(w) =>
         && w < |s.workers| && s.workers[w].pc.Scan?
         && (forall i | 0 <= i < |s.queue| :: !Eligible(s, w, s.queue[i]))
       case _ => step.w < |s.workers| && PcEnabled(p, s, s.workers[step.w].pc, step)
  }

  predicate PcEnabled(p: Policy, s: State, pc: Pc, step: Step)
    requires !step.SetAutoStop? && !step.SetStopping? && !step.Outside?
    requires !step.Take? && !step.ScanNone?
  {
    match step
    case Start(_, quit) => pc.NotStarted? && s.autoStop && s.stopping && (quit ==> Stopping(s))
    case Dispatch(_) => pc.Dequeued?
    case SwapIn(_) => pc.Enter?
    case Spawn(_, job) => CanSpawn(pc) && JobAllowed(p, s, job)
    case Arm(_) => pc.Running? && !Outstanding(s, pc.fiber)
    case YieldHold(_) => pc.Running?
    case YieldReady(_) => pc.Running? && (p.wakeOnce ==> !Outstanding(s, pc.fiber))
    case Finish(_, _) => pc.Running? && (p.wakeOnce ==> !Outstanding(s, pc.fiber))
    case SwapOut(_) => pc.Leaving?
    case Decrement(_) => pc.Returned?
    case Settle(_) => pc.Settling?
    case Requeue(_) => pc.Requeuing?
    case Drop(_) => pc.Dropping?
    case Empty(_) => pc.Nothing?
    case IdleCheck(_, quit) => pc.IdleTest? && (quit ==> Stopping(s))
    case IdleOut(_) => pc.IdleWork?
  }

  /** What one step does: worker w's new record, and its effect on the shared variables. */
  datatype Effect = Effect(
    me: Worker,
    writes: map<FiberId, FiberState>,
    loads: map<FiberId, Option<nat>>,
    pop: Option<nat>,
    push: seq<Entry>,
    delta: int,
    newFibers: nat,
    tickets: set<FiberId>,
    abort: bool)

  function Goto(s: State, x: Worker, pc: Pc): Effect {
    Effect(x.(pc := pc), map[], map[], None, [], 0, 0, s.tickets, false)
  }

  /** schedule(): scheduleNoLock pushes one entry at the back. */
  function Post(s: State, x: Worker, job: Job): Effect {
    var e := Goto(s, x, x.pc);
    match job
    case NewFiber(t) =>
      e.(writes := map[s.nextFiber := INIT], newFibers := 1, push := [Entry(FiberTask(s.nextFiber), t)])
    case NewCb(c, t) => e.(push := [Entry(CbTask(c), t)])
    case Wake(f, t) => e.(push := [Entry(FiberTask(f), t)], tickets := s.tickets - {f})
  }

  function DispatchEffect(s: State, x: Worker): Effect
    requires x.pc.Dequeued?
  {
    match x.pc.task
    case FiberTask(f) => Goto(s, x, if Dead(StateOf(s, f)) then Dropping else Enter(f, false))
    case CbTask(c) =>
      match x.cbFiber
      case Some(g) =>  // Fiber::reset asserts INIT, TERM or EXCEPT
        if StateOf(s, g) == INIT || Dead(StateOf(s, g))
        then Goto(s, x, Enter(g, true)).(writes := map[g := INIT], loads := map[g := Some(c)])
        else Goto(s, x, x.pc).(abort := true)
      case None =>
        var g := s.nextFiber;
        Goto(s, x.(cbFiber := Some(g)), Enter(g, true)).(
          writes := map[g := INIT], loads := map[g := Some(c)], newFibers := 1)
  }

  function SettleEffect(s: State, x: Worker): Effect
    requires x.pc.Settling?
  {
    var f, viaCb := x.pc.fiber, x.pc.viaCb;
    var st := StateOf(s, f);
    if st == READY then Goto(s, x, Requeuing(f, viaCb))
    else if Dead(st) then
      if viaCb then Goto(s, x, Scan).(writes := map[f := INIT], loads := map[f := None]) else Goto(s, x, Scan)
    else Goto(s, if viaCb then x.(cbFiber := None) else x, Scan).(writes := map[f := HOLD])
  }

  function RunningEffect(p: Policy, s: State, x: Worker, step: Step): Effect
    requires x.pc.Running?
    requires step.Arm? || step.YieldHold? || step.YieldReady? || step.Finish?
  {
    var f := x.pc.fiber;
    var leave := Goto(s, x, Leaving(f, x.pc.viaCb));
    match step
    case Arm(_) => Goto(s, x, x.pc).(tickets := s.tickets + {f})
    case YieldHold(_) => if p.earlyHold then leave.(writes := map[f := HOLD]) else leave
    case YieldReady(_) => leave.(writes := map[f := READY])
    case Finish(_, threw) => leave.(writes := map[f := if threw then EXCEPT else TERM])
  }

  function EffectOf(p: Policy, s: State, step: Step): Effect
    requires Enabled(p, s, step) && !step.SetAutoStop? && !step.SetStopping?
  {
    var x := s.workers[Who(step)];
    match step
    case Outside(job) => Post(s, x, job)
    // stop() asks stopping(), which IOManager overrides
    case Start(_, quit) => Goto(s, x, if quit then Exited else Scan)
    case Take(_, k) => Goto(s, x, Dequeued(s.queue[k].task)).(pop := Some(k), delta := 1)
    case ScanNone(_) => Goto(s, x, Nothing)
    case Dispatch(_) => DispatchEffect(s, x)
    case SwapIn(_) =>
      if StateOf(s, x.pc.fiber) == EXEC then Goto(s, x, x.pc).(abort := true)
      else Goto(s, x, Running(x.pc.fiber, x.pc.viaCb)).(writes := map[x.pc.fiber := EXEC])
    case Spawn(_, job) => Post(s, x, job)
    case SwapOut(_) => Goto(s, x, Returned(x.pc.fiber, x.pc.viaCb))
    case Decrement(_) => Goto(s, x, Settling(x.pc.fiber, x.pc.viaCb)).(delta := -1)
    case Settle(_) => SettleEffect(s, x)
    case Requeue(_) =>
      Goto(s, if x.pc.viaCb then x.(cbFiber := None) else x, Scan).(
        push := [Entry(FiberTask(x.pc.fiber), ANY_THREAD)])
    case Drop(_) => Goto(s, x, Scan).(delta := -1)
    case Empty(_) => Goto(s, x, if x.idleTerm then Exited else IdleTest)
    case IdleCheck(_, quit) => if quit then Goto(s, x.(idleTerm := true), Scan) else Goto(s, x, IdleWork)
    case IdleOut(_) => Goto(s, x, Scan)
    case Arm(_) => RunningEffect(p, s, x, step)
    case YieldHold(_) => RunningEffect(p, s, x, step)
    case YieldReady(_) => RunningEffect(p, s, x, step)
    case Finish(_, _) => RunningEffect(p, s, x, step)
  }

  function Do(s: State, w: nat, e: Effect): State
    requires w < |s.workers| && (e.pop.Some? ==> e.pop.value < |s.queue|)
  {
    State(s.workers[w := e.me],
          (if e.pop.Some? then RemoveAt(s.queue, e.pop.value) else s.queue) + e.push,
          s.fibers + e.writes, s.nextFiber + e.newFibers, s.code + e.loads, s.active + e.delta,
          s.autoStop, s.stopping, e.tickets, e.abort)
  }

  function Apply(p: Policy, s: State, step: Step): State
    requires Enabled(p, s, step)
  {
    if step.SetAutoStop? then s.(autoStop := true)
    else if step.SetStopping? then s.(stopping := true)
    else Do(s, Who(step), EffectOf(p, s, step))
  }

  /** After start(): every worker at its loop head, the caller's own worker possibly not started. */
  predicate Init(s: State) {
    && |s.workers| > 0
    && (forall w | 0 <= w < |s.workers| ::
          s.workers[w] == Worker(Scan, false, None) || s.workers[w] == Worker(NotStarted, false, None))
    && s.queue == [] && s.fibers == map[] && s.nextFiber == 0 && s.code == map[] && s.active == 0
    && !s.autoStop && !s.stopping && s.tickets == {} && !s.aborted
  }

  ghost predicate Next(p: Policy, s: State, t: State) {
    exists step :: Enabled(p, s, step) && t == Apply(p, s, step)
  }

  ghost function Steps(p: Policy): (State, State) -> bool { (s, t) => Next(p, s, t) }

  ghost predicate Run(p: Policy, tr: seq<State>) { Runs.Run(Init, Steps(p), tr) }

  // ---------------------------------------------------------------------------
  // Invariants of every run, whatever the policy
  // ---------------------------------------------------------------------------

  /** Between the dequeue and the matching decrement. */
  predicate Counted(pc: Pc) {
    pc.Dequeued? || pc.Enter? || pc.Running? || pc.Leaving? || pc.Returned? || pc.Dropping?
  }

  function CountActive(ws: seq<Worker>): nat {
    if ws == [] then 0 else (if Counted(ws[0].pc) then 1 else 0) + CountActive(ws[1..])
  }

  lemma {:induction false} CountUpdate(ws: seq<Worker>, w: nat, x: Worker)
    requires w < |ws|
    ensures CountActive(ws[w := x]) + (if Counted(ws[w].pc) then 1 else 0)
         == CountActive(ws) + (if Counted(x.pc) then 1 else 0)
  {
    var ws' := ws[w := x];
    if w == 0 {
      assert ws'[1..] == ws[1..];
    } else {
      assert ws'[1..] == ws[1..][w - 1 := x];
      CountUpdate(ws[1..], w - 1, x);
    }
  }

  lemma {:induction false} CountZero(ws: seq<Worker>)
    ensures CountActive(ws) == 0 <==> forall w | 0 <= w < |ws| :: !Counted(ws[w].pc)
  {
    if ws != [] {
      CountZero(ws[1..]);
      assert forall w | 1 <= w < |ws| :: ws[w] == ws[1..][w - 1];
    }
  }

  /** The points at which fiber f may be in state EXEC on account of this worker. */
  predicate OnFiber(pc: Pc, f: FiberId) {
    (pc.Running? || pc.Leaving? || pc.Returned? || pc.Settling?) && pc.fiber == f
  }

  /** The worker will pass its queue scan at least once more. */
  predicate WillScan(x: Worker) { !x.pc.Exited? && !(x.pc.Nothing? && x.idleTerm) }

  ghost predicate ActiveCountExact(s: State) { s.active == CountActive(s.workers) }

  ghost predicate QuitsAreAnnounced(s: State) {
    forall w | 0 <= w < |s.workers| ::
      s.workers[w].idleTerm || s.workers[w].pc.Exited? ==> s.autoStop && s.stopping
  }

  ghost predicate ExecHasWorker(s: State) {
    forall f | StateOf(s, f) == EXEC ::
      exists w :: 0 <= w < |s.workers| && OnFiber(s.workers[w].pc, f)
  }

  ghost predicate SomeoneWillScan(s: State) {
    (exists i :: 0 <= i < |s.queue| && s.queue[i].thread == ANY_THREAD)
    ==> exists w :: 0 <= w < |s.workers| && WillScan(s.workers[w])
  }

  ghost predicate Inv(s: State) {
    && |s.workers| > 0
    && ActiveCountExact(s) && QuitsAreAnnounced(s) && ExecHasWorker(s) && SomeoneWillScan(s)
  }

  predicate Flag(step: Step) { step.SetAutoStop? || step.SetStopping? }

  /** The three decrement sites and the one increment site, seen from the worker that passes them. */
  lemma EffectCounts(p: Policy, s: State, step: Step)
    requires Enabled(p, s, step) && !Flag(step)
    ensures var e := EffectOf(p, s, step);
            (if Counted(s.workers[Who(step)].pc) then 1 else 0) + e.delta == (if Counted(e.me.pc) then 1 else 0)
  {
  }

  lemma ActiveCountStep(p: Policy, s: State, step: Step)
    requires Enabled(p, s, step) && ActiveCountExact(s)
    ensures ActiveCountExact(Apply(p, s, step))
  {
    if !Flag(step) {
      EffectCounts(p, s, step);
      CountUpdate(s.workers, Who(step), EffectOf(p, s, step).me);
    }
  }

  /** A step writes EXEC only when it arrives on the fiber, and leaves a fiber only when it is not EXEC. */
  lemma EffectExec(p: Policy, s: State, step: Step)
    requires Enabled(p, s, step) && !Flag(step)
    ensures var e := EffectOf(p, s, step);
            && (forall f | f in e.writes && e.writes[f] == EXEC :: OnFiber(e.me.pc, f))
            && (forall f | OnFiber(s.workers[Who(step)].pc, f) ::
                  OnFiber(e.me.pc, f) || (if f in e.writes then e.writes[f] else StateOf(s, f)) != EXEC)
  {
  }

  lemma ExecHasWorkerStep(p: Policy, s: State, step: Step)
    requires Enabled(p, s, step) && ExecHasWorker(s)
    ensures ExecHasWorker(Apply(p, s, step))
  {
    var t := Apply(p, s, step);
    if Flag(step) {
      assert forall f :: StateOf(t, f) == StateOf(s, f);
    } else {
      EffectExec(p, s, step);
      var e := EffectOf(p, s, step);
      forall f | StateOf(t, f) == EXEC
        ensures exists w :: 0 <= w < |t.workers| && OnFiber(t.workers[w].pc, f)
      {
        if f in e.writes {
          assert OnFiber(t.workers[Who(step)].pc, f);
        } else {
          assert StateOf(s, f) == EXEC;
          var w :| 0 <= w < |s.workers| && OnFiber(s.workers[w].pc, f);
          assert OnFiber(t.workers[w].pc, f);
        }
      }
    }
  }

  /** A worker stops scanning only at an empty-handed scan, or at the caller's check that the queue is empty. */
  lemma EffectScan(p: Policy, s: State, step: Step)
    requires Enabled(p, s, step) && !Flag(step) && QuitsAreAnnounced(s)
    ensures var e := EffectOf(p, s, step); var x := s.workers[Who(step)];
            && (WillScan(x) && !WillScan(e.me) ==> step.ScanNone? || (step.Start? && s.queue == []))
            && (e.push != [] ==> WillScan(e.me))
            && (e.me.idleTerm || e.me.pc.Exited? ==> s.autoStop && s.stopping)
  {
  }

  /** A step of worker w that leaves it scanning, or leaves the queue empty. */
  lemma ScanKept(s: State, w: nat, e: Effect)
    requires w < |s.workers| && (e.pop.Some? ==> e.pop.value < |s.queue|) && SomeoneWillScan(s)
    requires WillScan(s.workers[w]) && !WillScan(e.me) ==> s.queue == []
    requires e.push != [] ==> WillScan(e.me)
    ensures SomeoneWillScan(Do(s, w, e))
  {
    var t := Do(s, w, e);
    if i :| 0 <= i < |t.queue| && t.queue[i].thread == ANY_THREAD {
      if e.push != [] {
        assert WillScan(t.workers[w]);
      } else {
        assert exists j :: 0 <= j < |s.queue| && s.queue[j] == t.queue[i];
        var v :| 0 <= v < |s.workers| && WillScan(s.workers[v]);
        assert WillScan(t.workers[v]);
      }
    }
  }

  /** If worker w finds nothing although an unpinned entry is left, another worker runs its fiber. */
  lemma ScanNoneKept(s: State, w: nat)
    requires w < |s.workers| && s.workers[w].pc.Scan? && ExecHasWorker(s)
    requires forall i | 0 <= i < |s.queue| :: !Eligible(s, w, s.queue[i])
    ensures SomeoneWillScan(Do(s, w, Goto(s, s.workers[w], Nothing)))
  {
    var t := Do(s, w, Goto(s, s.workers[w], Nothing));
    assert t.queue == s.queue;
    if i :| 0 <= i < |t.queue| && t.queue[i].thread == ANY_THREAD {
      assert !Eligible(s, w, s.queue[i]);
      var v :| 0 <= v < |s.workers| && OnFiber(s.workers[v].pc, s.queue[i].task.fiber);
      assert WillScan(t.workers[v]);
    }
  }

  lemma FlagsKept(p: Policy, s: State, step: Step)
    requires Enabled(p, s, step) && Flag(step) && SomeoneWillScan(s) && QuitsAreAnnounced(s)
    ensures SomeoneWillScan(Apply(p, s, step)) && QuitsAreAnnounced(Apply(p, s, step))
  {
    var t := Apply(p, s, step);
    assert t.workers == s.workers && t.queue == s.queue;
  }

  lemma SomeoneWillScanStep(p: Policy, s: State, step: Step)
    requires Enabled(p, s, step) && Inv(s)
    ensures SomeoneWillScan(Apply(p, s, step)) && QuitsAreAnnounced(Apply(p, s, step))
  {
    if Flag(step) {
      FlagsKept(p, s, step);
    } else {
      EffectScan(p, s, step);
      if step.ScanNone? {
        ScanNoneKept(s, step.w);
      } else {
        ScanKept(s, Who(step), EffectOf(p, s, step));
      }
    }
  }

  lemma InvStep(p: Policy, s: State, step: Step)
    requires Enabled(p, s, step) && Inv(s)
    ensures Inv(Apply(p, s, step))
  {
    ActiveCountStep(p, s, step);
    ExecHasWorkerStep(p, s, step);
    SomeoneWillScanStep(p, s, step);
  }

  lemma {:induction false} InvAlways(p: Policy, tr: seq<State>)
    requires Run(p, tr)
    ensures Inv(Last(tr))
  {
    if |tr| == 1 {
      CountZero(tr[0].workers);
    } else {
      var pre := tr[..|tr| - 1];
      InvAlways(p, pre);
      var step :| Enabled(p, Last(pre), step) && Last(tr) == Apply(p, Last(pre), step);
      InvStep(p, Last(pre), step);
    }
  }

  // ---------------------------------------------------------------------------
  // Custody of a fiber, when each suspension is woken once and not too early
  // ---------------------------------------------------------------------------

  /**
    Each suspension is woken once; and with an early HOLD, no fiber is woken while a worker has it. (With
    a late one, the fiber is EXEC for as long as a worker has it, and the scan passes it over.)
   */
  predicate Safe(p: Policy) { p.wakeOnce && (!p.earlyHold || p.wakeSettled) }

  predicate ViaCb(pc: Pc) {
    (pc.Enter? || pc.Running? || pc.Leaving? || pc.Returned? || pc.Settling? || pc.Requeuing?) && pc.viaCb
  }

  predicate Owns(x: Worker, f: FiberId) { PcFiber(x.pc) == Some(f) || x.cbFiber == Some(f) }

  /** The state a fiber may be in, and whether a wake-up of it may be outstanding, given where its worker is. */
  predicate GoodPc(pc: Pc, st: FiberState, outstanding: bool) {
    match pc
    case Running(_, _) => st == EXEC
    case Leaving(_, _) => st == EXEC || st == HOLD || (!outstanding && (st == READY || Dead(st)))
    case Returned(_, _) => st == EXEC || st == HOLD || (!outstanding && (st == READY || Dead(st)))
    case Settling(_, _) => st == EXEC || st == HOLD || (!outstanding && (st == READY || Dead(st)))
    case Requeuing(_, _) => st == READY && !outstanding
    case _ => !outstanding && st != EXEC && !Dead(st)
  }

  function Or0(f: Option<FiberId>): FiberId { if f.Some? then f.value else 0 }

  /** Worker x, given state and outstanding wake-up of its current fiber and of its cb_fiber. */
  predicate GoodView(x: Worker, st: FiberState, out: bool, cbSt: FiberState, cbOut: bool) {
    && (PcFiber(x.pc).Some? ==> GoodPc(x.pc, st, out) && (ViaCb(x.pc) <==> x.cbFiber == PcFiber(x.pc)))
    && (x.cbFiber.Some? && PcFiber(x.pc) != x.cbFiber ==> cbSt == INIT && !cbOut)
  }

  ghost predicate GoodWorker(s: State, x: Worker) {
    var f, g := Or0(PcFiber(x.pc)), Or0(x.cbFiber);
    GoodView(x, StateOf(s, f), Outstanding(s, f), StateOf(s, g), Outstanding(s, g))
  }

  ghost predicate OneOwner(s: State) {
    forall v, w, f | 0 <= v < |s.workers| && 0 <= w < |s.workers| && Owns(s.workers[v], f) && Owns(s.workers[w], f) ::
      v == w
  }

  ghost predicate GoodWorkers(s: State) {
    forall w | 0 <= w < |s.workers| :: GoodWorker(s, s.workers[w])
  }

  /** A queued fiber that a worker has is EXEC; when wake-ups wait for the fiber to settle, there is none. */
  predicate HadFine(p: Policy, s: State, w: nat, f: FiberId) {
    w < |s.workers| && PcFiber(s.workers[w].pc) == Some(f) && InQueue(s, f) ==>
      StateOf(s, f) == EXEC && !p.wakeSettled
  }

  ghost predicate HadIsExec(p: Policy, s: State) { forall w, f :: HadFine(p, s, w, f) }

  /** A fiber is HOLD before its worker has settled it only if that is published early. */
  predicate HoldFine(p: Policy, s: State, w: nat, f: FiberId) {
    w < |s.workers| && OnFiber(s.workers[w].pc, f) && StateOf(s, f) == HOLD ==> p.earlyHold
  }

  ghost predicate HoldIsEarly(p: Policy, s: State) { forall w, f :: HoldFine(p, s, w, f) }

  /** At most one outstanding wake-up per fiber, and none for a dead one. */
  ghost predicate OneWake(s: State) {
    && (forall i, j | 0 <= i < j < |s.queue| && s.queue[i].task.FiberTask? :: s.queue[i].task != s.queue[j].task)
    && (forall f | InQueue(s, f) :: f !in s.tickets)
    && (forall f | Outstanding(s, f) :: !Dead(StateOf(s, f)))
  }

  ghost predicate Bounded(s: State) {
    && (forall f | f in s.fibers :: f < s.nextFiber)
    && (forall f: FiberId | Outstanding(s, f) :: f < s.nextFiber)
    && (forall w, f: FiberId | 0 <= w < |s.workers| && Owns(s.workers[w], f) :: f < s.nextFiber)
  }

  ghost predicate Custody(p: Policy, s: State) {
    && Safe(p) && !s.aborted
    && OneOwner(s) && GoodWorkers(s) && OneWake(s) && Bounded(s) && HadIsExec(p, s) && HoldIsEarly(p, s)
  }

  /** A queued fiber that a scan may take is on no worker. */
  lemma TakenIsUnowned(p: Policy, s: State, w: nat, k: nat)
    requires Custody(p, s) && k < |s.queue| && s.queue[k].task.FiberTask? && Eligible(s, w, s.queue[k])
    ensures forall v | 0 <= v < |s.workers| :: !Owns(s.workers[v], s.queue[k].task.fiber)
  {
    var f := s.queue[k].task.fiber;
    assert InQueue(s, f);
    forall v | 0 <= v < |s.workers| ensures !Owns(s.workers[v], f) {
      assert GoodWorker(s, s.workers[v]) && HadFine(p, s, v, f);
    }
  }

  /** The fibers a step may write or come to own. */
  predicate Gains(s: State, step: Step, f: FiberId) {
    f == s.nextFiber || (step.Take? && step.k < |s.queue| && s.queue[step.k].task == FiberTask(f))
  }

  lemma EffectTouches(p: Policy, s: State, step: Step)
    requires Enabled(p, s, step) && !Flag(step)
    ensures var e := EffectOf(p, s, step); var x := s.workers[Who(step)];
            && (forall f | f in e.writes :: Owns(x, f) || (f == s.nextFiber && e.newFibers == 1))
            && (forall f | Owns(e.me, f) && !Owns(x, f) ::
                  Gains(s, step, f) && (f == s.nextFiber ==> e.newFibers == 1 || step.Take?))
  {
  }

  /** One owner per fiber, if what worker w comes to own is on no other worker. */
  lemma OwnerKept(ws: seq<Worker>, w: nat, me: Worker)
    requires w < |ws|
    requires forall u, v, f | 0 <= u < |ws| && 0 <= v < |ws| && Owns(ws[u], f) && Owns(ws[v], f) :: u == v
    requires forall v, f | 0 <= v < |ws| && v != w && Owns(me, f) :: !Owns(ws[v], f)
    ensures var ws' := ws[w := me];
            forall u, v, f | 0 <= u < |ws'| && 0 <= v < |ws'| && Owns(ws'[u], f) && Owns(ws'[v], f) :: u == v
  {
  }

  lemma GainedIsUnowned(p: Policy, s: State, step: Step, v: nat, f: FiberId)
    requires Enabled(p, s, step) && Custody(p, s) && !Flag(step) && v < |s.workers| && v != Who(step)
    requires Owns(EffectOf(p, s, step).me, f)
    ensures !Owns(s.workers[v], f)
  {
    EffectTouches(p, s, step);
    if step.Take? && s.queue[step.k].task.FiberTask? {
      TakenIsUnowned(p, s, step.w, step.k);
    }
  }

  lemma OneOwnerStep(p: Policy, s: State, step: Step)
    requires Enabled(p, s, step) && Custody(p, s)
    ensures OneOwner(Apply(p, s, step))
  {
    if !Flag(step) {
      var me := EffectOf(p, s, step).me;
      forall v, f | 0 <= v < |s.workers| && v != Who(step) && Owns(me, f)
        ensures !Owns(s.workers[v], f)
      {
        GainedIsUnowned(p, s, step, v, f);
      }
      OwnerKept(s.workers, Who(step), me);
    }
  }

  /** Fiber f's state after effect e. */
  function StateAfter(s: State, e: Effect, f: FiberId): FiberState {
    if f in e.writes then e.writes[f] else StateOf(s, f)
  }

  /** Whether a wake-up of f is outstanding after the step. */
  predicate OutstandingAfter(p: Policy, s: State, step: Step, f: FiberId)
    requires Enabled(p, s, step) && !Flag(step)
  {
    var pc := s.workers[Who(step)].pc;
    if step.Take? then Outstanding(s, f) && s.queue[step.k].task != FiberTask(f)
    else if step.Arm? || step.Requeue? then Outstanding(s, f) || f == pc.fiber
    else if (step.Outside? || step.Spawn?) && step.job.NewFiber? then Outstanding(s, f) || f == s.nextFiber
    else Outstanding(s, f)
  }

  lemma OutstandingTake(p: Policy, s: State, w: nat, k: nat, f: FiberId)
    requires Custody(p, s) && k < |s.queue|
    ensures var t := s.(queue := RemoveAt(s.queue, k));
            InQueue(t, f) <==> InQueue(s, f) && s.queue[k].task != FiberTask(f)
  {
    var q := RemoveAt(s.queue, k);
    if InQueue(s, f) && s.queue[k].task != FiberTask(f) {
      var i :| 0 <= i < |s.queue| && s.queue[i].task == FiberTask(f);
      assert q[if i < k then i else i - 1].task == FiberTask(f);
    }
    if i :| 0 <= i < |q| && q[i].task == FiberTask(f) {
      assert s.queue[if i < k then i else i + 1].task == FiberTask(f);
    }
  }

  lemma OutstandingStep(p: Policy, s: State, step: Step, f: FiberId)
    requires Enabled(p, s, step) && Custody(p, s) && !Flag(step)
    ensures Outstanding(Apply(p, s, step), f) == OutstandingAfter(p, s, step, f)
  {
    if step.Take? {
      OutstandingTake(p, s, step.w, step.k, f);
      assert RemoveAt(s.queue, step.k) + [] == RemoveAt(s.queue, step.k);
    } else {
      PushStep(p, s, step, f);
    }
  }

  lemma PushStep(p: Policy, s: State, step: Step, f: FiberId)
    requires Enabled(p, s, step) && !Flag(step) && !step.Take?
    ensures var t := Apply(p, s, step); var e := EffectOf(p, s, step);
            && t.queue == s.queue + e.push && |e.push| <= 1
            && (InQueue(t, f) <==> InQueue(s, f) || (e.push != [] && e.push[0].task == FiberTask(f)))
  {
    var t := Apply(p, s, step);
    var e := EffectOf(p, s, step);
    if InQueue(s, f) {
      var i :| 0 <= i < |s.queue| && s.queue[i].task == FiberTask(f);
      assert t.queue[i].task == FiberTask(f);
    }
    if e.push != [] {
      assert t.queue[|s.queue|] == e.push[0];
    }
  }

  /** A fiber on another worker keeps its state and its outstanding wake-up. */
  lemma OthersUntouched(p: Policy, s: State, step: Step, v: nat, f: FiberId)
    requires Enabled(p, s, step) && Custody(p, s) && !Flag(step)
    requires v < |s.workers| && v != Who(step) && Owns(s.workers[v], f)
    ensures var t := Apply(p, s, step);
            StateOf(t, f) == StateOf(s, f) && Outstanding(t, f) == Outstanding(s, f)
  {
    EffectTouches(p, s, step);
    OutstandingStep(p, s, step, f);
    if step.Take? && s.queue[step.k].task.FiberTask? {
      TakenIsUnowned(p, s, step.w, step.k);
    }
    assert !Owns(s.workers[Who(step)], f);
  }

  ghost predicate GoodAfter(p: Policy, s: State, step: Step)
    requires Enabled(p, s, step) && !Flag(step)
  {
    var e := EffectOf(p, s, step);
    var f, g := Or0(PcFiber(e.me.pc)), Or0(e.me.cbFiber);
    && !e.abort
    && GoodView(e.me, StateAfter(s, e, f), OutstandingAfter(p, s, step, f),
                StateAfter(s, e, g), OutstandingAfter(p, s, step, g))
  }

  lemma SelfTake(p: Policy, s: State, step: Step)
    requires Enabled(p, s, step) && Custody(p, s) && step.Take?
    ensures GoodAfter(p, s, step)
  {
    assert GoodWorker(s, s.workers[step.w]);
    if s.queue[step.k].task.FiberTask? {
      var f := s.queue[step.k].task.fiber;
      assert Outstanding(s, f) by { assert InQueue(s, f); }
      TakenIsUnowned(p, s, step.w, step.k);
      assert !Owns(s.workers[step.w], f);
    }
  }

  lemma SelfPost(p: Policy, s: State, step: Step)
    requires Enabled(p, s, step) && Custody(p, s) && (step.Outside? || step.Spawn?)
    ensures GoodAfter(p, s, step)
  {
    assert GoodWorker(s, s.workers[Who(step)]);
    assert !Owns(s.workers[Who(step)], s.nextFiber);
  }

  lemma SelfRunning(p: Policy, s: State, step: Step)
    requires Enabled(p, s, step) && Custody(p, s) && (step.Arm? || step.YieldHold? || step.YieldReady? || step.Finish?)
    ensures GoodAfter(p, s, step)
  {
    assert GoodWorker(s, s.workers[step.w]);
  }

  lemma SelfBranch(p: Policy, s: State, step: Step)
    requires Enabled(p, s, step) && Custody(p, s) && (step.Dispatch? || step.Settle?)
    requires PcFiber(s.workers[step.w].pc).Some?
    ensures GoodAfter(p, s, step)
  {
    assert GoodWorker(s, s.workers[step.w]);
  }

  lemma SelfFiber(p: Policy, s: State, step: Step)
    requires Enabled(p, s, step) && Custody(p, s) && !Flag(step) && !step.Take? && !step.Outside? && !step.Spawn?
    requires PcFiber(s.workers[Who(step)].pc).Some?
    ensures GoodAfter(p, s, step)
  {
    if step.Arm? || step.YieldHold? || step.YieldReady? || step.Finish? {
      SelfRunning(p, s, step);
    } else if step.Dispatch? || step.Settle? {
      SelfBranch(p, s, step);
    } else {
      assert GoodWorker(s, s.workers[Who(step)]);
    }
  }

  /** The stepping worker's own fibers stay in order; no assertion fails. */
  lemma SelfStep(p: Policy, s: State, step: Step)
    requires Enabled(p, s, step) && Custody(p, s) && !Flag(step)
    ensures GoodAfter(p, s, step)
  {
    if step.Take? {
      SelfTake(p, s, step);
    } else if step.Outside? || step.Spawn? {
      SelfPost(p, s, step);
    } else if PcFiber(s.workers[Who(step)].pc).Some? {
      SelfFiber(p, s, step);
    } else {
      assert GoodWorker(s, s.workers[Who(step)]);
      assert !Outstanding(s, s.nextFiber);
    }
  }

  lemma SelfGood(p: Policy, s: State, step: Step)
    requires Enabled(p, s, step) && Custody(p, s) && !Flag(step)
    ensures GoodWorker(Apply(p, s, step), EffectOf(p, s, step).me) && !Apply(p, s, step).aborted
  {
    SelfStep(p, s, step);
    var me := EffectOf(p, s, step).me;
    OutstandingStep(p, s, step, Or0(PcFiber(me.pc)));
    OutstandingStep(p, s, step, Or0(me.cbFiber));
  }

  lemma GoodWorkersStep(p: Policy, s: State, step: Step)
    requires Enabled(p, s, step) && Custody(p, s) && !Flag(step)
    ensures GoodWorkers(Apply(p, s, step))
  {
    var t := Apply(p, s, step);
    SelfGood(p, s, step);
    forall v | 0 <= v < |t.workers| ensures GoodWorker(t, t.workers[v]) {
      if v != Who(step) {
        var x := s.workers[v];
        assert GoodWorker(s, x);
        if PcFiber(x.pc).Some? {
          OthersUntouched(p, s, step, v, PcFiber(x.pc).value);
        }
        if x.cbFiber.Some? {
          OthersUntouched(p, s, step, v, x.cbFiber.value);
        }
      }
    }
  }

  /** A fiber pushed on the queue was not queued, and no ticket for it is left. */
  lemma PushedOnce(p: Policy, s: State, step: Step)
    requires Enabled(p, s, step) && Custody(p, s) && !Flag(step)
    ensures var e := EffectOf(p, s, step);
            && (e.push != [] && e.push[0].task.FiberTask? ==>
                  !InQueue(s, e.push[0].task.fiber) && e.push[0].task.fiber !in e.tickets)
            && (forall f | f in e.tickets && f !in s.tickets :: step.Arm? && !InQueue(s, f))
  {
    assert GoodWorker(s, s.workers[Who(step)]);
    assert !Outstanding(s, s.nextFiber);
  }

  lemma QueueStep(p: Policy, s: State, step: Step)
    requires Enabled(p, s, step) && Custody(p, s) && !Flag(step)
    ensures var t := Apply(p, s, step);
            && (forall i, j | 0 <= i < j < |t.queue| && t.queue[i].task.FiberTask? ::
                t.queue[i].task != t.queue[j].task)
            && (forall f | InQueue(t, f) :: f !in t.tickets)
  {
    var t := Apply(p, s, step);
    var e := EffectOf(p, s, step);
    PushedOnce(p, s, step);
    if step.Take? {
      forall f | InQueue(t, f) ensures f !in t.tickets {
        var i :| 0 <= i < |t.queue| && t.queue[i].task == FiberTask(f);
        assert s.queue[if i < step.k then i else i + 1].task == FiberTask(f);
      }
    } else {
      forall f | InQueue(t, f) ensures f !in t.tickets {
        PushStep(p, s, step, f);
      }
      forall i, j | 0 <= i < j < |t.queue| && t.queue[i].task.FiberTask?
        ensures t.queue[i].task != t.queue[j].task
      {
        PushStep(p, s, step, t.queue[i].task.fiber);
        assert t.queue[i] == s.queue[i];
        assert InQueue(s, t.queue[i].task.fiber);
      }
    }
  }

  /** No wake-up is ever outstanding for a dead fiber, and none for a fiber not yet created. */
  lemma WakeStateStep(p: Policy, s: State, step: Step, f: FiberId)
    requires Enabled(p, s, step) && Custody(p, s) && !Flag(step) && OutstandingAfter(p, s, step, f)
    ensures !Dead(StateAfter(s, EffectOf(p, s, step), f))
    ensures f < s.nextFiber + EffectOf(p, s, step).newFibers
  {
    var x := s.workers[Who(step)];
    assert GoodWorker(s, x);
    if PcFiber(x.pc) == Some(f) {
      assert Owns(x, f);
    }
  }

  /** What a scan takes is queued no more. */
  lemma HadTaken(p: Policy, s: State, step: Step, f: FiberId)
    requires Enabled(p, s, step) && Custody(p, s) && step.Take?
    ensures !(PcFiber(EffectOf(p, s, step).me.pc) == Some(f) && InQueue(Apply(p, s, step), f))
  {
    OutstandingTake(p, s, step.w, step.k, f);
    assert RemoveAt(s.queue, step.k) + [] == RemoveAt(s.queue, step.k);
  }

  /** Fiber f is on the stepping worker after the step, and queued: from before, or by the step. */
  ghost predicate QueuedSelf(p: Policy, s: State, step: Step, f: FiberId)
    requires Enabled(p, s, step) && !Flag(step)
  {
    var e := EffectOf(p, s, step);
    PcFiber(e.me.pc) == Some(f) && (InQueue(s, f) || (e.push != [] && e.push[0].task == FiberTask(f)))
  }

  lemma HadRunning(p: Policy, s: State, step: Step, f: FiberId)
    requires Enabled(p, s, step) && Custody(p, s) && !Flag(step) && QueuedSelf(p, s, step, f)
    requires step.Arm? || step.YieldHold? || step.YieldReady? || step.Finish?
    ensures StateAfter(s, EffectOf(p, s, step), f) == EXEC && !p.wakeSettled
  {
    assert GoodWorker(s, s.workers[step.w]) && HadFine(p, s, step.w, f);
    assert Outstanding(s, f);
  }

  lemma HadPosting(p: Policy, s: State, step: Step, f: FiberId)
    requires Enabled(p, s, step) && Custody(p, s) && (step.Outside? || step.Spawn?) && QueuedSelf(p, s, step, f)
    ensures StateAfter(s, EffectOf(p, s, step), f) == EXEC && !p.wakeSettled
  {
    var x := s.workers[Who(step)];
    assert GoodWorker(s, x) && HadFine(p, s, Who(step), f) && HoldFine(p, s, Who(step), f);
    assert Owns(x, f) && f < s.nextFiber && Had(s, f);
  }

  lemma HadMoving(p: Policy, s: State, step: Step, f: FiberId)
    requires Enabled(p, s, step) && Custody(p, s) && !Flag(step) && !step.Take? && QueuedSelf(p, s, step, f)
    requires !step.Outside? && !step.Spawn? && !step.Arm? && !step.YieldHold? && !step.YieldReady? && !step.Finish?
    ensures StateAfter(s, EffectOf(p, s, step), f) == EXEC && !p.wakeSettled
  {
    assert GoodWorker(s, s.workers[Who(step)]) && HadFine(p, s, Who(step), f);
    assert !Outstanding(s, s.nextFiber);
    assert InQueue(s, f) ==> Outstanding(s, f);
  }

  /** A fiber on the stepping worker after the step and queued is EXEC, and wake-ups do not wait. */
  lemma HadSelf(p: Policy, s: State, step: Step, f: FiberId)
    requires Enabled(p, s, step) && Custody(p, s) && !Flag(step) && !step.Take? && QueuedSelf(p, s, step, f)
    ensures StateAfter(s, EffectOf(p, s, step), f) == EXEC && !p.wakeSettled
  {
    if step.Outside? || step.Spawn? {
      HadPosting(p, s, step, f);
    } else if step.Arm? || step.YieldHold? || step.YieldReady? || step.Finish? {
      HadRunning(p, s, step, f);
    } else {
      HadMoving(p, s, step, f);
    }
  }

  /** So is one on another worker. */
  lemma HadOther(p: Policy, s: State, step: Step, v: nat, f: FiberId)
    requires Enabled(p, s, step) && Custody(p, s) && !Flag(step) && v < |s.workers| && v != Who(step)
    requires PcFiber(s.workers[v].pc) == Some(f) && InQueue(Apply(p, s, step), f)
    ensures StateOf(Apply(p, s, step), f) == EXEC && !p.wakeSettled
  {
    OthersUntouched(p, s, step, v, f);
    assert GoodWorker(s, s.workers[v]) && HadFine(p, s, v, f) && HoldFine(p, s, v, f);
    assert Owns(s.workers[v], f) && f < s.nextFiber && !Owns(s.workers[Who(step)], f);
    if step.Take? {
      OutstandingTake(p, s, step.w, step.k, f);
      assert RemoveAt(s.queue, step.k) + [] == RemoveAt(s.queue, step.k);
    } else {
      PushStep(p, s, step, f);
      if !InQueue(s, f) {
        assert Had(s, f);
      }
    }
  }

  lemma HadAfter(p: Policy, s: State, step: Step, w: nat, f: FiberId)
    requires Enabled(p, s, step) && Custody(p, s) && !Flag(step)
    ensures HadFine(p, Apply(p, s, step), w, f)
  {
    var t := Apply(p, s, step);
    if w < |t.workers| && PcFiber(t.workers[w].pc) == Some(f) && InQueue(t, f) {
      if w != Who(step) {
        HadOther(p, s, step, w, f);
      } else if step.Take? {
        HadTaken(p, s, step, f);
      } else {
        PushStep(p, s, step, f);
        HadSelf(p, s, step, f);
      }
    }
  }

  lemma HadStep(p: Policy, s: State, step: Step)
    requires Enabled(p, s, step) && Custody(p, s) && !Flag(step)
    ensures HadIsExec(p, Apply(p, s, step))
  {
    forall w: nat, f ensures HadFine(p, Apply(p, s, step), w, f) {
      HadAfter(p, s, step, w, f);
    }
  }

  lemma HoldMoving(p: Policy, s: State, step: Step, f: FiberId)
    requires Enabled(p, s, step) && !Flag(step)
    requires !step.Arm? && !step.YieldHold? && !step.YieldReady? && !step.Finish?
    requires OnFiber(EffectOf(p, s, step).me.pc, f) && StateAfter(s, EffectOf(p, s, step), f) == HOLD
    requires f != s.nextFiber
    ensures OnFiber(s.workers[Who(step)].pc, f) && StateOf(s, f) == HOLD
  {
  }

  lemma HoldSelf(p: Policy, s: State, step: Step, f: FiberId)
    requires Enabled(p, s, step) && Custody(p, s) && !Flag(step)
    requires OnFiber(EffectOf(p, s, step).me.pc, f) && StateAfter(s, EffectOf(p, s, step), f) == HOLD
    ensures p.earlyHold
  {
    assert HoldFine(p, s, Who(step), f);
    if step.Arm? || step.YieldHold? || step.YieldReady? || step.Finish? {
      assert GoodWorker(s, s.workers[Who(step)]);
    } else {
      HoldMoving(p, s, step, f);
    }
  }

  lemma HoldAfter(p: Policy, s: State, step: Step, w: nat, f: FiberId)
    requires Enabled(p, s, step) && Custody(p, s) && !Flag(step)
    ensures HoldFine(p, Apply(p, s, step), w, f)
  {
    var t := Apply(p, s, step);
    if w < |t.workers| && OnFiber(t.workers[w].pc, f) && StateOf(t, f) == HOLD {
      if w == Who(step) {
        HoldSelf(p, s, step, f);
      } else {
        OthersUntouched(p, s, step, w, f);
        assert HoldFine(p, s, w, f);
      }
    }
  }

  lemma HoldStep(p: Policy, s: State, step: Step)
    requires Enabled(p, s, step) && Custody(p, s) && !Flag(step)
    ensures HoldIsEarly(p, Apply(p, s, step))
  {
    forall w: nat, f ensures HoldFine(p, Apply(p, s, step), w, f) {
      HoldAfter(p, s, step, w, f);
    }
  }

  lemma CustodyFlag(p: Policy, s: State, step: Step)
    requires Enabled(p, s, step) && Custody(p, s) && Flag(step)
    ensures Custody(p, Apply(p, s, step))
  {
    var t := Apply(p, s, step);
    assert forall f :: StateOf(t, f) == StateOf(s, f) && InQueue(t, f) == InQueue(s, f);
    assert forall f :: Outstanding(t, f) == Outstanding(s, f);
    forall w | 0 <= w < |t.workers| ensures GoodWorker(t, t.workers[w]) {
      assert GoodWorker(s, s.workers[w]);
    }
    forall w: nat, f ensures HadFine(p, t, w, f) && HoldFine(p, t, w, f) {
      assert HadFine(p, s, w, f) && HoldFine(p, s, w, f);
    }
  }

  lemma WakesStep(p: Policy, s: State, step: Step)
    requires Enabled(p, s, step) && Custody(p, s) && !Flag(step)
    ensures var t := Apply(p, s, step);
            forall f: FiberId | Outstanding(t, f) :: !Dead(StateOf(t, f)) && f < t.nextFiber
  {
    var t := Apply(p, s, step);
    forall f: FiberId | Outstanding(t, f) ensures !Dead(StateOf(t, f)) && f < t.nextFiber {
      OutstandingStep(p, s, step, f);
      WakeStateStep(p, s, step, f);
    }
  }

  lemma CustodyStep(p: Policy, s: State, step: Step)
    requires Enabled(p, s, step) && Custody(p, s)
    ensures Custody(p, Apply(p, s, step))
  {
    if Flag(step) {
      CustodyFlag(p, s, step);
    } else {
      OneOwnerStep(p, s, step);
      GoodWorkersStep(p, s, step);
      QueueStep(p, s, step);
      SelfGood(p, s, step);
      WakesStep(p, s, step);
      BoundedStep(p, s, step);
      HadStep(p, s, step);
      HoldStep(p, s, step);
    }
  }

  lemma BoundedStep(p: Policy, s: State, step: Step)
    requires Enabled(p, s, step) && Custody(p, s) && !Flag(step)
    ensures var t := Apply(p, s, step);
            && (forall f | f in t.fibers :: f < t.nextFiber)
            && (forall w, f: FiberId | 0 <= w < |t.workers| && Owns(t.workers[w], f) :: f < t.nextFiber)
  {
    var t := Apply(p, s, step);
    EffectTouches(p, s, step);
    var w := Who(step);
    if step.Take? && s.queue[step.k].task.FiberTask? {
      assert Outstanding(s, s.queue[step.k].task.fiber) by { assert InQueue(s, s.queue[step.k].task.fiber); }
    }
    forall v, f: FiberId | 0 <= v < |t.workers| && Owns(t.workers[v], f) ensures f < t.nextFiber {
      if v != w || Owns(s.workers[v], f) {
        assert Owns(s.workers[v], f);
      }
    }
  }

  lemma {:induction false} CustodyAlways(p: Policy, tr: seq<State>)
    requires Run(p, tr) && Safe(p)
    ensures Custody(p, Last(tr))
  {
    if |tr| > 1 {
      var pre := tr[..|tr| - 1];
      CustodyAlways(p, pre);
      var step :| Enabled(p, Last(pre), step) && Last(tr) == Apply(p, Last(pre), step);
      CustodyStep(p, Last(pre), step);
    }
  }

  // ---------------------------------------------------------------------------
  // Main results
  // ---------------------------------------------------------------------------

  /**
    m_activeThreadCount is the number of workers between a dequeue and its decrement, in every run
    under every policy; so it never underflows, and when stopping() is true no worker holds a task
    it has still to run, only a fiber that has come back.
   */
  lemma ActiveCount(p: Policy, tr: seq<State>)
    requires Run(p, tr)
    ensures var s := Last(tr);
            && s.active == CountActive(s.workers) >= 0
            && (Stopping(s) ==> forall w | 0 <= w < |s.workers| ::
                  && !Counted(s.workers[w].pc)
                  && (PcFiber(s.workers[w].pc).Some? ==> s.workers[w].pc.Settling? || s.workers[w].pc.Requeuing?))
  {
    InvAlways(p, tr);
    CountZero(Last(tr).workers);
  }

  /** Once every worker has left run(), the queue holds no unpinned task. */
  lemma NoTaskLost(p: Policy, tr: seq<State>)
    requires Run(p, tr)
    requires forall w | 0 <= w < |Last(tr).workers| :: Last(tr).workers[w].pc.Exited?
    ensures forall i | 0 <= i < |Last(tr).queue| :: Last(tr).queue[i].thread != ANY_THREAD
  {
    InvAlways(p, tr);
  }

  predicate OnStack(pc: Pc, f: FiberId) { (pc.Running? || pc.Leaving?) && pc.fiber == f }

  /** No fiber is on two workers' stacks. */
  ghost predicate StacksApart(s: State) {
    forall v, w, f | 0 <= v < w < |s.workers| && OnStack(s.workers[v].pc, f) :: !OnStack(s.workers[w].pc, f)
  }

  /**
    With one wake-up per suspension, and late publication or wake-ups that wait until the fiber has settled:
    stacks stay apart, the state assertions of swapIn and reset never fail, and at a loop head cb_fiber is
    null or INIT.
   */
  lemma SafePolicyIsSafe(p: Policy, tr: seq<State>)
    requires Run(p, tr) && Safe(p)
    ensures var s := Last(tr);
            && StacksApart(s) && !s.aborted
            && (forall w | 0 <= w < |s.workers| && s.workers[w].pc.Scan? && s.workers[w].cbFiber.Some? ::
                  StateOf(s, s.workers[w].cbFiber.value) == INIT)
  {
    CustodyAlways(p, tr);
    var s := Last(tr);
    forall v, w, f | 0 <= v < w < |s.workers| && OnStack(s.workers[v].pc, f)
      ensures !OnStack(s.workers[w].pc, f)
    {
      assert Owns(s.workers[v], f);
      assert !Owns(s.workers[w], f);
    }
    forall w | 0 <= w < |s.workers| && s.workers[w].pc.Scan? && s.workers[w].cbFiber.Some?
      ensures StateOf(s, s.workers[w].cbFiber.value) == INIT
    {
      assert GoodWorker(s, s.workers[w]);
    }
  }

  function Two(a: Pc, b: Pc): seq<Worker> { [Worker(a, false, None), Worker(b, false, None)] }

  function Snap(a: Pc, b: Pc, queue: seq<Entry>, st: FiberState, active: int, tickets: set<FiberId>): State {
    State(Two(a, b), queue, map[0 := st], 1, map[], active, false, false, tickets, false)
  }

  /** R covers every run. */
  ghost predicate Covers(p: Policy, R: State -> bool) { Runs.Covers(Init, Steps(p), R) }

  lemma Move(p: Policy, R: State -> bool, s: State, step: Step, t: State)
    requires Covers(p, R) && R(s) && Enabled(p, s, step) && Apply(p, s, step) == t
    ensures R(t)
  {
  }

  /** The states of all runs. */
  ghost function All(p: Policy): State -> bool { Reached(Init, Steps(p)) }

  const WAKE0: seq<Entry> := [Entry(FiberTask(0), ANY_THREAD)]

  /** Fiber 0 is submitted, and worker 0 takes it. */
  lemma BadRunSubmit(p: Policy, R: State -> bool)
    requires Covers(p, R)
    ensures R(Snap(Scan, Scan, WAKE0, INIT, 0, {}))
  {
    var s0 := State(Two(Scan, Scan), [], map[], 0, map[], 0, false, false, {}, false);
    assert Init(s0) && R(s0);
    assert s0.fibers + map[0 := INIT] == map[0 := INIT];
    Move(p, R, s0, Outside(NewFiber(ANY_THREAD)), Snap(Scan, Scan, WAKE0, INIT, 0, {}));
  }

  lemma BadRunTake(p: Policy, R: State -> bool)
    requires Covers(p, R)
    ensures R(Snap(Dequeued(FiberTask(0)), Scan, [], INIT, 1, {}))
  {
    BadRunSubmit(p, R);
    TakeZero(p, R, Scan, INIT, 0);
  }

  /** The state may be swapped in. */
  predicate Fresh(st: FiberState) { st != EXEC && !Dead(st) }

  /** Worker 0, having taken fiber 0, enters it. */
  lemma EnterZero(p: Policy, R: State -> bool, b: Pc, st: FiberState, active: int)
    requires Covers(p, R) && Fresh(st) && R(Snap(Dequeued(FiberTask(0)), b, [], st, active, {}))
    ensures R(Snap(Running(0, false), b, [], EXEC, active, {}))
  {
    var s := Snap(Enter(0, false), b, [], st, active, {});
    Move(p, R, Snap(Dequeued(FiberTask(0)), b, [], st, active, {}), Dispatch(0), s);
    Move(p, R, s, SwapIn(0), Snap(Running(0, false), b, [], EXEC, active, {}));
  }

  /** So does worker 1. */
  lemma EnterOne(p: Policy, R: State -> bool, a: Pc, st: FiberState, active: int)
    requires Covers(p, R) && Fresh(st) && R(Snap(a, Dequeued(FiberTask(0)), [], st, active, {}))
    ensures R(Snap(a, Running(0, false), [], EXEC, active, {}))
  {
    var s := Snap(a, Enter(0, false), [], st, active, {});
    Move(p, R, Snap(a, Dequeued(FiberTask(0)), [], st, active, {}), Dispatch(1), s);
    Move(p, R, s, SwapIn(1), Snap(a, Running(0, false), [], EXEC, active, {}));
  }

  /** A scanning worker takes the one entry of the queue. */
  lemma TakeZero(p: Policy, R: State -> bool, b: Pc, st: FiberState, active: int)
    requires Covers(p, R) && st != EXEC && R(Snap(Scan, b, WAKE0, st, active, {}))
    ensures R(Snap(Dequeued(FiberTask(0)), b, [], st, active + 1, {}))
  {
    var s := Snap(Scan, b, WAKE0, st, active, {});
    assert Eligible(s, 0, s.queue[0]);
    Move(p, R, s, Take(0, 0), Snap(Dequeued(FiberTask(0)), b, [], st, active + 1, {}));
  }

  lemma TakeOne(p: Policy, R: State -> bool, a: Pc, st: FiberState, active: int)
    requires Covers(p, R) && st != EXEC && R(Snap(a, Scan, WAKE0, st, active, {}))
    ensures R(Snap(a, Dequeued(FiberTask(0)), [], st, active + 1, {}))
  {
    var s := Snap(a, Scan, WAKE0, st, active, {});
    assert Eligible(s, 1, s.queue[0]);
    Move(p, R, s, Take(1, 0), Snap(a, Dequeued(FiberTask(0)), [], st, active + 1, {}));
  }

  lemma BadRunEnter(p: Policy, R: State -> bool)
    requires Covers(p, R)
    ensures R(Snap(Running(0, false), Scan, [], EXEC, 1, {}))
  {
    BadRunTake(p, R);
    EnterZero(p, R, Scan, INIT, 1);
  }

  lemma BadRunArm(p: Policy, R: State -> bool)
    requires Covers(p, R)
    ensures R(Snap(Running(0, false), Scan, [], EXEC, 1, {0}))
  {
    BadRunEnter(p, R);
    Move(p, R, Snap(Running(0, false), Scan, [], EXEC, 1, {}), Arm(0), Snap(Running(0, false), Scan, [], EXEC, 1, {0}));
  }

  /** It takes a ticket, and is woken while it is still running. */
  lemma BadRunWake(p: Policy, R: State -> bool)
    requires Covers(p, R) && !p.wakeSettled
    ensures R(Snap(Running(0, false), Scan, WAKE0, EXEC, 1, {}))
  {
    BadRunArm(p, R);
    var s5 := Snap(Running(0, false), Scan, [], EXEC, 1, {0});
    Move(p, R, s5, Outside(Wake(0, ANY_THREAD)), Snap(Running(0, false), Scan, WAKE0, EXEC, 1, {}));
  }

  /** It yields: HOLD is visible before its context is saved, and worker 1 takes it. */
  lemma BadRunYield(p: Policy, R: State -> bool)
    requires Covers(p, R) && p.earlyHold && !p.wakeSettled
    ensures R(Snap(Leaving(0, false), Dequeued(FiberTask(0)), [], HOLD, 2, {}))
  {
    BadRunWake(p, R);
    var s7 := Snap(Leaving(0, false), Scan, WAKE0, HOLD, 1, {});
    Move(p, R, Snap(Running(0, false), Scan, WAKE0, EXEC, 1, {}), YieldHold(0), s7);
    TakeOne(p, R, Leaving(0, false), HOLD, 1);
  }

  /** Worker 1 enters the stack worker 0 is still on. */
  lemma BadRunShare(p: Policy, R: State -> bool)
    requires Covers(p, R) && p.earlyHold && !p.wakeSettled
    ensures R(Snap(Leaving(0, false), Running(0, false), [], EXEC, 2, {}))
  {
    BadRunYield(p, R);
    EnterOne(p, R, Leaving(0, false), HOLD, 2);
  }

  /** Woken twice: fiber 0 is queued a second time before it has run, and both workers take it. */
  lemma TwiceQueued(p: Policy, R: State -> bool)
    requires Covers(p, R) && !p.wakeOnce
    ensures R(Snap(Scan, Scan, WAKE0 + WAKE0, INIT, 0, {}))
  {
    BadRunSubmit(p, R);
    var s1 := Snap(Scan, Scan, WAKE0, INIT, 0, {});
    assert !Had(s1, 0);
    Move(p, R, s1, Outside(Wake(0, ANY_THREAD)), Snap(Scan, Scan, WAKE0 + WAKE0, INIT, 0, {}));
  }

  lemma TwiceTaken(p: Policy, R: State -> bool)
    requires Covers(p, R) && !p.wakeOnce
    ensures R(Snap(Dequeued(FiberTask(0)), Dequeued(FiberTask(0)), [], INIT, 2, {}))
  {
    TwiceQueued(p, R);
    var s2 := Snap(Scan, Scan, WAKE0 + WAKE0, INIT, 0, {});
    assert Eligible(s2, 0, s2.queue[0]);
    assert RemoveAt(WAKE0 + WAKE0, 0) + [] == WAKE0;
    Move(p, R, s2, Take(0, 0), Snap(Dequeued(FiberTask(0)), Scan, WAKE0, INIT, 1, {}));
    TakeOne(p, R, Dequeued(FiberTask(0)), INIT, 1);
  }

  lemma TwiceEntered(p: Policy, R: State -> bool)
    requires Covers(p, R) && !p.wakeOnce
    ensures R(Snap(Running(0, false), Enter(0, false), [], EXEC, 2, {}))
  {
    TwiceTaken(p, R);
    var s4 := Snap(Dequeued(FiberTask(0)), Dequeued(FiberTask(0)), [], INIT, 2, {});
    Move(p, R, s4, Dispatch(1), Snap(Dequeued(FiberTask(0)), Enter(0, false), [], INIT, 2, {}));
    EnterZero(p, R, Enter(0, false), INIT, 2);
  }

  /** Worker 0 yields READY, and worker 1 enters before worker 0 has left. */
  lemma TwiceShare(p: Policy, R: State -> bool)
    requires Covers(p, R) && !p.wakeOnce
    ensures R(Snap(Leaving(0, false), Running(0, false), [], EXEC, 2, {}))
  {
    TwiceEntered(p, R);
    var s8 := Snap(Leaving(0, false), Enter(0, false), [], READY, 2, {});
    Move(p, R, Snap(Running(0, false), Enter(0, false), [], EXEC, 2, {}), YieldReady(0), s8);
    Move(p, R, s8, SwapIn(1), Snap(Leaving(0, false), Running(0, false), [], EXEC, 2, {}));
  }

  /** It yields, and its context is saved. */
  lemma LateSaved(p: Policy, R: State -> bool)
    requires Covers(p, R) && p.earlyHold
    ensures R(Snap(Returned(0, false), Scan, [], HOLD, 1, {0}))
  {
    BadRunArm(p, R);
    var s6 := Snap(Leaving(0, false), Scan, [], HOLD, 1, {0});
    Move(p, R, Snap(Running(0, false), Scan, [], EXEC, 1, {0}), YieldHold(0), s6);
    Move(p, R, s6, SwapOut(0), Snap(Returned(0, false), Scan, [], HOLD, 1, {0}));
  }

  /** Woken only now, but before worker 0 has settled it; worker 1 takes it. */
  lemma LateWake(p: Policy, R: State -> bool)
    requires Covers(p, R) && p.earlyHold && !p.wakeSettled
    ensures R(Snap(Returned(0, false), Scan, WAKE0, HOLD, 1, {}))
  {
    LateSaved(p, R);
    var s7 := Snap(Returned(0, false), Scan, [], HOLD, 1, {0});
    Move(p, R, s7, Outside(Wake(0, ANY_THREAD)), Snap(Returned(0, false), Scan, WAKE0, HOLD, 1, {}));
  }

  lemma LateTake(p: Policy, R: State -> bool)
    requires Covers(p, R) && p.earlyHold && !p.wakeSettled
    ensures R(Snap(Returned(0, false), Running(0, false), [], EXEC, 2, {}))
  {
    LateWake(p, R);
    TakeOne(p, R, Returned(0, false), HOLD, 1);
    EnterOne(p, R, Returned(0, false), HOLD, 2);
  }

  /** Worker 1 yields READY; worker 0, only now at its state test, reads that and queues the fiber again. */
  lemma LateRequeue(p: Policy, R: State -> bool)
    requires Covers(p, R) && p.earlyHold && !p.wakeSettled
    ensures R(Snap(Scan, Leaving(0, false), WAKE0, READY, 1, {}))
  {
    LateTake(p, R);
    var s11 := Snap(Returned(0, false), Running(0, false), [], EXEC, 2, {});
    var s12 := Snap(Returned(0, false), Leaving(0, false), [], READY, 2, {});
    assert !Outstanding(s11, 0);
    Move(p, R, s11, YieldReady(1), s12);
    var s13 := Snap(Settling(0, false), Leaving(0, false), [], READY, 1, {});
    Move(p, R, s12, Decrement(0), s13);
    LateSettle(p, R, Leaving(0, false));
    LatePush(p, R, Leaving(0, false));
  }

  lemma LateSettle(p: Policy, R: State -> bool, b: Pc)
    requires Covers(p, R) && R(Snap(Settling(0, false), b, [], READY, 1, {}))
    ensures R(Snap(Requeuing(0, false), b, [], READY, 1, {}))
  {
    var s := Snap(Settling(0, false), b, [], READY, 1, {});
    Move(p, R, s, Settle(0), Snap(Requeuing(0, false), b, [], READY, 1, {}));
  }

  lemma LatePush(p: Policy, R: State -> bool, b: Pc)
    requires Covers(p, R) && R(Snap(Requeuing(0, false), b, [], READY, 1, {}))
    ensures R(Snap(Scan, b, WAKE0, READY, 1, {}))
  {
    Move(p, R, Snap(Requeuing(0, false), b, [], READY, 1, {}), Requeue(0), Snap(Scan, b, WAKE0, READY, 1, {}));
  }

  /**
    With an early HOLD it is not enough to wake a fiber only after its context is saved: worker 0 enters the
    stack that worker 1 has not left.
   */
  lemma LateWakeShare(p: Policy, R: State -> bool)
    requires Covers(p, R) && p.earlyHold && !p.wakeSettled
    ensures R(Snap(Running(0, false), Leaving(0, false), [], EXEC, 2, {}))
  {
    LateRequeue(p, R);
    TakeZero(p, R, Leaving(0, false), READY, 1);
    EnterZero(p, R, Leaving(0, false), READY, 2);
  }

  /**
    One wake-up per suspension, and with an early HOLD none before the fiber has settled, are exactly what
    keeps the stacks apart.
   */
  lemma StacksApartIff(p: Policy)
    ensures (forall tr | Run(p, tr) :: StacksApart(Last(tr))) <==> p.wakeOnce && (!p.earlyHold || p.wakeSettled)
  {
    if Safe(p) {
      forall tr | Run(p, tr) ensures StacksApart(Last(tr)) {
        SafePolicyIsSafe(p, tr);
      }
    } else {
      ReachedCovers(Init, Steps(p));
      if p.wakeOnce { BadRunShare(p, All(p)); } else { TwiceShare(p, All(p)); }
      var s := Snap(Leaving(0, false), Running(0, false), [], EXEC, 2, {});
      var tr :| Run(p, tr) && Last(tr) == s;
      assert OnStack(s.workers[0].pc, 0) && OnStack(s.workers[1].pc, 0);
    }
  }
}
