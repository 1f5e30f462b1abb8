/**
  What becomes of every task handed to schedule(). The runs of the scheduler are logged from outside: each
  submission gets a number, and the log follows it through the queue and the worker that takes it into the
  swapIn it was submitted for. The log looks at the states before and after a step only.
 */
module SchedulerTasks {
  import opened Common
  import opened Runs
  import opened SchedulerModel

  type TaskId = nat

  /** Where a submission is: in the queue, with a worker on its way to swapIn, behind it, or given up. */
  datatype Place = Queued | Held(w: nat) | Entered(i: nat) | Discarded(i: nat)

  /** A swapIn in run(): for which submission, by which worker, of which fiber, and the callback put into it. */
  datatype Swap = Swap(id: TaskId, worker: nat, fiber: FiberId, code: Option<nat>)

  /** A dequeued task that run() does not swap in, and the state its fiber was in. */
  datatype Discard = Discard(id: TaskId, state: FiberState)

  /** queue numbers the entries of the scheduler's queue, held the task each worker is about to swap in. */
  datatype Log = Log(submitted: seq<Entry>, queue: seq<TaskId>, held: map<nat, TaskId>, swaps: seq<Swap>,
                     discards: seq<Discard>, place: seq<Place>)

  datatype Logged = Logged(s: State, log: Log)

  // ---------------------------------------------------------------------------
  // Logging
  // ---------------------------------------------------------------------------

  /** The steps that call schedule(); the last one from run() itself, for a fiber that came back READY. */
  predicate Submits(step: Step) { step.Outside? || step.Spawn? || step.Requeue? }

  /** What they submit. */
  function Submission(s: State, step: Step): Entry
    requires Submits(step) && (step.Requeue? ==> step.w < |s.workers| && s.workers[step.w].pc.Requeuing?)
  {
    match step
    case Requeue(w) => Entry(FiberTask(s.workers[w].pc.fiber), ANY_THREAD)
    case _ =>
      match step.job
      case NewFiber(t) => Entry(FiberTask(s.nextFiber), t)
      case NewCb(c, t) => Entry(CbTask(c), t)
      case Wake(f, t) => Entry(FiberTask(f), t)
  }

  function CodeOf(s: State, f: FiberId): Option<nat> { if f in s.code then s.code[f] else None }

  /** One more submission, at the back. */
  function Submit(log: Log, e: Entry): Log {
    log.(submitted := log.submitted + [e], queue := log.queue + [|log.submitted|], place := log.place + [Queued])
  }

  function SetPlace(log: Log, id: TaskId, place: Place): Log {
    if id < |log.place| then log.(place := log.place[id := place]) else log
  }

  /** The k-th entry goes to worker w. */
  function Pop(log: Log, w: nat, k: nat): Log
    requires k < |log.queue|
  {
    SetPlace(log, log.queue[k], Held(w)).(queue := RemoveAt(log.queue, k), held := log.held[w := log.queue[k]])
  }

  /** Worker w swaps in what it holds, as fiber f loaded with code. */
  function SwapHeld(log: Log, w: nat, f: FiberId, code: Option<nat>): Log
    requires w in log.held
  {
    SetPlace(log, log.held[w], Entered(|log.swaps|)).(
      held := log.held - {w}, swaps := log.swaps + [Swap(log.held[w], w, f, code)])
  }

  /** Worker w gives up what it holds. */
  function DiscardHeld(log: Log, w: nat, st: FiberState): Log
    requires w in log.held
  {
    SetPlace(log, log.held[w], Discarded(|log.discards|)).(
      held := log.held - {w}, discards := log.discards + [Discard(log.held[w], st)])
  }

  /** What a worker that moves from s to t adds to the log. */
  function Moved(s: State, t: State, w: nat, log: Log): Log
    requires w < |s.workers| && w < |t.workers|
  {
    var x, y := s.workers[w].pc, t.workers[w].pc;
    if w !in log.held then log
    else if x.Enter? && y.Running? then SwapHeld(log, w, y.fiber, CodeOf(t, y.fiber))
    else if x.Dequeued? && x.task.FiberTask? && y.Dropping? then DiscardHeld(log, w, StateOf(s, x.task.fiber))
    else log
  }

  function Record(p: Policy, s: State, step: Step, log: Log): Log
    requires Enabled(p, s, step)
  {
    var t := Apply(p, s, step);
    if Flag(step) then log
    else if Submits(step) then Submit(log, Submission(s, step))
    else if step.Take? then if step.k < |log.queue| then Pop(log, step.w, step.k) else log
    else Moved(s, t, step.w, log)
  }

  predicate LoggedInit(x: Logged) { Init(x.s) && x.log == EMPTY }

  const EMPTY := Log([], [], map[], [], [], [])

  ghost predicate LoggedNext(p: Policy, x: Logged, y: Logged) {
    exists step :: Enabled(p, x.s, step) && y == Logged(Apply(p, x.s, step), Record(p, x.s, step, x.log))
  }

  ghost function LoggedSteps(p: Policy): (Logged, Logged) -> bool { (x, y) => LoggedNext(p, x, y) }

  ghost predicate LoggedRun(p: Policy, tr: seq<Logged>) { Runs.Run(LoggedInit, LoggedSteps(p), tr) }

  // ---------------------------------------------------------------------------
  // Conservation
  // ---------------------------------------------------------------------------

  /** A task pinned to a worker is for that worker. */
  predicate MayRun(e: Entry, w: nat) { e.thread == ANY_THREAD || e.thread == w }

  /** The swapIn is of what was submitted: the fiber itself, or one loaded with the callback; by a worker it is for. */
  predicate Serves(e: Entry, x: Swap) {
    && MayRun(e, x.worker)
    && match e.task
       case FiberTask(f) => x.fiber == f
       case CbTask(c) => x.code == Some(c)
  }

  /** Worker w is about to swap in just that. */
  predicate OnItsWay(s: State, w: nat, e: Entry)
    requires w < |s.workers|
  {
    && MayRun(e, w)
    && match s.workers[w].pc
       case Dequeued(task) => task == e.task
       case Enter(f, viaCb) =>
         (match e.task
          case FiberTask(g) => f == g && !viaCb
          case CbTask(c) => viaCb && s.workers[w].cbFiber == Some(f) && CodeOf(s, f) == Some(c))
       case _ => false
  }

  predicate AboutToSwap(pc: Pc) { pc.Dequeued? || pc.Enter? }

  predicate QueueOk(s: State, log: Log, i: nat) {
    i < |log.queue| ==>
      && i < |s.queue| && log.queue[i] < |log.submitted| == |log.place|
      && s.queue[i] == log.submitted[log.queue[i]] && log.place[log.queue[i]] == Queued
  }

  /** Entries leave the queue from anywhere, but stay in the order in which they were submitted. */
  predicate InOrder(log: Log) { forall i, j | 0 <= i < j < |log.queue| :: log.queue[i] < log.queue[j] }

  predicate HeldOk(s: State, log: Log, w: nat) {
    && (w in log.held ==>
          && w < |s.workers| && log.held[w] < |log.submitted| == |log.place|
          && log.place[log.held[w]] == Held(w) && OnItsWay(s, w, log.submitted[log.held[w]]))
    && (w < |s.workers| && AboutToSwap(s.workers[w].pc) ==> w in log.held)
  }

  predicate SwapOk(log: Log, i: nat) {
    i < |log.swaps| ==>
      var x := log.swaps[i];
      x.id < |log.submitted| == |log.place| && log.place[x.id] == Entered(i) && Serves(log.submitted[x.id], x)
  }

  predicate DiscardOk(log: Log, i: nat) {
    i < |log.discards| ==>
      var x := log.discards[i];
      && x.id < |log.submitted| == |log.place| && log.place[x.id] == Discarded(i)
      && log.submitted[x.id].task.FiberTask? && Dead(x.state)
  }

  /** A submission is where the log has it. */
  predicate PlaceOk(log: Log, id: TaskId) {
    id < |log.place| ==>
      match log.place[id]
      case Queued => id in log.queue
      case Held(w) => w in log.held && log.held[w] == id
      case Entered(i) => i < |log.swaps| && log.swaps[i].id == id
      case Discarded(i) => i < |log.discards| && log.discards[i].id == id
  }

  /** Workers do not share fibers of their own. */
  ghost predicate CbApart(s: State) {
    && (forall v, w | 0 <= v < w < |s.workers| && s.workers[v].cbFiber.Some? ::
          s.workers[v].cbFiber != s.workers[w].cbFiber)
    && (forall w | 0 <= w < |s.workers| && s.workers[w].cbFiber.Some? :: s.workers[w].cbFiber.value < s.nextFiber)
    && (forall w | 0 <= w < |s.workers| && ViaCb(s.workers[w].pc) :: s.workers[w].cbFiber == PcFiber(s.workers[w].pc))
  }

  ghost predicate Conserved(s: State, log: Log) {
    && |log.queue| == |s.queue| && |log.place| == |log.submitted| && InOrder(log) && CbApart(s)
    && (forall i :: QueueOk(s, log, i)) && (forall w :: HeldOk(s, log, w))
    && (forall i :: SwapOk(log, i)) && (forall i :: DiscardOk(log, i)) && (forall id :: PlaceOk(log, id))
  }

  // ---------------------------------------------------------------------------
  // What single steps do
  // ---------------------------------------------------------------------------

  lemma CbStep(p: Policy, s: State, step: Step)
    requires Enabled(p, s, step) && CbApart(s)
    ensures CbApart(Apply(p, s, step))
  {
    if !Flag(step) {
      CbEffect(p, s, step);
    }
  }

  /** A worker keeps its fiber, gives it away, or makes a new one; and puts callbacks into that only. */
  predicate CbLaw(s: State, x: Worker, e: Effect) {
    && (e.me.cbFiber == x.cbFiber || e.me.cbFiber == None || (e.me.cbFiber == Some(s.nextFiber) && e.newFibers == 1))
    && (CbInHand(x) ==> CbInHand(e.me) && forall f | f in e.loads :: f == s.nextFiber || x.cbFiber == Some(f))
  }

  predicate CbInHand(x: Worker) { ViaCb(x.pc) ==> x.cbFiber == PcFiber(x.pc) }

  lemma EffectCb(p: Policy, s: State, step: Step)
    requires Enabled(p, s, step) && !Flag(step)
    ensures CbLaw(s, s.workers[Who(step)], EffectOf(p, s, step))
  {
  }

  lemma DoCb(s: State, w: nat, e: Effect, t: State)
    requires w < |s.workers| && (e.pop.Some? ==> e.pop.value < |s.queue|)
    requires t == Do(s, w, e) && CbLaw(s, s.workers[w], e)
    ensures |t.workers| == |s.workers| && s.nextFiber <= t.nextFiber
    ensures forall v | 0 <= v < |s.workers| && v != w :: t.workers[v] == s.workers[v]
    ensures t.workers[w].cbFiber == s.workers[w].cbFiber || t.workers[w].cbFiber == None
            || (t.workers[w].cbFiber == Some(s.nextFiber) && t.nextFiber == s.nextFiber + 1)
    ensures CbInHand(s.workers[w]) ==> CbInHand(t.workers[w])
    ensures CbInHand(s.workers[w]) ==>
              forall f | CodeOf(t, f) != CodeOf(s, f) :: f == s.nextFiber || s.workers[w].cbFiber == Some(f)
  {
  }

  lemma CbEffect(p: Policy, s: State, step: Step)
    requires Enabled(p, s, step) && !Flag(step)
    ensures var t := Apply(p, s, step); var w := Who(step);
            && |t.workers| == |s.workers| && s.nextFiber <= t.nextFiber
            && (forall v | 0 <= v < |s.workers| && v != w :: t.workers[v] == s.workers[v])
            && (t.workers[w].cbFiber == s.workers[w].cbFiber || t.workers[w].cbFiber == None
                || (t.workers[w].cbFiber == Some(s.nextFiber) && t.nextFiber == s.nextFiber + 1))
            && (CbInHand(s.workers[w]) ==> CbInHand(t.workers[w]))
            && (CbInHand(s.workers[w]) ==>
                  forall f | CodeOf(t, f) != CodeOf(s, f) :: f == s.nextFiber || s.workers[w].cbFiber == Some(f))
  {
    EffectCb(p, s, step);
    DoCb(s, Who(step), EffectOf(p, s, step), Apply(p, s, step));
  }

  /** schedule() puts exactly what was submitted at the back; the scan takes one entry; nothing else moves the queue. */
  lemma QueueEffect(p: Policy, s: State, step: Step)
    requires Enabled(p, s, step)
    ensures var t := Apply(p, s, step);
            t.queue == if !Flag(step) && Submits(step) then s.queue + [Submission(s, step)]
                       else if step.Take? then RemoveAt(s.queue, step.k) else s.queue
  {
  }

  /** A worker that the step is not by stays on its way. */
  lemma OthersOnTheirWay(p: Policy, s: State, step: Step, v: nat, e: Entry)
    requires Enabled(p, s, step) && !Flag(step) && CbApart(s) && v < |s.workers| && OnItsWay(s, v, e)
    requires v != Who(step) || step.Outside? || step.Spawn?
    ensures var t := Apply(p, s, step); v < |t.workers| && OnItsWay(t, v, e)
    ensures AboutToSwap(Apply(p, s, step).workers[v].pc) <==> AboutToSwap(s.workers[v].pc)
  {
    CbEffect(p, s, step);
    var t := Apply(p, s, step);
    var pc := s.workers[v].pc;
    if pc.Enter? && e.task.CbTask? && CodeOf(t, pc.fiber) != CodeOf(s, pc.fiber) {
      PostKeepsCode(p, s, step);
    }
  }

  lemma PostKeepsCode(p: Policy, s: State, step: Step)
    requires Enabled(p, s, step) && !Flag(step)
    ensures step.Outside? || step.Spawn? ==>
              var t := Apply(p, s, step); t.code == s.code && t.workers[Who(step)] == s.workers[Who(step)]
  {
  }

  /** The log is untouched, and so are the worker and what it holds. */
  lemma HeldFrame(p: Policy, s: State, step: Step, log: Log, v: nat)
    requires Enabled(p, s, step) && !Flag(step) && CbApart(s) && HeldOk(s, log, v)
    requires v != Who(step) || step.Outside? || step.Spawn?
    ensures HeldOk(Apply(p, s, step), log, v)
  {
    CbEffect(p, s, step);
    PostKeepsCode(p, s, step);
    if v in log.held {
      OthersOnTheirWay(p, s, step, v, log.submitted[log.held[v]]);
    }
  }

  /** A worker on no way to a swapIn before or after the step. */
  lemma FlagKeeps(p: Policy, s: State, step: Step, log: Log)
    requires Enabled(p, s, step) && Flag(step) && Conserved(s, log)
    ensures Conserved(Apply(p, s, step), log)
  {
    var t := Apply(p, s, step);
    forall i: nat ensures QueueOk(t, log, i) {
      assert QueueOk(s, log, i);
    }
    forall w: nat ensures HeldOk(t, log, w) {
      assert HeldOk(s, log, w);
    }
  }

  // ---------------------------------------------------------------------------
  // Conservation, kind of step by kind of step
  // ---------------------------------------------------------------------------

  /** A new submission leaves the places of the others. */
  lemma SubmitLog(s: State, log: Log, e: Entry)
    requires Conserved(s, log)
    ensures var l := Submit(log, e);
            && InOrder(l) && |l.place| == |l.submitted|
            && (forall i :: SwapOk(l, i)) && (forall i :: DiscardOk(l, i)) && (forall id :: PlaceOk(l, id))
  {
    var l := Submit(log, e);
    forall i, j | 0 <= i < j < |l.queue| ensures l.queue[i] < l.queue[j] {
      assert QueueOk(s, log, i);
    }
    forall i: nat ensures SwapOk(l, i) {
      assert SwapOk(log, i);
    }
    forall i: nat ensures DiscardOk(l, i) {
      assert DiscardOk(log, i);
    }
    forall id: nat ensures PlaceOk(l, id) {
      assert PlaceOk(log, id);
      assert id == |log.submitted| ==> l.queue[|log.queue|] == id;
    }
  }

  lemma SubmitKeeps(p: Policy, s: State, step: Step, log: Log)
    requires Enabled(p, s, step) && Submits(step) && Conserved(s, log)
    ensures Conserved(Apply(p, s, step), Submit(log, Submission(s, step)))
  {
    var t, e := Apply(p, s, step), Submission(s, step);
    var l := Submit(log, e);
    SubmitLog(s, log, e);
    QueueEffect(p, s, step);
    CbStep(p, s, step);
    forall i: nat ensures QueueOk(t, l, i) {
      assert QueueOk(s, log, i);
    }
    forall w: nat ensures HeldOk(t, l, w) {
      SubmitHeld(p, s, step, log, w);
    }
  }

  lemma SubmitHeld(p: Policy, s: State, step: Step, log: Log, w: nat)
    requires Enabled(p, s, step) && Submits(step) && Conserved(s, log)
    ensures HeldOk(Apply(p, s, step), Submit(log, Submission(s, step)), w)
  {
    assert HeldOk(s, log, w);
    if w != Who(step) || !step.Requeue? {
      HeldFrame(p, s, step, log, w);
    } else {
      CbEffect(p, s, step);
      RequeueLeaves(p, s, step);
    }
  }

  lemma RequeueLeaves(p: Policy, s: State, step: Step)
    requires Enabled(p, s, step) && step.Requeue?
    ensures Apply(p, s, step).workers[step.w].pc == Scan && s.workers[step.w].pc.Requeuing?
  {
  }

  lemma TakeLog(s: State, log: Log, w: nat, k: nat)
    requires Conserved(s, log) && k < |s.queue| && w !in log.held
    ensures var l := Pop(log, w, k);
            && InOrder(l) && |l.place| == |l.submitted|
            && (forall i :: SwapOk(l, i)) && (forall i :: DiscardOk(l, i)) && (forall id :: PlaceOk(l, id))
  {
    var l, id := Pop(log, w, k), log.queue[k];
    assert QueueOk(s, log, k);
    forall i: nat ensures SwapOk(l, i) {
      assert SwapOk(log, i);
    }
    forall i: nat ensures DiscardOk(l, i) {
      assert DiscardOk(log, i);
    }
    forall d: nat ensures PlaceOk(l, d) {
      assert PlaceOk(log, d);
      if d != id && d < |log.place| && log.place[d] == Queued {
        var j :| 0 <= j < |log.queue| && log.queue[j] == d;
        assert l.queue[if j < k then j else j - 1] == d;
      }
    }
  }

  lemma TakeQueue(s: State, t: State, log: Log, w: nat, k: nat, i: nat)
    requires Conserved(s, log) && k < |s.queue| && t.queue == RemoveAt(s.queue, k)
    ensures QueueOk(t, Pop(log, w, k), i)
  {
    var j := if i < k then i else i + 1;
    assert QueueOk(s, log, j) && QueueOk(s, log, k);
    if j < |log.queue| {
      assert log.queue[j] != log.queue[k];
    }
  }

  lemma TakeEffect(p: Policy, s: State, step: Step)
    requires Enabled(p, s, step) && step.Take?
    ensures s.workers[step.w].pc == Scan && MayRun(s.queue[step.k], step.w)
    ensures Apply(p, s, step).workers[step.w].pc == Dequeued(s.queue[step.k].task)
  {
  }

  lemma TakeHeld(p: Policy, s: State, step: Step, log: Log, v: nat)
    requires Enabled(p, s, step) && step.Take? && Conserved(s, log)
    ensures HeldOk(Apply(p, s, step), Pop(log, step.w, step.k), v)
  {
    assert HeldOk(s, log, v) && QueueOk(s, log, step.k);
    TakeEffect(p, s, step);
    CbEffect(p, s, step);
    if v != step.w {
      HeldFrame(p, s, step, log, v);
    }
  }

  lemma TakeKeeps(p: Policy, s: State, step: Step, log: Log)
    requires Enabled(p, s, step) && step.Take? && Conserved(s, log)
    ensures Conserved(Apply(p, s, step), Pop(log, step.w, step.k))
  {
    var t := Apply(p, s, step);
    TakeEffect(p, s, step);
    assert HeldOk(s, log, step.w);
    TakeLog(s, log, step.w, step.k);
    QueueEffect(p, s, step);
    CbStep(p, s, step);
    forall i: nat ensures QueueOk(t, Pop(log, step.w, step.k), i) {
      TakeQueue(s, t, log, step.w, step.k, i);
    }
    forall v: nat ensures HeldOk(t, Pop(log, step.w, step.k), v) {
      TakeHeld(p, s, step, log, v);
    }
  }

  predicate Moves(step: Step) { !Flag(step) && !Submits(step) && !step.Take? }

  /** A dequeued task is swapped in, or waits for a failed assertion, or is of a dead fiber. */
  lemma DispatchLaw(p: Policy, s: State, step: Step)
    requires Enabled(p, s, step) && Moves(step) && s.workers[step.w].pc.Dequeued?
    ensures var t := Apply(p, s, step); var x, y := s.workers[step.w], t.workers[step.w];
            || (y == x && t.code == s.code)
            || (match x.pc.task
                case FiberTask(f) => y.pc == Enter(f, false) || (y.pc == Dropping && Dead(StateOf(s, f)))
                case CbTask(c) =>
                  y.pc.Enter? && y.pc.viaCb && y.cbFiber == Some(y.pc.fiber) && CodeOf(t, y.pc.fiber) == Some(c))
  {
  }

  lemma EnterLaw(p: Policy, s: State, step: Step)
    requires Enabled(p, s, step) && Moves(step) && s.workers[step.w].pc.Enter?
    ensures var t := Apply(p, s, step); var x, y := s.workers[step.w], t.workers[step.w];
            && y.cbFiber == x.cbFiber && t.code == s.code
            && (y == x || y.pc == Running(x.pc.fiber, x.pc.viaCb))
  {
  }

  lemma ElseLaw(p: Policy, s: State, step: Step)
    requires Enabled(p, s, step) && Moves(step) && !AboutToSwap(s.workers[step.w].pc)
    ensures !AboutToSwap(Apply(p, s, step).workers[step.w].pc)
  {
  }

  /** One swapIn, or one fiber that had ended, of submission id, is added; it is at place. */
  predicate OneMore(log: Log, l: Log, id: TaskId, place: Place)
    requires id < |log.submitted|
  {
    match place
    case Entered(n) =>
      && n == |log.swaps| && |l.swaps| == n + 1 && log.swaps <= l.swaps && l.discards == log.discards
      && l.swaps[n].id == id && Serves(log.submitted[id], l.swaps[n])
    case Discarded(n) =>
      && n == |log.discards| && |l.discards| == n + 1 && log.discards <= l.discards && l.swaps == log.swaps
      && l.discards[n].id == id && log.submitted[id].task.FiberTask? && Dead(l.discards[n].state)
    case _ => false
  }

  /** A swapIn, and a task given up, move one submission to its end. */
  lemma EndLog(s: State, log: Log, w: nat, l: Log, place: Place)
    requires Conserved(s, log) && w in log.held && log.held[w] < |log.submitted|
    requires OneMore(log, l, log.held[w], place)
    requires l.submitted == log.submitted && l.queue == log.queue && l.held == log.held - {w}
    requires l.place == log.place[log.held[w] := place]
    ensures InOrder(l) && |l.place| == |l.submitted|
    ensures (forall i :: SwapOk(l, i)) && (forall i :: DiscardOk(l, i)) && (forall id :: PlaceOk(l, id))
    ensures forall i :: QueueOk(s, l, i)
  {
    assert HeldOk(s, log, w);
    forall i: nat ensures SwapOk(l, i) {
      assert SwapOk(log, i);
    }
    forall i: nat ensures DiscardOk(l, i) {
      assert DiscardOk(log, i);
    }
    forall id: nat ensures PlaceOk(l, id) {
      EndPlace(s, log, w, l, id);
    }
    forall i: nat ensures QueueOk(s, l, i) {
      assert QueueOk(s, log, i);
    }
  }

  lemma EndPlace(s: State, log: Log, w: nat, l: Log, id: TaskId)
    requires Conserved(s, log) && w in log.held && log.held[w] < |log.place|
    requires log.swaps <= l.swaps && log.discards <= l.discards
    requires l.queue == log.queue && l.held == log.held - {w} && |l.place| == |log.place|
    requires forall d | 0 <= d < |log.place| && d != log.held[w] :: l.place[d] == log.place[d]
    ensures id != log.held[w] ==> PlaceOk(l, id)
  {
    assert PlaceOk(log, id) && HeldOk(s, log, w);
  }

  /** The worker that moves: with nothing to swap in, on its way, or at the end of it. */
  lemma MovedHeld(p: Policy, s: State, step: Step, log: Log)
    requires Enabled(p, s, step) && Moves(step) && Conserved(s, log)
    ensures var t := Apply(p, s, step); HeldOk(t, Moved(s, t, step.w, log), step.w)
  {
    assert HeldOk(s, log, step.w);
    if s.workers[step.w].pc.Dequeued? {
      DispatchLaw(p, s, step);
    } else if s.workers[step.w].pc.Enter? {
      EnterLaw(p, s, step);
    } else {
      ElseLaw(p, s, step);
    }
  }

  lemma MovedOthers(p: Policy, s: State, step: Step, log: Log, v: nat)
    requires Enabled(p, s, step) && Moves(step) && Conserved(s, log) && v != step.w
    ensures var t := Apply(p, s, step); HeldOk(t, Moved(s, t, step.w, log), v)
  {
    assert HeldOk(s, log, v) && HeldOk(s, log, step.w);
    HeldFrame(p, s, step, log, v);
  }

  lemma MovedLog(p: Policy, s: State, step: Step, log: Log)
    requires Enabled(p, s, step) && Moves(step) && Conserved(s, log)
    ensures var l := Moved(s, Apply(p, s, step), step.w, log);
            && InOrder(l) && |l.place| == |l.submitted| && l.queue == log.queue
            && (forall i :: SwapOk(l, i)) && (forall i :: DiscardOk(l, i)) && (forall id :: PlaceOk(l, id))
            && (forall i :: QueueOk(s, l, i))
  {
    var t, w := Apply(p, s, step), step.w;
    assert HeldOk(s, log, w);
    var x, y := s.workers[w].pc, t.workers[w].pc;
    if w in log.held {
      if x.Enter? && y.Running? {
        EnterLaw(p, s, step);
        EndLog(s, log, w, Moved(s, t, w, log), Entered(|log.swaps|));
      } else if x.Dequeued? && x.task.FiberTask? && y.Dropping? {
        DispatchLaw(p, s, step);
        EndLog(s, log, w, Moved(s, t, w, log), Discarded(|log.discards|));
      }
    }
  }

  lemma MoveKeeps(p: Policy, s: State, step: Step, log: Log)
    requires Enabled(p, s, step) && Moves(step) && Conserved(s, log)
    ensures Conserved(Apply(p, s, step), Moved(s, Apply(p, s, step), step.w, log))
  {
    var t := Apply(p, s, step);
    var l := Moved(s, t, step.w, log);
    MovedLog(p, s, step, log);
    QueueEffect(p, s, step);
    CbStep(p, s, step);
    forall i: nat ensures QueueOk(t, l, i) {
      assert QueueOk(s, l, i);
    }
    forall v: nat ensures HeldOk(t, l, v) {
      if v == step.w { MovedHeld(p, s, step, log); } else { MovedOthers(p, s, step, log, v); }
    }
  }

  lemma ConservedStep(p: Policy, s: State, step: Step, log: Log)
    requires Enabled(p, s, step) && Conserved(s, log)
    ensures Conserved(Apply(p, s, step), Record(p, s, step, log))
  {
    if Flag(step) {
      FlagKeeps(p, s, step, log);
    } else if Submits(step) {
      SubmitKeeps(p, s, step, log);
    } else if step.Take? {
      TakeKeeps(p, s, step, log);
    } else {
      MoveKeeps(p, s, step, log);
    }
  }

  // ---------------------------------------------------------------------------
  // Main results
  // ---------------------------------------------------------------------------

  /**
    Conservation of tasks, over every run under every policy. Every submission is in one place: once in the
    queue, in the order of submission; or with one worker that is for it and about to swap in just that; or
    behind exactly one swapIn, of the fiber submitted or of one loaded with the callback submitted; or it was
    a fiber that had ended when a worker came to it. Every swapIn of run() is for a submission.
   */
  lemma {:induction false} TasksConserved(p: Policy, tr: seq<Logged>)
    requires LoggedRun(p, tr)
    ensures Conserved(Last(tr).s, Last(tr).log)
  {
    if |tr| > 1 {
      var pre := tr[..|tr| - 1];
      TasksConserved(p, pre);
      var x, y := Last(pre), Last(tr);
      assert LoggedNext(p, x, y);
      var step :| Enabled(p, x.s, step) && y == Logged(Apply(p, x.s, step), Record(p, x.s, step, x.log));
      ConservedStep(p, x.s, step, x.log);
    }
  }

  /** The states of a logged run. */
  ghost function States(tr: seq<Logged>): seq<State> { Seen((x: Logged) => x.s, tr) }

  lemma LoggedIsRun(p: Policy, tr: seq<Logged>)
    requires LoggedRun(p, tr)
    ensures SchedulerModel.Run(p, States(tr))
  {
    forall x, y | LoggedSteps(p)(x, y) ensures Steps(p)(x.s, y.s) {
      assert LoggedNext(p, x, y);
      assert Next(p, x.s, y.s);
    }
    SeenIsRun(LoggedInit, LoggedSteps(p), Init, Steps(p), (x: Logged) => x.s, tr);
  }

  /** Every run can be logged. */
  lemma RunIsLogged(p: Policy, tr: seq<State>) returns (ltr: seq<Logged>)
    requires SchedulerModel.Run(p, tr)
    ensures LoggedRun(p, ltr) && States(ltr) == tr
  {
    forall s | Init(s) ensures exists x :: LoggedInit(x) && x.s == s {
      assert LoggedInit(Logged(s, EMPTY));
    }
    forall x: Logged, t | Steps(p)(x.s, t) ensures exists y :: LoggedSteps(p)(x, y) && y.s == t {
      assert Next(p, x.s, t);
      var step :| Enabled(p, x.s, step) && t == Apply(p, x.s, step);
      var y := Logged(t, Record(p, x.s, step, x.log));
      assert LoggedNext(p, x, y) && LoggedSteps(p)(x, y);
    }
    ltr := RunIsSeen(LoggedInit, LoggedSteps(p), Init, Steps(p), (x: Logged) => x.s, tr);
  }

  /** Submission id has been swapped in, once, as what it is; or it was of a fiber that had ended. */
  ghost predicate Done(log: Log, id: TaskId)
    requires id < |log.submitted|
  {
    || (exists i :: 0 <= i < |log.swaps| && log.swaps[i].id == id && Serves(log.submitted[id], log.swaps[i])
          && forall j | 0 <= j < |log.swaps| && log.swaps[j].id == id :: j == i)
    || (log.submitted[id].task.FiberTask?
        && exists i :: 0 <= i < |log.discards| && log.discards[i].id == id && Dead(log.discards[i].state))
  }

  lemma EnteredIsDone(s: State, log: Log, id: TaskId)
    requires Conserved(s, log) && id < |log.submitted| && (log.place[id].Entered? || log.place[id].Discarded?)
    ensures Done(log, id)
  {
    assert PlaceOk(log, id);
    if log.place[id].Entered? {
      assert SwapOk(log, log.place[id].i);
      forall j | 0 <= j < |log.swaps| && log.swaps[j].id == id ensures j == log.place[id].i {
        assert SwapOk(log, j);
      }
    } else {
      assert DiscardOk(log, log.place[id].i);
    }
  }

  /** Once every worker has left run(), every task submitted for any worker is done. */
  lemma AllTasksDone(p: Policy, tr: seq<Logged>, id: TaskId)
    requires LoggedRun(p, tr) && id < |Last(tr).log.submitted| && Last(tr).log.submitted[id].thread == ANY_THREAD
    requires forall w | 0 <= w < |Last(tr).s.workers| :: Last(tr).s.workers[w].pc.Exited?
    ensures Done(Last(tr).log, id)
  {
    TasksConserved(p, tr);
    LoggedIsRun(p, tr);
    var s, log := Last(tr).s, Last(tr).log;
    assert Last(States(tr)) == s;
    NoTaskLost(p, States(tr));
    WaitingIsSeen(s, log, id);
    EnteredIsDone(s, log, id);
  }

  /** A submission that is not yet swapped in is in the queue or with a worker. */
  lemma WaitingIsSeen(s: State, log: Log, id: TaskId)
    requires Conserved(s, log) && id < |log.submitted|
    ensures log.place[id].Queued? ==> exists i | 0 <= i < |s.queue| :: s.queue[i] == log.submitted[id]
    ensures log.place[id].Held? ==> exists w | 0 <= w < |s.workers| :: AboutToSwap(s.workers[w].pc)
  {
    assert PlaceOk(log, id);
    if log.place[id].Queued? {
      var i :| 0 <= i < |log.queue| && log.queue[i] == id;
      assert QueueOk(s, log, i);
    } else if log.place[id].Held? {
      assert HeldOk(s, log, log.place[id].w);
    }
  }

  /** A scan takes the oldest submission that the worker may run now, and finds none only if there is none. */
  lemma TakesOldest(p: Policy, tr: seq<Logged>, step: Step, i: nat)
    requires LoggedRun(p, tr) && Enabled(p, Last(tr).s, step) && (step.Take? || step.ScanNone?)
    requires i < |Last(tr).s.queue|
    requires var e := Last(tr).s.queue[i];
             MayRun(e, step.w) && (e.task.FiberTask? ==> StateOf(Last(tr).s, e.task.fiber) != EXEC)
    ensures step.Take? && step.k < |Last(tr).log.queue| == |Last(tr).s.queue|
    ensures Last(tr).log.queue[step.k] <= Last(tr).log.queue[i]
  {
    TasksConserved(p, tr);
    assert Eligible(Last(tr).s, step.w, Last(tr).s.queue[i]);
  }

  // ---------------------------------------------------------------------------
  // Fibers that come back READY
  // ---------------------------------------------------------------------------

  /** A fiber that yielded READY is queued, or a worker has it. */
  predicate ReadyKept(s: State, f: FiberId) { StateOf(s, f) == READY ==> InQueue(s, f) || Had(s, f) }

  /** A worker parts with a READY fiber only by submitting it. */
  lemma EffectReady(p: Policy, s: State, step: Step, f: FiberId)
    requires Enabled(p, s, step) && !Flag(step) && StateAfter(s, EffectOf(p, s, step), f) == READY
    ensures var e, x := EffectOf(p, s, step), s.workers[Who(step)];
            && (StateOf(s, f) != READY ==> PcFiber(e.me.pc) == Some(f))
            && (PcFiber(x.pc) == Some(f) ==>
                  PcFiber(e.me.pc) == Some(f) || (Submits(step) && Submission(s, step).task == FiberTask(f)))
            && (step.Take? && s.queue[step.k].task == FiberTask(f) ==> PcFiber(e.me.pc) == Some(f))
  {
  }

  lemma ReadyEffect(p: Policy, s: State, step: Step, f: FiberId)
    requires Enabled(p, s, step) && !Flag(step) && StateOf(Apply(p, s, step), f) == READY
    ensures var t, w := Apply(p, s, step), Who(step);
            && (StateOf(s, f) != READY ==> PcFiber(t.workers[w].pc) == Some(f))
            && (PcFiber(s.workers[w].pc) == Some(f) ==>
                  PcFiber(t.workers[w].pc) == Some(f) || (Submits(step) && Submission(s, step).task == FiberTask(f)))
            && (step.Take? && s.queue[step.k].task == FiberTask(f) ==> PcFiber(t.workers[w].pc) == Some(f))
  {
    assert StateOf(Apply(p, s, step), f) == StateAfter(s, EffectOf(p, s, step), f);
    EffectReady(p, s, step, f);
  }

  lemma ReadyStep(p: Policy, s: State, step: Step, f: FiberId)
    requires Enabled(p, s, step) && ReadyKept(s, f)
    ensures ReadyKept(Apply(p, s, step), f)
  {
    var t := Apply(p, s, step);
    QueueEffect(p, s, step);
    if StateOf(t, f) == READY && !Flag(step) {
      ReadyEffect(p, s, step, f);
      CbEffect(p, s, step);
      if PcFiber(t.workers[Who(step)].pc) == Some(f) {
        assert Had(t, f);
      } else if Submits(step) && Submission(s, step).task == FiberTask(f) {
        assert t.queue[|s.queue|].task == FiberTask(f);
      } else if InQueue(s, f) {
        var i :| 0 <= i < |s.queue| && s.queue[i].task == FiberTask(f);
        assert t.queue[if step.Take? && i > step.k then i - 1 else i].task == FiberTask(f);
      } else {
        var v :| 0 <= v < |s.workers| && PcFiber(s.workers[v].pc) == Some(f);
        assert PcFiber(t.workers[v].pc) == Some(f);
      }
    }
  }

  lemma {:induction false} ReadyAlways(p: Policy, tr: seq<State>, f: FiberId)
    requires SchedulerModel.Run(p, tr)
    ensures ReadyKept(Last(tr), f)
  {
    if |tr| > 1 {
      var pre := tr[..|tr| - 1];
      ReadyAlways(p, pre, f);
      assert Next(p, Last(pre), Last(tr));
      var step :| Enabled(p, Last(pre), step) && Last(tr) == Apply(p, Last(pre), step);
      ReadyStep(p, Last(pre), step, f);
    }
  }
}
