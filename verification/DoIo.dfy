/**
  do_io: a fiber tries a system call, and on EAGAIN parks on an event that races against a timer.
  Any number of calls, on any number of fds, run interleaved with the timer queue and with whatever
  triggers or cancels events. A timer's callback runs in three steps, so it can be overtaken
  anywhere: by the wake-up it races against, by the call's return, by a later call on the same fd.
 */
module DoIoModel {
  import opened Common
  import opened Runs

  type CallId = nat
  type TimerId = nat

  /** What the underlying system call gave. */
  datatype Outcome = NotCalled | Interrupted | WouldBlock | Final(n: int, errno: int)

  datatype Result = Io(outcome: Outcome) | RegistrationFailed | TimedOut

  datatype Pc =
    | Try
    | Arm
    | Register(timer: Option<TimerId>)
    | Parked(timer: Option<TimerId>)     // registered, and suspended until the event is triggered
    | Undo(timer: Option<TimerId>)       // registration failed, timer still to be cancelled
    | Woken(timer: Option<TimerId>)      // queued or running again, timer still to be cancelled
    | Check                              // about to read tinfo->cancelled
    | Returned(result: Result)

  /** One do_io call: the fd-and-event it works on, whether a timeout is set, and its timer_info. */
  datatype Call = Call(slot: nat, timeout: bool, pc: Pc, cancelled: bool, last: Outcome,
                       rejected: bool)  // its last addEvent failed

  datatype Phase =
    | Armed            // in the timer set
    | Cancelled        // removed by Timer::cancel
    | Handed           // callback handed out by listExpiredCb, not yet run
    | Locked           // callback running, holding timer_info
    | Marked           // cancelled = ETIMEDOUT written, cancelEvent still to be called
    | Over(ran: bool)  // callback finished; ran: it wrote the mark

  datatype Timer = Timer(owner: CallId, phase: Phase)

  /** slots[k] is the call registered on fd-and-event k. */
  datatype State = State(calls: seq<Call>, timers: seq<Timer>, slots: seq<Option<CallId>>, aborted: bool)

  datatype Step =
    | Begin(slot: nat, timeout: bool)
    | TryIo(c: CallId, outcome: Outcome)
    | ArmTimer(c: CallId)
    | AddEvent(c: CallId, ok: bool)
    | CancelTimer(c: CallId)           // at Undo and at Woken
    | ReadMark(c: CallId)
    | Trigger(slot: nat)               // epoll delivery, cancelAll, or a cancelEvent from elsewhere
    | Expire(t: TimerId)
    | Lock(t: TimerId) | Mark(t: TimerId) | CancelEvent(t: TimerId)

  predicate Enabled(s: State, step: Step) {
    && !s.aborted
    && match step
       case Begin(k, _) => k < |s.slots|
       case TryIo(c, o) => c < |s.calls| && s.calls[c].pc.Try? && !o.NotCalled?
       case ArmTimer(c) => c < |s.calls| && s.calls[c].pc.Arm?
       case AddEvent(c, _) => c < |s.calls| && s.calls[c].pc.Register? && s.calls[c].slot < |s.slots|
       case CancelTimer(c) => c < |s.calls| && (s.calls[c].pc.Undo? || s.calls[c].pc.Woken?)
       case ReadMark(c) => c < |s.calls| && s.calls[c].pc.Check?
       case Trigger(k) => k < |s.slots| && s.slots[k].Some?
       case Expire(t) => t < |s.timers| && s.timers[t].phase.Armed?
       case Lock(t) => t < |s.timers| && s.timers[t].phase.Handed? && s.timers[t].owner < |s.calls|
       case Mark(t) => t < |s.timers| && s.timers[t].phase.Locked? && s.timers[t].owner < |s.calls|
       case CancelEvent(t) =>
         && t < |s.timers| && s.timers[t].phase.Marked? && s.timers[t].owner < |s.calls|
         && s.calls[s.timers[t].owner].slot < |s.slots|
  }

  function SetPc(s: State, c: CallId, pc: Pc): State
    requires c < |s.calls|
  {
    s.(calls := s.calls[c := s.calls[c].(pc := pc)])
  }

  function SetPhase(s: State, t: TimerId, phase: Phase): State
    requires t < |s.timers|
  {
    s.(timers := s.timers[t := s.timers[t].(phase := phase)])
  }

  /** Timer::cancel: it removes the timer if it is still in the set, and does nothing otherwise. */
  function Cancel(s: State, timer: Option<TimerId>): State {
    if timer.Some? && timer.value < |s.timers| && s.timers[timer.value].phase.Armed?
    then SetPhase(s, timer.value, Cancelled) else s
  }

  /** triggerEvent on slot k: the registered call, if any, is woken and its registration is gone. */
  function Wake(s: State, k: nat): State
    requires k < |s.slots|
  {
    match s.slots[k]
    case None => s
    case Some(c) =>
      var s1 := s.(slots := s.slots[k := None]);
      if c < |s.calls| && s.calls[c].pc.Parked? then SetPc(s1, c, Woken(s.calls[c].pc.timer)) else s1
  }

  function Apply(s: State, step: Step): State
    requires Enabled(s, step)
  {
    match step
    case Begin(k, timeout) => s.(calls := s.calls + [Call(k, timeout, Try, false, NotCalled, false)])
    case TryIo(c, o) =>
      var pc := match o case WouldBlock => Arm case Final(_, _) => Returned(Io(o)) case _ => Try;
      s.(calls := s.calls[c := s.calls[c].(pc := pc, last := o)])
    case ArmTimer(c) =>
      if s.calls[c].timeout
      then SetPc(s, c, Register(Some(|s.timers|))).(timers := s.timers + [Timer(c, Armed)])
      else SetPc(s, c, Register(None))
    case AddEvent(c, ok) =>
      var x := s.calls[c];
      if !ok then s.(calls := s.calls[c := x.(pc := Undo(x.pc.timer), rejected := true)])
      else if s.slots[x.slot].Some? then s.(aborted := true)
      else SetPc(s, c, Parked(x.pc.timer)).(slots := s.slots[x.slot := Some(c)])
    case CancelTimer(c) =>
      var pc := s.calls[c].pc;
      SetPc(Cancel(s, pc.timer), c, if pc.Undo? then Returned(RegistrationFailed) else Check)
    case ReadMark(c) => SetPc(s, c, if s.calls[c].cancelled then Returned(TimedOut) else Try)
    case Trigger(k) => Wake(s, k)
    case Expire(t) => SetPhase(s, t, Handed)
    case Lock(t) =>  // the weak pointers are dead once the call has returned
      SetPhase(s, t, if s.calls[s.timers[t].owner].pc.Returned? then Over(false) else Locked)
    case Mark(t) =>
      var c := s.timers[t].owner;
      if s.calls[c].cancelled then SetPhase(s, t, Over(false))
      else SetPhase(s, t, Marked).(calls := s.calls[c := s.calls[c].(cancelled := true)])
    case CancelEvent(t) => Wake(SetPhase(s, t, Over(true)), s.calls[s.timers[t].owner].slot)
  }

  predicate Init(s: State) {
    && s.calls == [] && s.timers == [] && !s.aborted
    && (forall k | 0 <= k < |s.slots| :: s.slots[k].None?)
  }

  ghost predicate Next(s: State, t: State) {
    exists step :: Enabled(s, step) && t == Apply(s, step)
  }

  ghost function Steps(): (State, State) -> bool { (s, t) => Next(s, t) }

  ghost predicate Run(tr: seq<State>) { Runs.Run(Init, Steps(), tr) }

  // ---------------------------------------------------------------------------
  // Invariants
  // ---------------------------------------------------------------------------

  /** The timer a call still has to cancel. */
  function PcTimer(pc: Pc): Option<TimerId> {
    if pc.Register? || pc.Parked? || pc.Undo? || pc.Woken? then pc.timer else None
  }

  predicate MarkWritten(phase: Phase) { phase.Marked? || phase == Over(true) }

  /** A call is parked exactly while it is the one registered on its slot. */
  ghost predicate ParkedIsRegistered(s: State) {
    && (forall c | 0 <= c < |s.calls| :: s.calls[c].slot < |s.slots|)
    && (forall c | 0 <= c < |s.calls| && s.calls[c].pc.Parked? :: s.slots[s.calls[c].slot] == Some(c))
    && (forall k | 0 <= k < |s.slots| && s.slots[k].Some? ::
          var c := s.slots[k].value; c < |s.calls| && s.calls[c].slot == k && s.calls[c].pc.Parked?)
  }

  /** A timer in the set is the one its owner is about to cancel. */
  ghost predicate ArmedIsPending(s: State) {
    && (forall t | 0 <= t < |s.timers| :: s.timers[t].owner < |s.calls|)
    && (forall t | 0 <= t < |s.timers| && s.timers[t].phase.Armed? ::
          PcTimer(s.calls[s.timers[t].owner].pc) == Some(t))
    && (forall c | 0 <= c < |s.calls| && PcTimer(s.calls[c].pc).Some? ::
          PcTimer(s.calls[c].pc).value < |s.timers| && s.timers[PcTimer(s.calls[c].pc).value].owner == c)
  }

  /** Some callback of call c wrote its mark. */
  ghost predicate OwnTimerRan(s: State, c: CallId) {
    exists t :: 0 <= t < |s.timers| && s.timers[t].owner == c && MarkWritten(s.timers[t].phase)
  }

  ghost predicate MarkIsOwn(s: State) {
    forall c | 0 <= c < |s.calls| && s.calls[c].cancelled :: OwnTimerRan(s, c)
  }

  /** And a written mark is there to be read. */
  ghost predicate MarkIsThere(s: State) {
    forall t | 0 <= t < |s.timers| && MarkWritten(s.timers[t].phase) ::
      s.timers[t].owner < |s.calls| && s.calls[s.timers[t].owner].cancelled
  }

  /** A returned call's result, and a call on its way to return a failed registration, are accounted for. */
  predicate GoodCall(x: Call) {
    && (x.pc.Undo? ==> x.rejected)
    && (x.pc.Returned? ==>
          match x.pc.result
          case Io(o) => o.Final? && o == x.last
          case TimedOut => x.cancelled
          case RegistrationFailed => x.rejected)
  }

  ghost predicate ResultsSound(s: State) { forall c | 0 <= c < |s.calls| :: GoodCall(s.calls[c]) }

  ghost predicate Inv(s: State) {
    ParkedIsRegistered(s) && ArmedIsPending(s) && MarkIsOwn(s) && MarkIsThere(s) && ResultsSound(s)
  }

  lemma WakeKeeps(s: State, k: nat)
    requires k < |s.slots| && ParkedIsRegistered(s)
    ensures ParkedIsRegistered(Wake(s, k))
    ensures ArmedIsPending(s) ==> ArmedIsPending(Wake(s, k))
  {
    var u := Wake(s, k);
    assert forall c | 0 <= c < |u.calls| ::
             u.calls[c].slot == s.calls[c].slot && PcTimer(u.calls[c].pc) == PcTimer(s.calls[c].pc);
  }

  lemma AddEventStep(s: State, step: Step)
    requires Enabled(s, step) && ParkedIsRegistered(s) && step.AddEvent?
    ensures ParkedIsRegistered(Apply(s, step))
  {
  }

  /** The steps that neither register nor wake. */
  lemma SlotsUntouched(s: State, step: Step)
    requires Enabled(s, step) && !step.Trigger? && !step.CancelEvent? && !step.AddEvent?
    ensures var u := Apply(s, step);
            && u.slots == s.slots && |s.calls| <= |u.calls|
            && (forall c | 0 <= c < |s.calls| ::
                  u.calls[c].slot == s.calls[c].slot && u.calls[c].pc.Parked? == s.calls[c].pc.Parked?)
            && (forall c | |s.calls| <= c < |u.calls| :: u.calls[c].slot < |s.slots| && !u.calls[c].pc.Parked?)
  {
  }

  lemma ParkedStep(s: State, step: Step)
    requires Enabled(s, step) && ParkedIsRegistered(s) && ArmedIsPending(s)
    ensures ParkedIsRegistered(Apply(s, step))
  {
    match step
    case Trigger(k) => WakeKeeps(s, k);
    case CancelEvent(t) => WakeKeeps(SetPhase(s, t, Over(true)), s.calls[s.timers[t].owner].slot);
    case AddEvent(_, _) => AddEventStep(s, step);
    case _ => SlotsUntouched(s, step);
  }

  lemma ArmTimerStep(s: State, step: Step)
    requires Enabled(s, step) && ArmedIsPending(s) && step.ArmTimer?
    ensures ArmedIsPending(Apply(s, step))
  {
  }

  lemma CancelTimerStep(s: State, step: Step)
    requires Enabled(s, step) && ArmedIsPending(s) && step.CancelTimer?
    ensures ArmedIsPending(Apply(s, step))
  {
    var u := Apply(s, step);
    assert forall t | 0 <= t < |s.timers| ::
             u.timers[t].owner == s.timers[t].owner && (u.timers[t].phase.Armed? ==> s.timers[t].phase.Armed?);
  }

  lemma PhaseStep(s: State, step: Step)
    requires Enabled(s, step) && ArmedIsPending(s) && (step.Expire? || step.Lock? || step.Mark?)
    ensures ArmedIsPending(Apply(s, step))
  {
    var u := Apply(s, step);
    assert forall c | 0 <= c < |s.calls| :: u.calls[c].pc == s.calls[c].pc;
  }

  lemma CancelEventStep(s: State, step: Step)
    requires Enabled(s, step) && ParkedIsRegistered(s) && ArmedIsPending(s) && step.CancelEvent?
    ensures ArmedIsPending(Apply(s, step))
  {
    var s1 := SetPhase(s, step.t, Over(true));
    assert ArmedIsPending(s1);
    WakeKeeps(s1, s.calls[s.timers[step.t].owner].slot);
  }

  /** The steps that neither arm, cancel nor run a timer. */
  lemma TimersUntouched(s: State, step: Step)
    requires Enabled(s, step) && ArmedIsPending(s)
    requires step.Begin? || step.TryIo? || step.AddEvent? || step.ReadMark?
    ensures ArmedIsPending(Apply(s, step))
  {
    var u := Apply(s, step);
    assert u.timers == s.timers;
    assert forall c | 0 <= c < |s.calls| :: PcTimer(u.calls[c].pc) == PcTimer(s.calls[c].pc);
  }

  lemma ArmedStep(s: State, step: Step)
    requires Enabled(s, step) && ParkedIsRegistered(s) && ArmedIsPending(s)
    ensures ArmedIsPending(Apply(s, step))
  {
    match step
    case Trigger(k) => WakeKeeps(s, k);
    case CancelEvent(_) => CancelEventStep(s, step);
    case CancelTimer(_) => CancelTimerStep(s, step);
    case ArmTimer(_) => ArmTimerStep(s, step);
    case Expire(_) => PhaseStep(s, step);
    case Lock(_) => PhaseStep(s, step);
    case Mark(_) => PhaseStep(s, step);
    case _ => TimersUntouched(s, step);
  }

  /** A mark once written stays on record. */
  lemma MarkStays(s: State, step: Step, t: TimerId)
    requires Enabled(s, step) && t < |s.timers| && MarkWritten(s.timers[t].phase)
    ensures var u := Apply(s, step);
            t < |u.timers| && u.timers[t].owner == s.timers[t].owner && MarkWritten(u.timers[t].phase)
  {
  }

  /** Only a call's own callback marks it. */
  lemma MarkedByOwn(s: State, step: Step, c: CallId)
    requires Enabled(s, step) && c < |Apply(s, step).calls| && Apply(s, step).calls[c].cancelled
    ensures (c < |s.calls| && s.calls[c].cancelled) || (step.Mark? && s.timers[step.t].owner == c
        && Apply(s, step).timers[step.t] == Timer(c, Marked))
  {
  }

  lemma MarkStep(s: State, step: Step)
    requires Enabled(s, step) && MarkIsOwn(s)
    ensures MarkIsOwn(Apply(s, step))
  {
    var u := Apply(s, step);
    forall c | 0 <= c < |u.calls| && u.calls[c].cancelled ensures OwnTimerRan(u, c) {
      MarkedByOwn(s, step, c);
      if c < |s.calls| && s.calls[c].cancelled {
        var t :| 0 <= t < |s.timers| && s.timers[t].owner == c && MarkWritten(s.timers[t].phase);
        MarkStays(s, step, t);
      } else {
        assert MarkWritten(u.timers[step.t].phase);
      }
    }
  }

  lemma MarkThereStep(s: State, step: Step)
    requires Enabled(s, step) && MarkIsThere(s)
    ensures MarkIsThere(Apply(s, step))
  {
    var u := Apply(s, step);
    forall t | 0 <= t < |u.timers| && MarkWritten(u.timers[t].phase)
      ensures u.timers[t].owner < |u.calls| && u.calls[u.timers[t].owner].cancelled
    {
      MarkComesFrom(s, step, t);
      CallsKept(s, step, s.timers[t].owner);
    }
  }

  /** A mark is written by the step Mark, or was there. */
  lemma MarkComesFrom(s: State, step: Step, t: TimerId)
    requires Enabled(s, step) && t < |Apply(s, step).timers| && MarkWritten(Apply(s, step).timers[t].phase)
    ensures t < |s.timers| && Apply(s, step).timers[t].owner == s.timers[t].owner
    ensures MarkWritten(s.timers[t].phase)
            || (step == Mark(t) && s.timers[t].owner < |s.calls| && Apply(s, step).calls[s.timers[t].owner].cancelled)
  {
  }

  lemma CallsKept(s: State, step: Step, c: CallId)
    requires Enabled(s, step)
    ensures c < |s.calls| ==> c < |Apply(s, step).calls| && (s.calls[c].cancelled ==> Apply(s, step).calls[c].cancelled)
  {
  }

  /** What a step makes of call c. */
  lemma CallStep(s: State, step: Step, c: CallId)
    requires Enabled(s, step) && c < |Apply(s, step).calls| && (c < |s.calls| ==> GoodCall(s.calls[c]))
    ensures GoodCall(Apply(s, step).calls[c])
  {
  }

  lemma ResultStep(s: State, step: Step)
    requires Enabled(s, step) && ResultsSound(s)
    ensures ResultsSound(Apply(s, step))
  {
    forall c | 0 <= c < |Apply(s, step).calls| ensures GoodCall(Apply(s, step).calls[c]) {
      CallStep(s, step, c);
    }
  }

  lemma {:induction false} InvAlways(tr: seq<State>)
    requires Run(tr)
    ensures Inv(Last(tr))
  {
    if |tr| > 1 {
      var pre := tr[..|tr| - 1];
      InvAlways(pre);
      var step :| Enabled(Last(pre), step) && Last(tr) == Apply(Last(pre), step);
      ParkedStep(Last(pre), step);
      ArmedStep(Last(pre), step);
      MarkStep(Last(pre), step);
      MarkThereStep(Last(pre), step);
      ResultStep(Last(pre), step);
    }
  }

  // ---------------------------------------------------------------------------
  // Main results
  // ---------------------------------------------------------------------------

  /**
    In every run, a call that has returned left neither a registration nor a timer behind, and returned
    the last system call's final outcome, or a failed registration, or a timeout its own timer wrote.
   */
  lemma DoIoSound(tr: seq<State>, c: CallId)
    requires Run(tr) && c < |Last(tr).calls| && Last(tr).calls[c].pc.Returned?
    ensures var s := Last(tr);
            && (forall k | 0 <= k < |s.slots| :: s.slots[k] != Some(c))
            && (forall t | 0 <= t < |s.timers| && s.timers[t].owner == c :: !s.timers[t].phase.Armed?)
            && match s.calls[c].pc.result
               case Io(o) => o.Final? && o == s.calls[c].last
               case TimedOut => OwnTimerRan(s, c)
               case RegistrationFailed => s.calls[c].rejected
  {
    InvAlways(tr);
  }

  /** What a step may do to a call other than the one it runs for: nothing, or wake it from its event. */
  predicate AtMostWoken(x: Call, y: Call) {
    y == x || (x.pc.Parked? && y == x.(pc := Woken(x.pc.timer)))
  }

  /** The call whose code, or whose timer's callback, a step runs. */
  function RunsFor(s: State, step: Step): Option<CallId>
    requires Enabled(s, step)
  {
    match step
    case Begin(_, _) => None
    case Trigger(_) => None
    case Expire(t) => Some(s.timers[t].owner)
    case Lock(t) => Some(s.timers[t].owner)
    case Mark(t) => Some(s.timers[t].owner)
    case CancelEvent(t) => Some(s.timers[t].owner)
    case _ => Some(step.c)
  }

  /**
    A callback left over from call c, at whatever point it is, can at most wake a later call; that call
    then finds no mark and tries again. A returned call's result never changes.
   */
  lemma LeftoversAreHarmless(s: State, step: Step, d: CallId)
    requires Enabled(s, step) && d < |s.calls| && (RunsFor(s, step) != Some(d) || s.calls[d].pc.Returned?)
    ensures var u := Apply(s, step);
            && d < |u.calls|
            && (RunsFor(s, step) != Some(d) ==> AtMostWoken(s.calls[d], u.calls[d]))
            && (s.calls[d].pc.Returned? ==> u.calls[d].pc == s.calls[d].pc)
  {
  }

  /**
    In every run, a call that reads its mark returns with ETIMEDOUT if and only if a callback of its own has
    written it, at whatever point the two overtook each other; otherwise it tries again, whoever woke it.
   */
  lemma ReadMarkIff(tr: seq<State>, c: CallId)
    requires Run(tr) && Enabled(Last(tr), ReadMark(c))
    ensures var s := Last(tr);
            Apply(s, ReadMark(c)).calls[c].pc == if OwnTimerRan(s, c) then Returned(TimedOut) else Try
  {
    InvAlways(tr);
  }

  // ---------------------------------------------------------------------------
  // Attempts
  // ---------------------------------------------------------------------------

  /** A timer is for a call that has a timeout. */
  predicate TimerWanted(s: State, t: TimerId) {
    t < |s.timers| ==> s.timers[t].owner < |s.calls| && s.calls[s.timers[t].owner].timeout
  }

  /** Between arming and cancelling, a call with a timeout has the timer it armed last, and one without has none. */
  predicate AttemptOk(s: State, c: CallId) {
    c < |s.calls| ==>
      var x := s.calls[c];
      && (x.pc.Register? || x.pc.Parked? || x.pc.Undo? || x.pc.Woken? ==> x.pc.timer.Some? == x.timeout)
      && (PcTimer(x.pc).Some? ==>
            && PcTimer(x.pc).value < |s.timers| && s.timers[PcTimer(x.pc).value].owner == c
            && forall t | PcTimer(x.pc).value < t < |s.timers| :: s.timers[t].owner != c)
  }

  /** The call parks, waits and times out only after EAGAIN, and returns a result only if it is not to be retried. */
  predicate LastOk(x: Call) {
    match x.pc
    case Try => !x.last.Final?
    case Returned(Io(o)) => o == x.last && o.Final?
    case _ => x.last == WouldBlock
  }

  ghost predicate Attempts(s: State) {
    && (forall t :: TimerWanted(s, t)) && (forall c :: AttemptOk(s, c))
    && (forall c | 0 <= c < |s.calls| :: LastOk(s.calls[c]))
  }

  /** What a step does to the timers: a new one for the call that arms it, or a new phase. */
  lemma TimersLaw(s: State, step: Step)
    requires Enabled(s, step)
    ensures var u := Apply(s, step);
            && |s.timers| <= |u.timers| <= |s.timers| + 1 && |s.calls| <= |u.calls|
            && (forall t | 0 <= t < |s.timers| :: u.timers[t].owner == s.timers[t].owner)
            && (forall c | 0 <= c < |s.calls| :: u.calls[c].timeout == s.calls[c].timeout)
            && (|u.timers| > |s.timers| ==>
                  step.ArmTimer? && u.timers[|s.timers|].owner == step.c && s.calls[step.c].timeout)
  {
  }

  /** Where a step of call c takes it, where a wake-up does, and that nothing else moves it. */
  lemma Diagram(s: State, step: Step, c: CallId)
    requires Enabled(s, step) && c < |s.calls| && LastOk(s.calls[c])
    ensures var u := Apply(s, step); var x, y := s.calls[c], u.calls[c];
            match step
            case TryIo(d, o) =>
              if d != c then y == x
              else
                && y.last == o
                && y.pc == (match o case WouldBlock => Arm case Final(_, _) => Returned(Io(o)) case _ => Try)
            case ArmTimer(d) =>
              if d != c then y == x
              else y.last == x.last && y.pc == Register(if x.timeout then Some(|s.timers|) else None)
            case AddEvent(d, ok) =>
              if d != c || (ok && s.slots[x.slot].Some?) then y == x
              else
                && y.last == x.last && (ok ==> y.pc == Parked(x.pc.timer) && u.slots[x.slot] == Some(c))
                && (!ok ==> y.pc == Undo(x.pc.timer))
            case CancelTimer(d) =>
              if d != c then y == x
              else y.last == x.last && y.pc == if x.pc.Undo? then Returned(RegistrationFailed) else Check
            case ReadMark(d) =>
              if d != c then y == x
              else y.last == x.last && (y.pc == Try || y.pc == Returned(TimedOut))
            case _ => y.last == x.last && (y.pc == x.pc || (x.pc.Parked? && y.pc == Woken(x.pc.timer)))
  {
  }

  /** Who acts on the slot of call c: a trigger, or the cancelEvent of a callback for the same fd and event. */
  predicate ActsOn(s: State, step: Step, k: nat)
    requires Enabled(s, step)
  {
    step == Trigger(k) || (step.CancelEvent? && s.calls[s.timers[step.t].owner].slot == k)
  }

  /** A parked call is woken by exactly these, and a call is marked by exactly its own callbacks. */
  lemma WakeIff(tr: seq<State>, step: Step, c: CallId)
    requires Run(tr) && Enabled(Last(tr), step) && c < |Last(tr).calls|
    ensures var s := Last(tr); var x, y := s.calls[c], Apply(s, step).calls[c];
            && (x.pc.Parked? ==> y.pc == if ActsOn(s, step, x.slot) then Woken(x.pc.timer) else x.pc)
            && (y.cancelled <==> x.cancelled || (step.Mark? && s.timers[step.t].owner == c))
  {
    InvAlways(tr);
  }

  lemma AttemptStep(s: State, step: Step, c: CallId)
    requires Enabled(s, step) && Attempts(s)
    ensures AttemptOk(Apply(s, step), c)
  {
    var u := Apply(s, step);
    TimersLaw(s, step);
    if c < |s.calls| {
      assert AttemptOk(s, c) && LastOk(s.calls[c]);
      Diagram(s, step, c);
    } else if c < |u.calls| {
      NewCall(s, step);
    }
  }

  lemma NewCall(s: State, step: Step)
    requires Enabled(s, step)
    ensures forall c | |s.calls| <= c < |Apply(s, step).calls| ::
              Apply(s, step).calls[c].pc == Try && Apply(s, step).calls[c].last == NotCalled
  {
  }

  lemma AttemptsStep(s: State, step: Step)
    requires Enabled(s, step) && Attempts(s)
    ensures Attempts(Apply(s, step))
  {
    var u := Apply(s, step);
    TimersLaw(s, step);
    NewCall(s, step);
    forall t: nat ensures TimerWanted(u, t) {
      assert TimerWanted(s, t);
    }
    forall c: nat ensures AttemptOk(u, c) {
      AttemptStep(s, step, c);
    }
    forall c | 0 <= c < |u.calls| ensures LastOk(u.calls[c]) {
      if c < |s.calls| {
        Diagram(s, step, c);
      }
    }
  }

  lemma {:induction false} AttemptsAlways(tr: seq<State>)
    requires Run(tr)
    ensures Attempts(Last(tr))
  {
    if |tr| > 1 {
      var pre := tr[..|tr| - 1];
      AttemptsAlways(pre);
      assert Next(Last(pre), Last(tr));
      var step :| Enabled(Last(pre), step) && Last(tr) == Apply(Last(pre), step);
      AttemptsStep(Last(pre), step);
    }
  }

  /**
    In every run, a call without a timeout has no timer, is never marked, and never returns ETIMEDOUT. A call
    with one that is registering, parked, undoing or woken has a timer of its own, armed for that attempt.
   */
  lemma TimeoutIff(tr: seq<State>, c: CallId)
    requires Run(tr) && c < |Last(tr).calls|
    ensures var s := Last(tr); var x := s.calls[c];
            && (!x.timeout ==>
                  && !x.cancelled && x.pc != Returned(TimedOut)
                  && (forall t | 0 <= t < |s.timers| :: s.timers[t].owner != c))
            && (x.timeout && (x.pc.Register? || x.pc.Parked? || x.pc.Undo? || x.pc.Woken?) ==>
                  && x.pc.timer.Some? && x.pc.timer.value < |s.timers| && s.timers[x.pc.timer.value].owner == c
                  && (forall t | x.pc.timer.value < t < |s.timers| :: s.timers[t].owner != c))
            && LastOk(x)
  {
    InvAlways(tr);
    AttemptsAlways(tr);
    var s := Last(tr);
    assert AttemptOk(s, c);
    if !s.calls[c].timeout {
      forall t | 0 <= t < |s.timers| ensures s.timers[t].owner != c {
        assert TimerWanted(s, t);
      }
    }
  }

  // ---------------------------------------------------------------------------
  // Both ends are reached
  // ---------------------------------------------------------------------------

  /** One slot, one call with a timeout, and what has become of its timer. */
  function One(pc: Pc, cancelled: bool, last: Outcome, timers: seq<Timer>, slot: Option<CallId>): State {
    State([Call(0, true, pc, cancelled, last, false)], timers, [slot], false)
  }

  lemma Move(R: State -> bool, s: State, step: Step, t: State)
    requires Covers(Init, Steps(), R) && R(s) && Enabled(s, step) && Apply(s, step) == t
    ensures R(t)
  {
    assert Next(s, t);
  }

  /** The call meets EAGAIN, arms its timer and parks. */
  lemma ParkRun(R: State -> bool)
    requires Covers(Init, Steps(), R)
    ensures R(One(Parked(Some(0)), false, WouldBlock, [Timer(0, Armed)], Some(0)))
  {
    var s0 := State([], [], [None], false);
    assert Init(s0);
    var s1, s2 := One(Try, false, NotCalled, [], None), One(Arm, false, WouldBlock, [], None);
    Move(R, s0, Begin(0, true), s1);
    Move(R, s1, TryIo(0, WouldBlock), s2);
    var s3 := One(Register(Some(0)), false, WouldBlock, [Timer(0, Armed)], None);
    Move(R, s2, ArmTimer(0), s3);
    Move(R, s3, AddEvent(0, true), One(Parked(Some(0)), false, WouldBlock, [Timer(0, Armed)], Some(0)));
  }

  /** Its timer expires first. */
  lemma ExpireRun(R: State -> bool)
    requires Covers(Init, Steps(), R)
    ensures R(One(Woken(Some(0)), true, WouldBlock, [Timer(0, Over(true))], None))
  {
    ParkRun(R);
    var s4 := One(Parked(Some(0)), false, WouldBlock, [Timer(0, Armed)], Some(0));
    var s5 := One(Parked(Some(0)), false, WouldBlock, [Timer(0, Handed)], Some(0));
    var s6 := One(Parked(Some(0)), false, WouldBlock, [Timer(0, Locked)], Some(0));
    var s7 := One(Parked(Some(0)), true, WouldBlock, [Timer(0, Marked)], Some(0));
    Move(R, s4, Expire(0), s5);
    Move(R, s5, Lock(0), s6);
    Move(R, s6, Mark(0), s7);
    Move(R, s7, CancelEvent(0), One(Woken(Some(0)), true, WouldBlock, [Timer(0, Over(true))], None));
  }

  lemma TimedOutRun(R: State -> bool)
    requires Covers(Init, Steps(), R)
    ensures R(One(Returned(TimedOut), true, WouldBlock, [Timer(0, Over(true))], None))
  {
    ExpireRun(R);
    var s8 := One(Woken(Some(0)), true, WouldBlock, [Timer(0, Over(true))], None);
    var s9 := One(Check, true, WouldBlock, [Timer(0, Over(true))], None);
    Move(R, s8, CancelTimer(0), s9);
    Move(R, s9, ReadMark(0), One(Returned(TimedOut), true, WouldBlock, [Timer(0, Over(true))], None));
  }

  /** The event comes first, and the next try succeeds. */
  lemma EventRun(R: State -> bool, n: int)
    requires Covers(Init, Steps(), R)
    ensures R(One(Returned(Io(Final(n, 0))), false, Final(n, 0), [Timer(0, Cancelled)], None))
  {
    ParkRun(R);
    var s5 := One(Woken(Some(0)), false, WouldBlock, [Timer(0, Armed)], None);
    var s6 := One(Check, false, WouldBlock, [Timer(0, Cancelled)], None);
    var s7 := One(Try, false, WouldBlock, [Timer(0, Cancelled)], None);
    Move(R, One(Parked(Some(0)), false, WouldBlock, [Timer(0, Armed)], Some(0)), Trigger(0), s5);
    Move(R, s5, CancelTimer(0), s6);
    Move(R, s6, ReadMark(0), s7);
    Move(R, s7, TryIo(0, Final(n, 0)), One(Returned(Io(Final(n, 0))), false, Final(n, 0), [Timer(0, Cancelled)], None));
  }

  /** The race goes both ways: some runs time out, and some return any result of a later try. */
  lemma RaceRuns(n: int)
    ensures exists tr :: Run(tr) && Last(tr) == One(Returned(TimedOut), true, WouldBlock, [Timer(0, Over(true))], None)
    ensures exists tr ::
              Run(tr) && Last(tr) == One(Returned(Io(Final(n, 0))), false, Final(n, 0), [Timer(0, Cancelled)], None)
  {
    ReachedCovers(Init, Steps());
    TimedOutRun(Reached(Init, Steps()));
    EventRun(Reached(Init, Steps()), n);
  }
}
