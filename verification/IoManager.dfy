/**
  IOManager's event table as a transition system. Every fd has one context, guarded by its own
  mutex; the thread inside that mutex is recorded as the fd's section, and each access to the
  kernel, to m_pendingEventCount or to the scheduler's queue inside it is a step of its own, so
  sections of different fds interleave freely.
 */
module IoManagerModel {
  import opened Common
  import opened Runs

  datatype Ev = READ | WRITE

  /** An event mask. */
  datatype Bits = Bits(read: bool, write: bool) {
    predicate Has(e: Ev) { if e == READ then read else write }
    predicate Empty() { !read && !write }
    function With(e: Ev): Bits { if e == READ then this.(read := true) else this.(write := true) }
    function Without(e: Ev): Bits { if e == READ then this.(read := false) else this.(write := false) }
    function And(b: Bits): Bits { Bits(read && b.read, write && b.write) }
    function Minus(b: Bits): Bits { Bits(read && !b.read, write && !b.write) }
    function Count(): nat { (if read then 1 else 0) + (if write then 1 else 0) }
    /** triggerEvent is called for READ first. */
    function First(): Ev { if read then READ else WRITE }
  }

  const NONE := Bits(false, false)

  /** A registration, numbered in the order in which addEvent succeeded. */
  type RegId = nat

  /** EventContext: a scheduler pointer, and the waiter as a fiber or as a callback. */
  datatype EventCtx = EventCtx(scheduler: bool, fiber: Option<RegId>, cb: Option<RegId>) {
    predicate Full() { fiber.Some? != cb.Some? }
    predicate Holds(id: RegId) { fiber == Some(id) || cb == Some(id) }
    function Waiter(): Option<RegId> { if cb.Some? then cb else fiber }
  }

  const VACANT := EventCtx(false, None, None)

  /** Where the thread holding the fd's mutex is. */
  datatype Section =
    | Free
    | AddCtl(ev: Ev, byFiber: bool, onScheduler: bool)
    | AddCount(ev: Ev, byFiber: bool, onScheduler: bool)
    | AddCommit(ev: Ev, byFiber: bool, onScheduler: bool)
    | DelCtl(ev: Ev) | DelCount(ev: Ev) | DelCommit(ev: Ev)
    | TrigCtl(todo: Bits, left: Bits)    // cancelEvent, cancelAll and idle share these
    | Trig(todo: Bits)                   // about to call triggerEvent, or to leave
    | TrigQueue(ev: Ev, todo: Bits)      // bit cleared, waiter not queued yet
    | TrigCount(ev: Ev, todo: Bits)      // waiter queued, count not lowered yet

  /** Whose section it is: cancelAll triggers everything, and asserts that nothing is left; the close hook calls it. */
  datatype Role = Other | CancelAll | Closing

  /**
    FdContext, its section and whose it is, the kernel's interest in the fd, epoll reports not yet
    handled, and the close() calls that have come back from cancelAll and are about to call close_f:
    clean ones, whose cancelAll did not fail and since which no addEvent has reached the kernel, and others.
   */
  datatype Fd = Fd(events: Bits, read: EventCtx, write: EventCtx, sec: Section, role: Role,
                   kernel: Option<Bits>, reports: seq<Bits>, clean: nat, dirty: nat) {
    function Ctx(e: Ev): EventCtx { if e == READ then read else write }
    function SetCtx(e: Ev, c: EventCtx): Fd { if e == READ then this.(read := c) else this.(write := c) }
  }

  /** The failed assertion, or dereference, that ended the run. */
  datatype Abort = Alive | DoubleAdd | DirtyContext | NotRegistered | NullScheduler | EventsLeft

  /**
    bareClose: some close_f has run while an event was registered on its fd. mixed: some report handled
    by idle() named a registered and an unregistered event.
   */
  datatype State = State(fds: seq<Fd>, pending: int, queue: seq<RegId>, nextReg: RegId,
                         deleted: set<RegId>, abort: Abort, bareClose: bool, mixed: bool)

  /**
    guardedClose: close_f is called only by clean close() calls (the hook calls it whatever cancelAll gave).
    masked: idle() triggers only registered events (the code triggers all reported ones).
   */
  datatype Policy = Policy(guardedClose: bool, masked: bool)

  datatype Op = ADD | MOD | DEL

  datatype Step =
    | AddBegin(fd: nat, ev: Ev, byFiber: bool, onScheduler: bool)
    | DelBegin(fd: nat, ev: Ev) | CancelBegin(fd: nat, ev: Ev) | CancelAllBegin(fd: nat)
    | Report(fd: nat, ready: Bits) | Deliver(fd: nat, k: nat, error: bool)
    | Ctl(fd: nat, ok: bool) | Advance(fd: nat)
    | CloseBegin(fd: nat) | CloseF(fd: nat, clean: bool)

  predicate AtCtl(sec: Section) { sec.AddCtl? || sec.DelCtl? || sec.TrigCtl? }

  predicate AtWork(sec: Section) { !sec.Free? && !AtCtl(sec) }

  /** The interest the section asks the kernel for. */
  function Wanted(r: Fd): Bits
    requires AtCtl(r.sec)
  {
    match r.sec
    case AddCtl(ev, _, _) => r.events.With(ev)
    case DelCtl(ev) => r.events.Without(ev)
    case TrigCtl(_, left) => left
  }

  function OpOf(r: Fd): Op
    requires AtCtl(r.sec)
  {
    if r.sec.AddCtl? then (if r.events.Empty() then ADD else MOD)
    else if Wanted(r).Empty() then DEL else MOD
  }

  /** epoll_ctl fails with EEXIST on ADD of a present fd, and with ENOENT on MOD or DEL of an absent one. */
  predicate Legal(op: Op, kernel: Option<Bits>) { (op == ADD) <==> kernel.None? }

  /** The kernel's view of an event mask: no interest at all when it is zero. */
  function Interest(b: Bits): Option<Bits> { if b.Empty() then None else Some(b) }

  /** READ and WRITE as idle() reads them off a report; an error or hang-up adds all registered ones. */
  function RealEvents(events: Bits, ready: Bits, error: bool): Bits {
    if error then Bits(ready.read || events.read, ready.write || events.write) else ready
  }

  predicate Enabled(p: Policy, s: State, step: Step) {
    && s.abort == Alive && step.fd < |s.fds|
    && var r := s.fds[step.fd];
       match step
       case AddBegin(_, _, _, _) => r.sec.Free?
       case DelBegin(_, ev) => r.sec.Free? && r.events.Has(ev)
       case CancelBegin(_, ev) => r.sec.Free? && r.events.Has(ev)
       case CancelAllBegin(_) => r.sec.Free? && !r.events.Empty()
       case Report(_, ready) => r.kernel.Some? && r.kernel.value.And(ready) == ready
       case Deliver(_, k, _) => r.sec.Free? && k < |r.reports|
       case Ctl(_, ok) => AtCtl(r.sec) && (ok ==> Legal(OpOf(r), r.kernel))
       case Advance(_) => AtWork(r.sec)
       case CloseBegin(_) => r.sec.Free?
       case CloseF(_, clean) => if clean then r.clean > 0 else r.dirty > 0 && !p.guardedClose
  }

  /** What one step does to its fd and to the shared variables. */
  datatype Effect = Effect(rec: Fd, delta: int, push: Option<RegId>, register: bool, drop: Option<RegId>, abort: Abort)

  function To(r: Fd, sec: Section): Effect { Effect(r.(sec := sec), 0, None, false, None, Alive) }

  /** The mutex is released; a close() goes on to close_f, and remembers whether its cancelAll did not fail. */
  function Leave(r: Fd, ok: bool): Fd {
    var r1 := r.(sec := Free, role := Other);
    if !r.role.Closing? then r1 else if ok then r1.(clean := r.clean + 1) else r1.(dirty := r.dirty + 1)
  }

  function Fail(r: Fd, a: Abort): Effect { Effect(r, 0, None, false, None, a) }

  function DeliverEffect(p: Policy, r: Fd, k: nat, error: bool): Effect
    requires k < |r.reports|
  {
    var r1 := r.(reports := RemoveAt(r.reports, k));
    var fired := RealEvents(r.events, r.reports[k], error);
    if r.events.And(fired).Empty() then To(r1, Free)
    else To(r1, TrigCtl(if p.masked then fired.And(r.events) else fired, r.events.Minus(fired)))
  }

  function CtlEffect(r: Fd, ok: bool): Effect
    requires AtCtl(r.sec)
  {
    if !ok then To(Leave(r, false), Free)
    else
      var r1 := r.(kernel := Interest(Wanted(r)));
      match r.sec
      case AddCtl(ev, f, o) => To(r1.(clean := 0, dirty := r.dirty + r.clean), AddCount(ev, f, o))
      case DelCtl(ev) => To(r1, DelCount(ev))
      case TrigCtl(todo, _) => To(r1, Trig(todo))
  }

  function AdvanceEffect(r: Fd, id: RegId): Effect
    requires AtWork(r.sec)
  {
    match r.sec
    case AddCount(ev, f, o) => To(r, AddCommit(ev, f, o)).(delta := 1)
    case AddCommit(ev, f, o) =>
      if r.Ctx(ev) != VACANT then Fail(r, DirtyContext)
      else
        var c := if f then EventCtx(o, Some(id), None) else EventCtx(o, None, Some(id));
        To(r.(events := r.events.With(ev)).SetCtx(ev, c), Free).(register := true)
    case DelCount(ev) => To(r, DelCommit(ev)).(delta := -1)
    case DelCommit(ev) =>
      To(r.(events := r.events.Without(ev)).SetCtx(ev, VACANT), Free).(drop := r.Ctx(ev).Waiter())
    case Trig(todo) =>
      if todo.Empty() then
        if !r.role.Other? && !r.events.Empty() then Fail(r, EventsLeft) else To(Leave(r, true), Free)
      else if !r.events.Has(todo.First()) then Fail(r, NotRegistered)
      else To(r.(events := r.events.Without(todo.First())), TrigQueue(todo.First(), todo.Without(todo.First())))
    case TrigQueue(ev, todo) =>
      var c := r.Ctx(ev);
      if !c.scheduler then Fail(r, NullScheduler)
      else
        var c1 := if c.cb.Some? then c.(cb := None) else c.(fiber := None);
        To(r.SetCtx(ev, c1.(scheduler := false)), TrigCount(ev, todo)).(push := c.Waiter())
    case TrigCount(_, todo) => To(r, Trig(todo)).(delta := -1)
  }

  function EffectOf(p: Policy, s: State, step: Step): Effect
    requires Enabled(p, s, step)
  {
    var r := s.fds[step.fd];
    match step
    case AddBegin(_, ev, f, o) => if r.events.Has(ev) then Fail(r, DoubleAdd) else To(r, AddCtl(ev, f, o))
    case DelBegin(_, ev) => To(r, DelCtl(ev))
    case CancelBegin(_, ev) => To(r, TrigCtl(NONE.With(ev), r.events.Without(ev)))
    case CancelAllBegin(_) => To(r.(role := CancelAll), TrigCtl(r.events, NONE))
    case Report(_, ready) => To(r.(reports := r.reports + [ready]), r.sec)
    case Deliver(_, k, error) => DeliverEffect(p, r, k, error)
    case Ctl(_, ok) => CtlEffect(r, ok)
    case Advance(_) => AdvanceEffect(r, s.nextReg)
    case CloseBegin(_) =>  // cancelAll returns at once when no bit is set
      if r.events.Empty() then To(r.(clean := r.clean + 1), Free) else To(r.(role := Closing), TrigCtl(r.events, NONE))
    case CloseF(_, clean) =>  // no lock is held: any section may be open
      To(if clean then r.(kernel := None, clean := r.clean - 1) else r.(kernel := None, dirty := r.dirty - 1), r.sec)
  }

  function Opt<T>(o: Option<T>): seq<T> { if o.Some? then [o.value] else [] }

  function Apply(p: Policy, s: State, step: Step): State
    requires Enabled(p, s, step)
  {
    var e := EffectOf(p, s, step);
    State(s.fds[step.fd := e.rec], s.pending + e.delta, s.queue + Opt(e.push),
          if e.register then s.nextReg + 1 else s.nextReg,
          if e.drop.Some? then s.deleted + {e.drop.value} else s.deleted, e.abort,
          s.bareClose || (step.CloseF? && !Agreed(s.fds[step.fd]).Empty()),
          s.mixed || MixedReport(s.fds[step.fd], step))
  }

  /** The step handles a report that names a registered and an unregistered event. */
  predicate MixedReport(r: Fd, step: Step) {
    && step.Deliver? && step.k < |r.reports|
    && var fired := RealEvents(r.events, r.reports[step.k], step.error);
       !r.events.And(fired).Empty() && !fired.Minus(r.events).Empty()
  }

  /**
    The mask the kernel must hold for this fd: the event bits, with those of a section that epoll_ctl has gone
    through for.
   */
  function Agreed(r: Fd): Bits {
    match r.sec
    case AddCount(ev, _, _) => r.events.With(ev)
    case AddCommit(ev, _, _) => r.events.With(ev)
    case DelCount(ev) => r.events.Without(ev)
    case DelCommit(ev) => r.events.Without(ev)
    case Trig(todo) => r.events.Minus(todo)
    case TrigQueue(_, todo) => r.events.Minus(todo)
    case TrigCount(_, todo) => r.events.Minus(todo)
    case _ => r.events
  }

  const FRESH := Fd(NONE, VACANT, VACANT, Free, Other, None, [], 0, 0)

  predicate Init(s: State) {
    && (forall fd | 0 <= fd < |s.fds| :: s.fds[fd] == FRESH)
    && s.pending == 0 && s.queue == [] && s.nextReg == 0 && s.deleted == {} && s.abort == Alive && !s.bareClose
        && !s.mixed
  }

  ghost predicate Next(p: Policy, s: State, t: State) {
    exists step :: Enabled(p, s, step) && t == Apply(p, s, step)
  }

  ghost function Steps(p: Policy): (State, State) -> bool { (s, t) => Next(p, s, t) }

  ghost predicate Run(p: Policy, tr: seq<State>) { Runs.Run(Init, Steps(p), tr) }

  // ---------------------------------------------------------------------------
  // One fd at a time
  // ---------------------------------------------------------------------------

  /** A context holds a waiter exactly while its bit is set, or while the waiter is on its way to the queue. */
  predicate GoodCtx(r: Fd, ev: Ev) {
    if r.events.Has(ev) || (r.sec.TrigQueue? && r.sec.ev == ev) then r.Ctx(ev).Full() else r.Ctx(ev) == VACANT
  }

  predicate GoodSection(r: Fd) {
    match r.sec
    case AddCtl(ev, _, _) => !r.events.Has(ev)
    case AddCount(ev, _, _) => !r.events.Has(ev)
    case AddCommit(ev, _, _) => !r.events.Has(ev)
    case DelCtl(ev) => r.events.Has(ev)
    case DelCount(ev) => r.events.Has(ev)
    case DelCommit(ev) => r.events.Has(ev)
    case TrigCtl(todo, left) => left == r.events.Minus(todo) && !r.events.Empty()
    case TrigQueue(ev, _) => !r.events.Has(ev)
    case _ => true
  }

  /** A cancelAll has exactly the set bits left to trigger; a clean close() has none under it. */
  predicate GoodClose(r: Fd) {
    && (r.clean > 0 ==> Agreed(r).Empty())
    && (!r.role.Other? ==>
          match r.sec
          case TrigCtl(todo, _) => todo == r.events
          case Trig(todo) => todo == r.events
          case TrigQueue(_, todo) => todo == r.events
          case TrigCount(_, todo) => todo == r.events
          case _ => false)
  }

  predicate GoodFd(r: Fd) { GoodCtx(r, READ) && GoodCtx(r, WRITE) && GoodSection(r) }

  /** What m_pendingEventCount owes to this fd. */
  function Weight(r: Fd): int {
    r.events.Count() + match r.sec
                       case AddCommit(_, _, _) => 1
                       case DelCommit(_) => -1
                       case TrigQueue(_, _) => 1
                       case TrigCount(_, _) => 1
                       case _ => 0
  }

  predicate KernelAgrees(r: Fd) { r.kernel == Interest(Agreed(r)) }

  predicate TodoRegistered(r: Fd) {
    match r.sec
    case TrigCtl(todo, _) => todo.And(r.events) == todo
    case Trig(todo) => todo.And(r.events) == todo
    case TrigQueue(_, todo) => todo.And(r.events) == todo
    case TrigCount(_, todo) => todo.And(r.events) == todo
    case _ => true
  }

  lemma AdvanceGood(r: Fd, id: RegId)
    requires AtWork(r.sec) && GoodFd(r)
    ensures var e := AdvanceEffect(r, id); e.abort != DirtyContext && (e.abort == Alive ==> GoodFd(e.rec))
  {
  }

  lemma FdStep(p: Policy, s: State, step: Step)
    requires Enabled(p, s, step) && GoodFd(s.fds[step.fd])
    ensures var e := EffectOf(p, s, step); e.abort != DirtyContext && (e.abort == Alive ==> GoodFd(e.rec))
  {
    if step.Advance? {
      AdvanceGood(s.fds[step.fd], s.nextReg);
    }
  }

  lemma AdvanceClose(r: Fd, id: RegId)
    requires AtWork(r.sec) && GoodFd(r) && GoodClose(r)
    ensures var e := AdvanceEffect(r, id); e.abort != EventsLeft && GoodClose(e.rec)
  {
  }

  lemma CloseStep(p: Policy, s: State, step: Step)
    requires Enabled(p, s, step) && GoodFd(s.fds[step.fd]) && GoodClose(s.fds[step.fd])
    ensures var e := EffectOf(p, s, step); e.abort != EventsLeft && GoodClose(e.rec)
  {
    if step.Advance? {
      AdvanceClose(s.fds[step.fd], s.nextReg);
    }
  }

  lemma WeightStep(p: Policy, s: State, step: Step)
    requires Enabled(p, s, step) && GoodFd(s.fds[step.fd])
    ensures var e := EffectOf(p, s, step); Weight(e.rec) == Weight(s.fds[step.fd]) + e.delta
  {
    if step.Advance? {
      AdvanceWeight(s.fds[step.fd], s.nextReg);
    }
  }

  lemma AdvanceWeight(r: Fd, id: RegId)
    requires AtWork(r.sec) && GoodFd(r)
    ensures var e := AdvanceEffect(r, id); Weight(e.rec) == Weight(r) + e.delta
  {
  }

  /** Agreement is lost exactly at a close_f over a registered event. */
  lemma KernelStep(p: Policy, s: State, step: Step)
    requires Enabled(p, s, step) && GoodFd(s.fds[step.fd]) && KernelAgrees(s.fds[step.fd])
    ensures KernelAgrees(EffectOf(p, s, step).rec) <==> !(step.CloseF? && !Agreed(s.fds[step.fd]).Empty())
  {
    if step.Advance? {
      AdvanceKernel(s.fds[step.fd], s.nextReg);
    } else if step.Ctl? {
      CtlKernel(s.fds[step.fd], step.ok);
    }
  }

  lemma AdvanceKernel(r: Fd, id: RegId)
    requires AtWork(r.sec) && GoodFd(r) && KernelAgrees(r)
    ensures KernelAgrees(AdvanceEffect(r, id).rec)
  {
  }

  lemma CtlKernel(r: Fd, ok: bool)
    requires AtCtl(r.sec) && GoodFd(r) && KernelAgrees(r)
    ensures KernelAgrees(CtlEffect(r, ok).rec)
  {
  }

  /** A section comes to trigger an unregistered event exactly if it handles a mixed report, unmasked. */
  lemma TodoStep(p: Policy, s: State, step: Step)
    requires Enabled(p, s, step) && GoodFd(s.fds[step.fd]) && TodoRegistered(s.fds[step.fd])
    ensures var e := EffectOf(p, s, step);
            e.abort != NotRegistered && (TodoRegistered(e.rec) <==> p.masked || !MixedReport(s.fds[step.fd], step))
  {
  }

  // ---------------------------------------------------------------------------
  // All fds together
  // ---------------------------------------------------------------------------

  function Total(fds: seq<Fd>): int { if fds == [] then 0 else Weight(fds[0]) + Total(fds[1..]) }

  lemma {:induction false} TotalUpdate(fds: seq<Fd>, fd: nat, r: Fd)
    requires fd < |fds|
    ensures Total(fds[fd := r]) == Total(fds) - Weight(fds[fd]) + Weight(r)
  {
    if fd == 0 {
      assert fds[fd := r][1..] == fds[1..];
    } else {
      assert fds[fd := r][1..] == fds[1..][fd - 1 := r];
      TotalUpdate(fds[1..], fd - 1, r);
    }
  }

  lemma {:induction false} TotalBounds(fds: seq<Fd>)
    requires forall fd | 0 <= fd < |fds| :: GoodFd(fds[fd])
    ensures Total(fds) >= 0
    ensures forall fd | 0 <= fd < |fds| :: Weight(fds[fd]) <= Total(fds)
  {
    if fds != [] {
      assert GoodFd(fds[0]) && Weight(fds[0]) >= 0;
      forall fd | 0 <= fd < |fds| - 1 ensures GoodFd(fds[1..][fd]) {
        assert GoodFd(fds[fd + 1]);
      }
      TotalBounds(fds[1..]);
      forall fd | 1 <= fd < |fds| ensures Weight(fds[fd]) <= Total(fds) {
        assert fds[fd] == fds[1..][fd - 1];
      }
    }
  }

  /** The context of event ev of fd holds registration id. */
  predicate Held(s: State, fd: nat, ev: Ev, id: RegId) { fd < |s.fds| && s.fds[fd].Ctx(ev).Holds(id) }

  ghost predicate HeldSomewhere(s: State, id: RegId) { exists fd, ev :: Held(s, fd, ev, id) }

  ghost predicate HeldOnce(s: State) {
    forall fd, ev, fd', ev', id | Held(s, fd, ev, id) && Held(s, fd', ev', id) :: fd == fd' && ev == ev'
  }

  ghost predicate HeldIsOpen(s: State) {
    forall fd, ev, id: RegId | Held(s, fd, ev, id) :: id < s.nextReg && id !in s.deleted && id !in s.queue
  }

  ghost predicate ClosedOnce(s: State) {
    && Distinct(s.queue)
    && (forall i | 0 <= i < |s.queue| :: s.queue[i] < s.nextReg && s.queue[i] !in s.deleted)
    && (forall id | id in s.deleted :: id < s.nextReg)
  }

  ghost predicate NoneLost(s: State) {
    forall id: RegId | id < s.nextReg :: id in s.queue || id in s.deleted || HeldSomewhere(s, id)
  }

  ghost predicate Ids(s: State) { HeldOnce(s) && HeldIsOpen(s) && ClosedOnce(s) && NoneLost(s) }

  ghost predicate Inv(s: State) {
    && s.abort != DirtyContext
    && (s.abort == Alive ==> forall fd | 0 <= fd < |s.fds| :: GoodFd(s.fds[fd]))
    && s.pending == Total(s.fds) >= 0
    && Ids(s)
  }

  /** The registration a step moves out of the context of its section's event, to the queue or for good. */
  function Moved(e: Effect): Option<RegId> { if e.push.Some? then e.push else e.drop }

  lemma EffectIds(p: Policy, s: State, step: Step)
    requires Enabled(p, s, step) && GoodFd(s.fds[step.fd])
    ensures var e := EffectOf(p, s, step); var r := s.fds[step.fd];
            && !(e.push.Some? && e.drop.Some?) && !(e.register && Moved(e).Some?)
            && (e.register ==> r.sec.AddCommit? && e.rec.Ctx(r.sec.ev).Holds(s.nextReg))
            && (Moved(e).Some? ==> (r.sec.TrigQueue? || r.sec.DelCommit?) && r.Ctx(r.sec.ev).Holds(Moved(e).value))
            && (forall ev, id: RegId | e.rec.Ctx(ev).Holds(id) ::
                  (r.Ctx(ev).Holds(id) && !(Moved(e).Some? && ev == r.sec.ev))
                  || (e.register && id == s.nextReg && ev == r.sec.ev))
            && (forall ev, id: RegId | r.Ctx(ev).Holds(id) :: e.rec.Ctx(ev).Holds(id) || Moved(e) == Some(id))
  {
  }

  lemma HeldStep(p: Policy, s: State, step: Step)
    requires Enabled(p, s, step) && GoodFd(s.fds[step.fd]) && Ids(s)
    ensures HeldOnce(Apply(p, s, step)) && HeldIsOpen(Apply(p, s, step))
  {
    EffectIds(p, s, step);
    var t := Apply(p, s, step);
    var e := EffectOf(p, s, step);
    var moved := Moved(e);
    forall fd: nat, ev, id: RegId | Held(t, fd, ev, id)
      ensures (Held(s, fd, ev, id) && moved != Some(id)) || (e.register && id == s.nextReg && fd == step.fd
          && ev == s.fds[fd].sec.ev)
    {
      if moved.Some? {
        assert Held(s, step.fd, s.fds[step.fd].sec.ev, moved.value);
      }
      if fd != step.fd || !e.register {
        assert Held(s, fd, ev, id);
      }
    }
  }

  lemma ClosedStep(p: Policy, s: State, step: Step)
    requires Enabled(p, s, step) && GoodFd(s.fds[step.fd]) && Ids(s)
    ensures ClosedOnce(Apply(p, s, step))
  {
    EffectIds(p, s, step);
    var e := EffectOf(p, s, step);
    if Moved(e).Some? {
      assert Held(s, step.fd, s.fds[step.fd].sec.ev, Moved(e).value);
    }
  }

  lemma NoneLostStep(p: Policy, s: State, step: Step)
    requires Enabled(p, s, step) && GoodFd(s.fds[step.fd]) && Ids(s)
    ensures NoneLost(Apply(p, s, step))
  {
    EffectIds(p, s, step);
    var t := Apply(p, s, step);
    var e := EffectOf(p, s, step);
    forall id: RegId | id < t.nextReg ensures id in t.queue || id in t.deleted || HeldSomewhere(t, id) {
      if id == s.nextReg {
        assert Held(t, step.fd, s.fds[step.fd].sec.ev, id);
      } else if id in s.queue {
        assert id in t.queue;
      } else if id !in s.deleted {
        var fd, ev :| Held(s, fd, ev, id);
        if Moved(e) == Some(id) {
          assert e.push.Some? ==> t.queue[|s.queue|] == id;
        } else {
          assert Held(t, fd, ev, id);
        }
      }
    }
  }

  lemma InvStep(p: Policy, s: State, step: Step)
    requires Enabled(p, s, step) && Inv(s)
    ensures Inv(Apply(p, s, step))
  {
    var t := Apply(p, s, step);
    var e := EffectOf(p, s, step);
    FdStep(p, s, step);
    WeightStep(p, s, step);
    TotalUpdate(s.fds, step.fd, e.rec);
    HeldStep(p, s, step);
    ClosedStep(p, s, step);
    NoneLostStep(p, s, step);
    if t.abort == Alive {
      TotalBounds(t.fds);
    }
  }

  lemma InvInit(s: State)
    requires Init(s)
    ensures Inv(s)
  {
    InitTotal(s.fds);
    assert forall fd | 0 <= fd < |s.fds| :: GoodFd(s.fds[fd]);
  }

  lemma {:induction false} InitTotal(fds: seq<Fd>)
    requires forall fd | 0 <= fd < |fds| :: fds[fd] == FRESH
    ensures Total(fds) == 0
  {
    if fds != [] {
      InitTotal(fds[1..]);
    }
  }

  lemma {:induction false} InvAlways(p: Policy, tr: seq<State>)
    requires Run(p, tr)
    ensures Inv(Last(tr))
  {
    if |tr| == 1 {
      InvInit(tr[0]);
    } else {
      var step := LastStep(p, tr);
      InvAlways(p, tr[..|tr| - 1]);
      InvStep(p, tr[|tr| - 2], step);
    }
  }

  lemma LastStep(p: Policy, tr: seq<State>) returns (step: Step)
    requires Run(p, tr) && |tr| > 1
    ensures Run(p, tr[..|tr| - 1])
    ensures Enabled(p, tr[|tr| - 2], step) && Last(tr) == Apply(p, tr[|tr| - 2], step)
  {
    step :| Enabled(p, tr[|tr| - 2], step) && Last(tr) == Apply(p, tr[|tr| - 2], step);
  }

  // ---------------------------------------------------------------------------
  // Main results
  // ---------------------------------------------------------------------------

  lemma {:induction false} DistinctCount(q: seq<RegId>, id: RegId)
    requires Distinct(q)
    ensures multiset(q)[id] == if id in q then 1 else 0
  {
    if q != [] {
      assert q == [q[0]] + q[1..];
      DistinctCount(q[1..], id);
      assert id in q <==> id == q[0] || id in q[1..];
    }
  }

  /**
    Every registration that addEvent accepted is in exactly one of three conditions: still held by one
    context, or deleted, or queued exactly once. The assertion on a dirty context never fails.
   */
  lemma ExactlyOnce(p: Policy, tr: seq<State>, id: RegId)
    requires Run(p, tr) && id < Last(tr).nextReg
    ensures var s := Last(tr);
            && s.abort != DirtyContext && HeldOnce(s)
            && multiset(s.queue)[id] + (if id in s.deleted then 1 else 0) + (if HeldSomewhere(s, id) then 1 else 0) == 1
  {
    InvAlways(p, tr);
    DistinctCount(Last(tr).queue, id);
  }

  /** m_pendingEventCount never underflows, and is the number of set event bits whenever no section is open. */
  lemma PendingConserved(p: Policy, tr: seq<State>)
    requires Run(p, tr)
    ensures var s := Last(tr);
            && s.pending == Total(s.fds) >= 0
            && ((forall fd | 0 <= fd < |s.fds| :: s.fds[fd].sec.Free?) ==> s.pending == BitsSet(s.fds))
  {
    InvAlways(p, tr);
    var s := Last(tr);
    if forall fd | 0 <= fd < |s.fds| :: s.fds[fd].sec.Free? {
      FreeTotal(s.fds);
    }
  }

  function BitsSet(fds: seq<Fd>): nat { if fds == [] then 0 else fds[0].events.Count() + BitsSet(fds[1..]) }

  lemma {:induction false} FreeTotal(fds: seq<Fd>)
    requires forall fd | 0 <= fd < |fds| :: fds[fd].sec.Free?
    ensures Total(fds) == BitsSet(fds)
  {
    if fds != [] {
      FreeTotal(fds[1..]);
    }
  }

  ghost predicate BeingDeleted(s: State, id: RegId) {
    exists fd: nat, ev | Held(s, fd, ev, id) :: s.fds[fd].sec == DelCommit(ev)
  }

  lemma WeightlessIsDeleted(r: Fd, ev: Ev)
    requires GoodFd(r) && Weight(r) <= 0 && r.Ctx(ev) != VACANT
    ensures r.sec == DelCommit(ev)
  {
    assert GoodCtx(r, ev);
  }

  /**
    Visible handoff: when the count reads zero, every registration has been queued or deleted, or is
    just being deleted. So stopping(), which reads the count before the queue, cannot miss one.
   */
  lemma VisibleHandoff(p: Policy, tr: seq<State>, id: RegId)
    requires Run(p, tr) && id < Last(tr).nextReg && Last(tr).abort == Alive && Last(tr).pending == 0
    ensures var s := Last(tr); id in s.queue || id in s.deleted || BeingDeleted(s, id)
  {
    InvAlways(p, tr);
    var s := Last(tr);
    if id !in s.queue && id !in s.deleted {
      assert HeldSomewhere(s, id);
      var fd: nat, ev :| Held(s, fd, ev, id);
      TotalBounds(s.fds);
      WeightlessIsDeleted(s.fds[fd], ev);
    }
  }

  ghost predicate AllAgree(s: State) { forall fd | 0 <= fd < |s.fds| :: KernelAgrees(s.fds[fd]) }

  lemma {:induction false} KernelAlways(p: Policy, tr: seq<State>)
    requires Run(p, tr) && !Last(tr).bareClose
    ensures AllAgree(Last(tr))
  {
    if |tr| > 1 {
      var step := LastStep(p, tr);
      KernelAlways(p, tr[..|tr| - 1]);
      InvAlways(p, tr[..|tr| - 1]);
      KernelStep(p, tr[|tr| - 2], step);
    } else {
      InitAgrees(Last(tr));
    }
  }

  lemma InitAgrees(s: State)
    requires Init(s)
    ensures AllAgree(s)
  {
  }

  /** cancelAll's assertion that no event is left never fails, and a clean close() has no event under it. */
  lemma {:induction false} CloseAlways(p: Policy, tr: seq<State>)
    requires Run(p, tr)
    ensures var s := Last(tr); s.abort != EventsLeft && forall fd | 0 <= fd < |s.fds| :: GoodClose(s.fds[fd])
  {
    if |tr| > 1 {
      var step := LastStep(p, tr);
      CloseAlways(p, tr[..|tr| - 1]);
      InvAlways(p, tr[..|tr| - 1]);
      CloseStep(p, tr[|tr| - 2], step);
    }
  }

  lemma {:induction false} GuardedAlways(p: Policy, tr: seq<State>)
    requires Run(p, tr) && p.guardedClose
    ensures !Last(tr).bareClose
  {
    if |tr| > 1 {
      var step := LastStep(p, tr);
      GuardedAlways(p, tr[..|tr| - 1]);
      CloseAlways(p, tr[..|tr| - 1]);
      assert GoodClose(tr[|tr| - 2].fds[step.fd]);
    }
  }

  /** Kernel and table agree in every state of the run. */
  ghost predicate AgreesThroughout(tr: seq<State>) {
    tr == [] || (AgreesThroughout(tr[..|tr| - 1]) && AllAgree(Last(tr)))
  }

  /**
    In every run, failed epoll_ctl calls included: kernel and table agree in each of its states if and only
    if no close_f ran while an event was registered. (A failed cancelAll or an addEvent after it is what
    it takes, but does no harm if the event is gone again by the time of close_f.)
   */
  lemma {:induction false} KernelRunIff(p: Policy, tr: seq<State>)
    requires Run(p, tr)
    ensures AgreesThroughout(tr) <==> !Last(tr).bareClose
  {
    if !Last(tr).bareClose {
      KernelAlways(p, tr);
    }
    if |tr| > 1 {
      KernelRunIff(p, tr[..|tr| - 1]);
      var step := LastStep(p, tr);
      if Last(tr).bareClose && !Last(tr[..|tr| - 1]).bareClose {
        BareBreaks(p, tr);
      }
    } else {
      assert tr[..0] == [];
    }
  }

  lemma BareBreaks(p: Policy, tr: seq<State>)
    requires Run(p, tr) && |tr| > 1 && Last(tr).bareClose && !Last(tr[..|tr| - 1]).bareClose
    ensures !AllAgree(Last(tr))
  {
    var step := LastStep(p, tr);
    KernelAlways(p, tr[..|tr| - 1]);
    InvAlways(p, tr[..|tr| - 1]);
    KernelStep(p, tr[|tr| - 2], step);
    AgreeUpdate(p, tr[|tr| - 2], step);
  }

  lemma AgreeUpdate(p: Policy, s: State, step: Step)
    requires Enabled(p, s, step) && AllAgree(s)
    ensures AllAgree(Apply(p, s, step)) <==> KernelAgrees(EffectOf(p, s, step).rec)
  {
    assert Apply(p, s, step).fds[step.fd] == EffectOf(p, s, step).rec;
  }

  /** Outside sections the kernel's interest is the event mask; inside, no illegal epoll_ctl is issued. */
  ghost predicate KernelInStep(s: State) {
    s.abort == Alive ==>
      forall fd | 0 <= fd < |s.fds| ::
        var r := s.fds[fd];
        && (r.sec.Free? ==> r.kernel == Interest(r.events))
        && (AtCtl(r.sec) ==> Legal(OpOf(r), r.kernel))
  }

  lemma KernelAgreement(p: Policy, tr: seq<State>)
    requires Run(p, tr) && !Last(tr).bareClose
    ensures KernelInStep(Last(tr))
  {
    KernelAlways(p, tr);
    InvAlways(p, tr);
    var s := Last(tr);
    if s.abort == Alive {
      forall fd | 0 <= fd < |s.fds|
        ensures (s.fds[fd].sec.Free? ==> s.fds[fd].kernel == Interest(s.fds[fd].events))
             && (AtCtl(s.fds[fd].sec) ==> Legal(OpOf(s.fds[fd]), s.fds[fd].kernel))
      {
        assert KernelAgrees(s.fds[fd]) && GoodFd(s.fds[fd]);
      }
    }
  }

  /**
    The assertion at the head of triggerEvent fails only in runs in which idle() has handled, unmasked, a
    report that names a registered and an unregistered event.
   */
  lemma {:induction false} MixedAlways(p: Policy, tr: seq<State>)
    requires Run(p, tr) && (p.masked || !Last(tr).mixed)
    ensures var s := Last(tr);
            s.abort != NotRegistered && forall fd | 0 <= fd < |s.fds| :: TodoRegistered(s.fds[fd])
  {
    if |tr| > 1 {
      var step := LastStep(p, tr);
      MixedAlways(p, tr[..|tr| - 1]);
      InvAlways(p, tr[..|tr| - 1]);
      TodoStep(p, tr[|tr| - 2], step);
    }
  }

  predicate Triggering(sec: Section) { sec.Trig? || sec.TrigQueue? || sec.TrigCount? }

  function Rank(sec: Section): nat
    requires Triggering(sec)
  {
    match sec
    case Trig(todo) => 3 * todo.Count()
    case TrigQueue(_, todo) => 3 * todo.Count() + 2
    case TrigCount(_, todo) => 3 * todo.Count() + 1
  }

  /** How a triggering section ends when it is let run: nothing but its own steps matters to it. */
  function Ending(r: Fd, id: RegId): Abort
    requires Triggering(r.sec)
    decreases Rank(r.sec)
  {
    var e := AdvanceEffect(r, id);
    if e.abort != Alive || !Triggering(e.rec.sec) then e.abort else Ending(e.rec, id)
  }

  /** The fd after the section's first event has been triggered, queued and counted. */
  function AfterFirst(r: Fd): Fd
    requires r.sec.Trig?
  {
    var ev := r.sec.todo.First();
    var c := r.Ctx(ev);
    var c1 := if c.cb.Some? then c.(cb := None) else c.(fiber := None);
    r.(events := r.events.Without(ev), sec := Trig(r.sec.todo.Without(ev))).SetCtx(ev, c1.(scheduler := false))
  }

  lemma EndingFirst(r: Fd, id: RegId)
    requires r.sec.Trig? && !r.sec.todo.Empty() && r.events.Has(r.sec.todo.First())
    ensures Ending(r, id) == if r.Ctx(r.sec.todo.First()).scheduler then Ending(AfterFirst(r), id) else NullScheduler
  {
    var ev, todo := r.sec.todo.First(), r.sec.todo.Without(r.sec.todo.First());
    var r1 := r.(events := r.events.Without(ev), sec := TrigQueue(ev, todo));
    assert Ending(r, id) == Ending(r1, id);
    if r.Ctx(ev).scheduler {
      var r2 := AfterFirst(r).(sec := TrigCount(ev, todo));
      assert Ending(r1, id) == Ending(r2, id);
      assert Ending(r2, id) == Ending(AfterFirst(r), id);
    }
  }

  lemma EndingNow(r: Fd, id: RegId)
    requires r.sec.Trig?
    ensures r.sec.todo.Empty() ==> Ending(r, id) != NotRegistered
    ensures !r.sec.todo.Empty() && !r.events.Has(r.sec.todo.First()) ==> Ending(r, id) == NotRegistered
  {
  }

  /**
    Past its epoll_ctl, a section ends in that assertion if and only if it has an unregistered event to
    trigger and does not fall over a null scheduler pointer before it.
   */
  lemma EndingIff(r: Fd, id: RegId)
    requires r.sec.Trig?
    ensures var todo := r.sec.todo;
            Ending(r, id) == NotRegistered <==>
              || (todo.read && !r.events.read)
              || (todo.write && !r.events.write && (todo.read ==> r.read.scheduler))
  {
    EndingNow(r, id);
    if !r.sec.todo.Empty() && r.events.Has(r.sec.todo.First()) {
      EndingFirst(r, id);
      var r1 := AfterFirst(r);
      EndingNow(r1, id);
      if !r1.sec.todo.Empty() && r1.events.Has(r1.sec.todo.First()) {
        EndingFirst(r1, id);
        EndingNow(AfterFirst(r1), id);
      }
    }
  }

  /** Reports and close_f on the same fd, which need no lock, do not change how the section ends. */
  lemma {:induction false} EndingFrame(r: Fd, r': Fd, id: RegId, id': RegId)
    requires Triggering(r.sec)
    requires r' == r.(kernel := r'.kernel, reports := r'.reports, clean := r'.clean, dirty := r'.dirty)
    ensures Ending(r, id) == Ending(r', id')
    decreases Rank(r.sec)
  {
    var e, e' := AdvanceEffect(r, id), AdvanceEffect(r', id');
    if e.abort == Alive && Triggering(e.rec.sec) {
      EndingFrame(e.rec, e'.rec, id, id');
    }
  }

  /** The section on fd is on its way into the assertion. */
  predicate Doomed(s: State, fd: nat) {
    fd < |s.fds| && Triggering(s.fds[fd].sec) && Ending(s.fds[fd], s.nextReg) == NotRegistered
  }

  /** And there is no way out: whatever runs next, the section is still doomed, or the run has ended. */
  lemma DoomedStep(p: Policy, s: State, step: Step, fd: nat)
    requires Enabled(p, s, step) && Doomed(s, fd)
    ensures var t := Apply(p, s, step); t.abort != Alive || Doomed(t, fd)
    ensures step == Advance(fd) ==> var t := Apply(p, s, step);
              t.abort == NotRegistered || (t.abort == Alive && Rank(t.fds[fd].sec) < Rank(s.fds[fd].sec))
  {
    var t := Apply(p, s, step);
    if t.abort == Alive {
      if step.fd == fd && step.Advance? {
        EndingFrame(t.fds[fd], t.fds[fd], s.nextReg, t.nextReg);
      } else {
        EndingFrame(s.fds[fd], t.fds[fd], s.nextReg, t.nextReg);
      }
    }
  }

  /**
    A mixed report, handled unmasked, dooms its section, unless epoll_ctl fails or READ's scheduler pointer is
    null.
   */
  lemma MixedDooms(p: Policy, s: State, step: Step)
    requires Enabled(p, s, step) && !p.masked && MixedReport(s.fds[step.fd], step) && GoodFd(s.fds[step.fd])
    ensures var t := Apply(p, s, step);
            && t.fds[step.fd].sec.TrigCtl? && t.abort == Alive
            && (Enabled(p, t, Ctl(step.fd, true)) && (s.fds[step.fd].events.read ==> s.fds[step.fd].read.scheduler) ==>
                  Doomed(Apply(p, t, Ctl(step.fd, true)), step.fd))
  {
    var t := Apply(p, s, step);
    if Enabled(p, t, Ctl(step.fd, true)) {
      EndingIff(Apply(p, t, Ctl(step.fd, true)).fds[step.fd], s.nextReg);
    }
  }

  // ---------------------------------------------------------------------------
  // The two policies are exactly what the last two results need
  // ---------------------------------------------------------------------------

  /** R covers every run. */
  ghost predicate Covers(p: Policy, R: State -> bool) { Runs.Covers(Init, Steps(p), R) }

  lemma Move(p: Policy, R: State -> bool, s: State, step: Step, t: State)
    requires Covers(p, R) && R(s) && Enabled(p, s, step) && Apply(p, s, step) == t
    ensures R(t)
  {
  }

  /** The states of all runs. */
  ghost function All(p: Policy): State -> bool { Reached(Init, Steps(p)) }

  /** One fd, no aborted thread, nothing queued or deleted. */
  function One(r: Fd, pending: int, nextReg: RegId, deleted: set<RegId>): State {
    State([r], pending, [], nextReg, deleted, Alive, false, false)
  }

  /** A waiter registered from a scheduler thread. */
  function Parked(id: RegId): EventCtx { EventCtx(true, Some(id), None) }

  /** The fd after addEvent's epoll_ctl for ev. */
  function Told(r: Fd, ev: Ev): Fd { r.(kernel := Some(r.events.With(ev)), clean := 0, dirty := r.dirty + r.clean) }

  /** The fd with event ev registered by waiter id. */
  function Registered(r: Fd, ev: Ev, id: RegId): Fd {
    Told(r, ev).(events := r.events.With(ev)).SetCtx(ev, Parked(id))
  }

  predicate Ready(r: Fd, ev: Ev) {
    r.sec.Free? && r.role.Other? && !r.events.Has(ev) && r.Ctx(ev) == VACANT && r.kernel == Interest(r.events)
  }

  lemma RegisterCtl(p: Policy, R: State -> bool, r: Fd, ev: Ev, pending: int, id: RegId)
    requires Covers(p, R) && Ready(r, ev) && R(One(r, pending, id, {}))
    ensures R(One(Told(r, ev).(sec := AddCount(ev, true, true)), pending, id, {}))
  {
    var s1 := One(r.(sec := AddCtl(ev, true, true)), pending, id, {});
    Move(p, R, One(r, pending, id, {}), AddBegin(0, ev, true, true), s1);
    Move(p, R, s1, Ctl(0, true), One(Told(r, ev).(sec := AddCount(ev, true, true)), pending, id, {}));
  }

  lemma Register(p: Policy, R: State -> bool, r: Fd, ev: Ev, pending: int, id: RegId)
    requires Covers(p, R) && Ready(r, ev) && R(One(r, pending, id, {}))
    ensures R(One(Registered(r, ev, id), pending + 1, id + 1, {}))
  {
    RegisterCtl(p, R, r, ev, pending, id);
    var k := Told(r, ev);
    var s3 := One(k.(sec := AddCommit(ev, true, true)), pending + 1, id, {});
    Move(p, R, One(k.(sec := AddCount(ev, true, true)), pending, id, {}), Advance(0), s3);
    Move(p, R, s3, Advance(0), One(Registered(r, ev, id), pending + 1, id + 1, {}));
  }

  /** READ registered by waiter 0. */
  const READING := Fd(Bits(true, false), Parked(0), VACANT, Free, Other, Some(Bits(true, false)), [], 0, 0)

  /** The fd of BROKEN: READ registered, unknown to the kernel. */
  const LOST := READING.(kernel := None)

  const BROKEN := One(LOST, 1, 1, {}).(bareClose := true)

  /** close_f by a close() that is not clean. */
  lemma CloseRegistered(p: Policy, R: State -> bool, r: Fd)
    requires Covers(p, R) && !p.guardedClose && r.dirty > 0 && !Agreed(r).Empty() && R(One(r, 1, 1, {}))
    ensures R(One(r.(kernel := None, dirty := r.dirty - 1), 1, 1, {}).(bareClose := true))
  {
    var closed := r.(kernel := None, dirty := r.dirty - 1);
    Move(p, R, One(r, 1, 1, {}), CloseF(0, false), One(closed, 1, 1, {}).(bareClose := true));
  }

  /** The close hook overtaken: cancelAll finds nothing, then addEvent registers, then close_f runs. */
  lemma OvertakenRun(p: Policy, R: State -> bool)
    requires Covers(p, R) && !p.guardedClose
    ensures R(BROKEN)
  {
    StartRun(p, R);
    CloseIdle(p, R);
    var r := FRESH.(clean := 1);
    Register(p, R, r, READ, 0, 0);
    assert Registered(r, READ, 0) == READING.(dirty := 1);
    CloseRegistered(p, R, READING.(dirty := 1));
  }

  lemma StartRun(p: Policy, R: State -> bool)
    requires Covers(p, R)
    ensures R(One(FRESH, 0, 0, {}))
  {
    assert Init(One(FRESH, 0, 0, {}));
  }

  lemma CloseIdle(p: Policy, R: State -> bool)
    requires Covers(p, R) && R(One(FRESH, 0, 0, {}))
    ensures R(One(FRESH.(clean := 1), 0, 0, {}))
  {
    Move(p, R, One(FRESH, 0, 0, {}), CloseBegin(0), One(FRESH.(clean := 1), 0, 0, {}));
  }

  /** cancelAll's epoll_ctl fails in a close(). */
  lemma CancelFails(p: Policy, R: State -> bool, r: Fd)
    requires Covers(p, R) && r.sec.Free? && r.role.Other? && !r.events.Empty() && R(One(r, 1, 1, {}))
    ensures R(One(r.(dirty := r.dirty + 1), 1, 1, {}))
  {
    var r1 := r.(role := Closing, sec := TrigCtl(r.events, NONE));
    Move(p, R, One(r, 1, 1, {}), CloseBegin(0), One(r1, 1, 1, {}));
    Move(p, R, One(r1, 1, 1, {}), Ctl(0, false), One(r.(dirty := r.dirty + 1), 1, 1, {}));
  }

  /** The close hook's cancelAll failing: the event stays, and close_f runs all the same. */
  lemma FailedCancelRun(p: Policy, R: State -> bool)
    requires Covers(p, R) && !p.guardedClose
    ensures R(BROKEN)
  {
    RegisterRead(p, R);
    CancelFails(p, R, READING);
    CloseRegistered(p, R, READING.(dirty := 1));
  }

  lemma RegisterRead(p: Policy, R: State -> bool)
    requires Covers(p, R)
    ensures R(One(READING, 1, 1, {}))
  {
    StartRun(p, R);
    Register(p, R, FRESH, READ, 0, 0);
  }

  /**
    The close hook as written does not keep kernel and table in step. They agree in every run if and only if
    close_f is held back until cancelAll has not failed and no addEvent has reached the kernel since.
   */
  lemma KernelAgreementIff(p: Policy)
    ensures (forall tr | Run(p, tr) :: KernelInStep(Last(tr))) <==> p.guardedClose
  {
    if p.guardedClose {
      forall tr | Run(p, tr) ensures KernelInStep(Last(tr)) {
        GuardedAlways(p, tr);
        KernelAgreement(p, tr);
      }
    } else {
      ReachedCovers(Init, Steps(p));
      OvertakenRun(p, All(p));
      FailedCancelRun(p, All(p));
      var tr :| Run(p, tr) && Last(tr) == BROKEN;
      assert !KernelInStep(BROKEN) by {
        assert BROKEN.fds[0] == LOST && LOST.sec.Free? && LOST.kernel != Interest(LOST.events);
      }
    }
  }

  const BOTH := Bits(true, true)

  /** READ registered by waiter 0, WRITE registered and deleted again, and a report of both still to be handled. */
  const STALE := Fd(Bits(true, false), Parked(0), VACANT, Free, Other, Some(Bits(true, false)), [BOTH], 0, 0)

  /** Both events registered. */
  const FULL := Fd(BOTH, Parked(0), Parked(1), Free, Other, Some(BOTH), [], 0, 0)

  lemma RegisterBoth(p: Policy, R: State -> bool)
    requires Covers(p, R)
    ensures R(One(FULL, 2, 2, {}))
  {
    RegisterRead(p, R);
    Register(p, R, READING, WRITE, 1, 1);
  }

  lemma ReportBoth(p: Policy, R: State -> bool)
    requires Covers(p, R) && R(One(FULL, 2, 2, {}))
    ensures R(One(FULL.(reports := [BOTH]), 2, 2, {}))
  {
    assert FULL.reports + [BOTH] == [BOTH];
    Move(p, R, One(FULL, 2, 2, {}), Report(0, BOTH), One(FULL.(reports := [BOTH]), 2, 2, {}));
  }

  lemma StaleReportRun(p: Policy, R: State -> bool)
    requires Covers(p, R)
    ensures R(One(STALE, 1, 2, {1}))
  {
    RegisterBoth(p, R);
    ReportBoth(p, R);
    DeleteWrite(p, R, FULL.(reports := [BOTH]));
  }

  lemma DeleteWrite(p: Policy, R: State -> bool, r: Fd)
    requires Covers(p, R) && R(One(r, 2, 2, {}))
    requires r == Fd(BOTH, Parked(0), Parked(1), Free, Other, Some(BOTH), [BOTH], 0, 0)
    ensures R(One(STALE, 1, 2, {1}))
  {
    var k := r.(kernel := Some(Bits(true, false)));
    var s1 := One(r.(sec := DelCtl(WRITE)), 2, 2, {});
    var s2 := One(k.(sec := DelCount(WRITE)), 2, 2, {});
    var s3 := One(k.(sec := DelCommit(WRITE)), 1, 2, {});
    Move(p, R, One(r, 2, 2, {}), DelBegin(0, WRITE), s1);
    Move(p, R, s1, Ctl(0, true), s2);
    Move(p, R, s2, Advance(0), s3);
    Move(p, R, s3, Advance(0), One(STALE, 1, 2, {1}));
  }

  /** The state in which the assertion on WRITE fails: waiter 0 queued, nothing registered. */
  const STOPPED :=
    State([Fd(NONE, VACANT, VACANT, Trig(Bits(false, true)), Other, None, [], 0, 0)],
          0, [0], 2, {1}, NotRegistered, false, true)

  /** Handling that report triggers READ, then WRITE, whose bit is clear. */
  lemma StaleTriggerRun(p: Policy, R: State -> bool)
    requires Covers(p, R) && !p.masked
    ensures R(STOPPED)
  {
    StaleReportRun(p, R);
    var r := STALE.(sec := TrigCtl(BOTH, NONE), reports := []);
    Move(p, R, One(STALE, 1, 2, {1}), Deliver(0, 0, false), Mix(r));
    var r1 := r.(kernel := None, sec := Trig(BOTH));
    Move(p, R, Mix(r), Ctl(0, true), Mix(r1));
    var r2 := r1.(events := NONE, sec := TrigQueue(READ, Bits(false, true)));
    Move(p, R, Mix(r1), Advance(0), Mix(r2));
    StaleTriggerEnd(p, R, r2);
  }

  /** That fd, once the mixed report is being handled. */
  function Mix(r: Fd): State { One(r, 1, 2, {1}).(mixed := true) }

  lemma StaleTriggerEnd(p: Policy, R: State -> bool, r: Fd)
    requires Covers(p, R) && R(Mix(r))
    requires r == Fd(NONE, Parked(0), VACANT, TrigQueue(READ, Bits(false, true)), Other, None, [], 0, 0)
    ensures R(STOPPED)
  {
    var s := Mix(r);
    var r3 := r.(read := VACANT, sec := TrigCount(READ, Bits(false, true)));
    assert s.queue + [0] == [0];
    Move(p, R, s, Advance(0), Mix(r3).(queue := [0]));
    StaleTriggerLast(p, R, r3);
  }

  lemma StaleTriggerLast(p: Policy, R: State -> bool, r: Fd)
    requires Covers(p, R) && R(Mix(r).(queue := [0]))
    requires r == Fd(NONE, VACANT, VACANT, TrigCount(READ, Bits(false, true)), Other, None, [], 0, 0)
    ensures R(STOPPED)
  {
    var s := Mix(r).(queue := [0]);
    assert s.queue + [] == s.queue;
    Move(p, R, s, Advance(0), STOPPED.(abort := Alive));
    Move(p, R, STOPPED.(abort := Alive), Advance(0), STOPPED);
  }

  /** The assertion in triggerEvent holds in every run exactly if idle() masks the reported events. */
  lemma TriggerAssertionIff(p: Policy)
    ensures (forall tr | Run(p, tr) :: Last(tr).abort != NotRegistered) <==> p.masked
  {
    if p.masked {
      forall tr | Run(p, tr) ensures Last(tr).abort != NotRegistered {
        MixedAlways(p, tr);
      }
    } else {
      ReachedCovers(Init, Steps(p));
      StaleTriggerRun(p, All(p));
      var tr :| Run(p, tr) && Last(tr) == STOPPED;
    }
  }
}
