/**
  What every call on the event table does, from taking the fd's mutex to releasing it. The runs of the event
  table are logged from outside: when a section opens, for which call and on what record, what is queued and
  deleted while it is open, and how the record looks when it closes.
 */
module IoSections {
  import opened Common
  import opened Runs
  import opened IoManagerModel

  /**
    The call a section is for: cancelAll is also that of close(); idle() handles a report, with or without
    EPOLLERR or EPOLLHUP.
   */
  datatype Request =
    | Add(ev: Ev, byFiber: bool, onScheduler: bool) | Del(ev: Ev) | Cancel(ev: Ev) | All
    | Idle(ready: Bits, error: bool)

  /** An open section: the record it found, and what it has queued and deleted so far. */
  datatype Open = Open(req: Request, before: Fd, queued: seq<RegId>, deleted: set<RegId>)

  /** A closed one; ok unless its epoll_ctl failed. next is the number of the next registration. */
  datatype Closed = Closed(o: Open, ok: bool, after: Fd, next: RegId)

  datatype Log = Log(open: map<nat, Open>, closed: seq<Closed>)

  datatype Logged = Logged(s: State, log: Log)

  // ---------------------------------------------------------------------------
  // Logging
  // ---------------------------------------------------------------------------

  predicate Opens(step: Step) {
    step.AddBegin? || step.DelBegin? || step.CancelBegin? || step.CancelAllBegin? || step.CloseBegin? || step.Deliver?
  }

  function RequestOf(r: Fd, step: Step): Request
    requires Opens(step) && (step.Deliver? ==> step.k < |r.reports|)
  {
    match step
    case AddBegin(_, ev, f, o) => Add(ev, f, o)
    case DelBegin(_, ev) => Del(ev)
    case CancelBegin(_, ev) => Cancel(ev)
    case Deliver(_, k, error) => Idle(r.reports[k], error)
    case _ => All
  }

  /** What the open section has queued and deleted after a step from s to t. */
  function Extended(s: State, t: State, o: Open): Open {
    var queued := if |s.queue| <= |t.queue| then t.queue[|s.queue|..] else [];
    o.(queued := o.queued + queued, deleted := o.deleted + (t.deleted - s.deleted))
  }

  function Record(p: Policy, s: State, step: Step, log: Log): Log
    requires Enabled(p, s, step)
  {
    var t, fd := Apply(p, s, step), step.fd;
    var r, r' := s.fds[fd], t.fds[fd];
    if t.abort != Alive then log
    else if r.sec.Free? then
      if !r'.sec.Free? && Opens(step) then log.(open := log.open[fd := Open(RequestOf(r, step), r, [], {})]) else log
    else if fd !in log.open then log
    else
      var o := Extended(s, t, log.open[fd]);
      if r'.sec.Free? then Log(log.open - {fd}, log.closed + [Closed(o, !step.Ctl?, r', s.nextReg)])
      else log.(open := log.open[fd := o])
  }

  predicate LoggedInit(x: Logged) { Init(x.s) && x.log == EMPTY }

  const EMPTY := Log(map[], [])

  ghost predicate LoggedNext(p: Policy, x: Logged, y: Logged) {
    exists step :: Enabled(p, x.s, step) && y == Logged(Apply(p, x.s, step), Record(p, x.s, step, x.log))
  }

  ghost function LoggedSteps(p: Policy): (Logged, Logged) -> bool { (x, y) => LoggedNext(p, x, y) }

  ghost predicate LoggedRun(p: Policy, tr: seq<Logged>) { Runs.Run(LoggedInit, LoggedSteps(p), tr) }

  // ---------------------------------------------------------------------------
  // What each call promises
  // ---------------------------------------------------------------------------

  function OtherEv(ev: Ev): Ev { if ev == READ then WRITE else READ }

  /** Bit and context of ev are as they were; or the event is gone. */
  predicate Same(a: Fd, b: Fd, ev: Ev) { a.events.Has(ev) == b.events.Has(ev) && a.Ctx(ev) == b.Ctx(ev) }

  predicate Gone(r: Fd, ev: Ev) { !r.events.Has(ev) && r.Ctx(ev) == EventCtx(false, None, None) }

  /** The registration held for ev. */
  function Holder(r: Fd, ev: Ev): seq<RegId> { Opt(r.Ctx(ev).fiber) + Opt(r.Ctx(ev).cb) }

  /** The events a call triggers: the one asked for, all, or those registered and named by the report. */
  function Named(o: Open): Bits {
    var e := o.before.events;
    match o.req
    case Cancel(ev) => Bits(ev == READ, ev == WRITE)
    case All => e
    case Idle(ready, error) => Bits(e.read && (ready.read || error), e.write && (ready.write || error))
    case _ => Bits(false, false)
  }

  function HolderIf(b: bool, r: Fd, ev: Ev): seq<RegId> { if b then Holder(r, ev) else [] }

  /** A section that failed changed nothing. One that did not did exactly what it was called for. */
  predicate Kept(c: Closed) {
    var o, a, b := c.o, c.o.before, c.after;
    if !c.ok then Same(a, b, READ) && Same(a, b, WRITE) && o.queued == [] && o.deleted == {}
    else
      match o.req
      case Add(ev, byFiber, onScheduler) =>
        && !a.events.Has(ev) && b.events.Has(ev) && Same(a, b, OtherEv(ev)) && o.queued == [] && o.deleted == {}
        && (var fiber, cb := if byFiber then Some(c.next) else None, if byFiber then None else Some(c.next);
            b.Ctx(ev) == EventCtx(onScheduler, fiber, cb))
      case Del(ev) =>
        && a.events.Has(ev) && Gone(b, ev) && Same(a, b, OtherEv(ev)) && o.queued == []
        && |Holder(a, ev)| == 1 && o.deleted == {Holder(a, ev)[0]}
      case _ =>
        && (forall ev ::
              if Named(o).Has(ev) then a.events.Has(ev) && Gone(b, ev) && |Holder(a, ev)| == 1
              else Same(a, b, ev))
        && o.queued == HolderIf(Named(o).read, a, READ) + HolderIf(Named(o).write, a, WRITE) && o.deleted == {}
  }

  // ---------------------------------------------------------------------------
  // Open sections
  // ---------------------------------------------------------------------------

  predicate Untouched(r: Fd, o: Open) {
    Same(o.before, r, READ) && Same(o.before, r, WRITE) && o.queued == [] && o.deleted == {}
  }

  /** Event ev in a section with todo still to trigger; current is the one just cleared, if any. */
  predicate EvOk(r: Fd, o: Open, todo: Bits, ev: Ev) {
    && (todo.Has(ev) && o.before.events.Has(ev) ==> Named(o).Has(ev))
    && (Named(o).Has(ev) ==> o.before.events.Has(ev))
    && if Named(o).Has(ev) && !todo.Has(ev) then Gone(r, ev) else Same(o.before, r, ev)
  }

  /** What has been queued, when the events done have been. */
  predicate QueuedOk(o: Open, readDone: bool, writeDone: bool) {
    o.queued == HolderIf(readDone, o.before, READ) + HolderIf(writeDone, o.before, WRITE) && o.deleted == {}
  }

  predicate OpenOk(r: Fd, o: Open) {
    && GoodCtx(o.before, READ) && GoodCtx(o.before, WRITE) && o.before.sec == Free
    && var n := Named(o);
       match r.sec
       case Free => false
       case AddCtl(ev, f, c) => o.req == Add(ev, f, c) && Untouched(r, o)
       case AddCount(ev, f, c) => o.req == Add(ev, f, c) && Untouched(r, o)
       case AddCommit(ev, f, c) => o.req == Add(ev, f, c) && Untouched(r, o)
       case DelCtl(ev) => o.req == Del(ev) && Untouched(r, o)
       case DelCount(ev) => o.req == Del(ev) && Untouched(r, o)
       case DelCommit(ev) => o.req == Del(ev) && Untouched(r, o)
       case TrigCtl(todo, _) =>
         && !o.req.Add? && !o.req.Del? && Untouched(r, o)
         && (forall ev :: n.Has(ev) <==> todo.Has(ev) && o.before.events.Has(ev))
       case Trig(todo) =>
         && !o.req.Add? && !o.req.Del? && EvOk(r, o, todo, READ) && EvOk(r, o, todo, WRITE)
         && QueuedOk(o, n.read && !todo.read, n.write && !todo.write) && (todo.read && n.read && n.write ==> todo.write)
       case TrigQueue(ev, todo) =>
         && !o.req.Add? && !o.req.Del? && n.Has(ev) && !todo.Has(ev) && EvOk(r, o, todo, OtherEv(ev))
         && o.before.events.Has(ev) && !r.events.Has(ev) && r.Ctx(ev) == o.before.Ctx(ev)
         && (ev == WRITE ==> !todo.read)
         && QueuedOk(o, n.read && !todo.read && ev != READ, n.write && !todo.write && ev != WRITE)
         && (ev == READ && n.write ==> todo.write)
       case TrigCount(ev, todo) =>
         && !o.req.Add? && !o.req.Del? && EvOk(r, o, todo, READ) && EvOk(r, o, todo, WRITE)
         && QueuedOk(o, n.read && !todo.read, n.write && !todo.write) && (todo.read && n.read && n.write ==> todo.write)
  }

  /** A section is open in the log exactly while it is, and stands as the log has it. */
  predicate FdOk(s: State, log: Log, fd: nat) {
    && (fd in log.open ==> fd < |s.fds| && OpenOk(s.fds[fd], log.open[fd]))
    && (fd < |s.fds| && !s.fds[fd].sec.Free? ==> fd in log.open)
  }

  ghost predicate LogOk(s: State, log: Log) {
    && (s.abort == Alive ==> forall fd :: FdOk(s, log, fd))
    && (forall i | 0 <= i < |log.closed| :: Kept(log.closed[i]))
  }

  // ---------------------------------------------------------------------------
  // Steps
  // ---------------------------------------------------------------------------

  /** Outside sections nothing is queued, deleted or registered, and no bit or context changes. */
  lemma QuietOutside(p: Policy, s: State, step: Step)
    requires Enabled(p, s, step) && s.fds[step.fd].sec.Free?
    ensures var t := Apply(p, s, step); var r, r' := s.fds[step.fd], t.fds[step.fd];
            && t.queue == s.queue && t.deleted == s.deleted && t.nextReg == s.nextReg
            && Same(r, r', READ) && Same(r, r', WRITE)
  {
  }

  /** The start of a section. */
  lemma OpenStep(p: Policy, s: State, step: Step)
    requires Enabled(p, s, step) && s.fds[step.fd].sec.Free? && GoodFd(s.fds[step.fd])
    ensures var t := Apply(p, s, step); var r, r' := s.fds[step.fd], t.fds[step.fd];
            t.abort == Alive && !r'.sec.Free? ==> Opens(step) && OpenOk(r', Open(RequestOf(r, step), r, [], {}))
  {
  }

  /** How a step inside a section on fd leaves the log's entry for it. */
  predicate Continues(s: State, t: State, step: Step, o: Open)
    requires step.fd < |s.fds| && step.fd < |t.fds|
  {
    var o', r' := Extended(s, t, o), t.fds[step.fd];
    if r'.sec.Free? then Kept(Closed(o', !step.Ctl?, r', s.nextReg)) else OpenOk(r', o')
  }

  lemma OpenFrame(r: Fd, r': Fd, o: Open)
    requires OpenOk(r, o) && r'.events == r.events && r'.read == r.read && r'.write == r.write && r'.sec == r.sec
    ensures OpenOk(r', o)
  {
    assert forall ev :: r'.Ctx(ev) == r.Ctx(ev);
  }

  lemma LocklessEffect(p: Policy, s: State, step: Step)
    requires Enabled(p, s, step) && !s.fds[step.fd].sec.Free? && !step.Ctl? && !step.Advance?
    ensures var t := Apply(p, s, step); var r, r' := s.fds[step.fd], t.fds[step.fd];
            && r'.events == r.events && r'.read == r.read && r'.write == r.write && r'.sec == r.sec
            && t.queue == s.queue && t.deleted == s.deleted
  {
  }

  lemma NothingNew(s: State, t: State, o: Open)
    requires t.queue == s.queue && t.deleted == s.deleted
    ensures Extended(s, t, o) == o
  {
    assert o.queued + [] == o.queued && o.deleted + {} == o.deleted;
  }

  /** A report or a close_f while the section is open. */
  lemma LocklessStep(p: Policy, s: State, step: Step, o: Open)
    requires Enabled(p, s, step) && OpenOk(s.fds[step.fd], o) && !step.Ctl? && !step.Advance?
    ensures Continues(s, Apply(p, s, step), step, o)
  {
    LocklessEffect(p, s, step);
    OpenFrame(s.fds[step.fd], Apply(p, s, step).fds[step.fd], o);
    NothingNew(s, Apply(p, s, step), o);
  }

  lemma CtlStep(p: Policy, s: State, step: Step, o: Open)
    requires Enabled(p, s, step) && OpenOk(s.fds[step.fd], o) && GoodFd(s.fds[step.fd]) && step.Ctl?
    ensures Continues(s, Apply(p, s, step), step, o)
  {
    var t := Apply(p, s, step);
    assert t.queue[|s.queue|..] == [] && t.deleted - s.deleted == {};
    assert o.queued + [] == o.queued;
  }

  lemma AddStep(p: Policy, s: State, step: Step, o: Open)
    requires Enabled(p, s, step) && OpenOk(s.fds[step.fd], o) && GoodFd(s.fds[step.fd]) && step.Advance?
    requires s.fds[step.fd].sec.AddCount? || s.fds[step.fd].sec.AddCommit?
    ensures Apply(p, s, step).abort == Alive ==> Continues(s, Apply(p, s, step), step, o)
  {
    var t := Apply(p, s, step);
    assert t.queue[|s.queue|..] == [] && t.deleted - s.deleted == {};
    assert o.queued + [] == o.queued;
  }

  lemma DelStep(p: Policy, s: State, step: Step, o: Open)
    requires Enabled(p, s, step) && OpenOk(s.fds[step.fd], o) && GoodFd(s.fds[step.fd]) && step.Advance?
    requires s.fds[step.fd].sec.DelCount? || s.fds[step.fd].sec.DelCommit?
    requires forall ev, id | s.fds[step.fd].Ctx(ev).Holds(id) :: id !in s.deleted
    ensures Continues(s, Apply(p, s, step), step, o)
  {
    var t := Apply(p, s, step);
    assert t.queue[|s.queue|..] == [];
    assert o.queued + [] == o.queued;
    if s.fds[step.fd].sec.DelCommit? {
      var ev := s.fds[step.fd].sec.ev;
      assert GoodCtx(s.fds[step.fd], ev);
      assert t.deleted - s.deleted == {Holder(o.before, ev)[0]};
    } else {
      assert t.deleted - s.deleted == {};
    }
  }

  lemma TrigEffect(p: Policy, s: State, step: Step)
    requires Enabled(p, s, step) && step.Advance? && (s.fds[step.fd].sec.Trig? || s.fds[step.fd].sec.TrigCount?)
    ensures var t := Apply(p, s, step);
            && t.queue == s.queue && t.deleted == s.deleted
            && t.fds[step.fd] == AdvanceEffect(s.fds[step.fd], s.nextReg).rec
  {
  }

  lemma CountStep(r: Fd, o: Open, id: RegId)
    requires r.sec.TrigCount? && OpenOk(r, o)
    ensures OpenOk(AdvanceEffect(r, id).rec, o)
  {
    OpenAt(r, o, Trig(r.sec.todo));
  }

  /** What holds with an event counted holds before the next one. */
  lemma OpenAt(r: Fd, o: Open, sec: Section)
    requires r.sec.TrigCount? && sec == Trig(r.sec.todo) && OpenOk(r, o)
    ensures OpenOk(r.(sec := sec), o)
  {
    assert forall ev :: r.(sec := sec).Ctx(ev) == r.Ctx(ev);
  }

  /** The next event's bit is cleared, or the section closes. */
  lemma NextStep(r: Fd, o: Open, id: RegId)
    requires r.sec.Trig? && OpenOk(r, o) && GoodFd(r)
    ensures var e := AdvanceEffect(r, id);
            e.abort == Alive ==> if e.rec.sec.Free? then Kept(Closed(o, true, e.rec, id)) else OpenOk(e.rec, o)
  {
  }

  lemma TrigStep(p: Policy, s: State, step: Step, o: Open)
    requires Enabled(p, s, step) && OpenOk(s.fds[step.fd], o) && GoodFd(s.fds[step.fd]) && step.Advance?
    requires s.fds[step.fd].sec.Trig? || s.fds[step.fd].sec.TrigCount?
    ensures Apply(p, s, step).abort == Alive ==> Continues(s, Apply(p, s, step), step, o)
  {
    TrigEffect(p, s, step);
    NothingNew(s, Apply(p, s, step), o);
    if s.fds[step.fd].sec.Trig? {
      NextStep(s.fds[step.fd], o, s.nextReg);
    } else {
      CountStep(s.fds[step.fd], o, s.nextReg);
    }
  }

  /** What queueing the waiter of a cleared event does. */
  lemma QueueEffect(p: Policy, s: State, step: Step)
    requires Enabled(p, s, step) && GoodFd(s.fds[step.fd]) && step.Advance? && s.fds[step.fd].sec.TrigQueue?
    ensures var t := Apply(p, s, step);
            t.abort == Alive ==>
              && t.queue == s.queue + Holder(s.fds[step.fd], s.fds[step.fd].sec.ev) && t.deleted == s.deleted
              && t.fds[step.fd] == AdvanceEffect(s.fds[step.fd], s.nextReg).rec
  {
    assert GoodCtx(s.fds[step.fd], s.fds[step.fd].sec.ev);
  }

  /** The queue in the log grows as the queue does. */
  lemma QueueMore(s: State, t: State, o: Open, ids: seq<RegId>)
    requires t.queue == s.queue + ids && t.deleted == s.deleted
    ensures Extended(s, t, o) == o.(queued := o.queued + ids)
  {
    assert t.queue[|s.queue|..] == ids && o.deleted + {} == o.deleted;
  }

  /** An event whose waiter has been queued is done. */
  lemma QueueOpen(r: Fd, o: Open, id: RegId)
    requires r.sec.TrigQueue? && OpenOk(r, o) && GoodFd(r)
    ensures var e := AdvanceEffect(r, id);
            e.abort == Alive ==> e.rec.sec.TrigCount? && OpenOk(e.rec, o.(queued := o.queued + Holder(r, r.sec.ev)))
  {
    var ev := r.sec.ev;
    assert GoodCtx(r, ev) && Holder(r, ev) == Holder(o.before, ev);
  }

  lemma QueueStep(p: Policy, s: State, step: Step, o: Open)
    requires Enabled(p, s, step) && OpenOk(s.fds[step.fd], o) && GoodFd(s.fds[step.fd]) && step.Advance?
    requires s.fds[step.fd].sec.TrigQueue?
    ensures Apply(p, s, step).abort == Alive ==> Continues(s, Apply(p, s, step), step, o)
  {
    var r, t := s.fds[step.fd], Apply(p, s, step);
    QueueEffect(p, s, step);
    QueueOpen(r, o, s.nextReg);
    if t.abort == Alive {
      QueueMore(s, t, o, Holder(r, r.sec.ev));
    }
  }

  lemma InsideStep(p: Policy, s: State, step: Step, o: Open)
    requires Enabled(p, s, step) && Inv(s) && OpenOk(s.fds[step.fd], o)
    ensures Apply(p, s, step).abort == Alive ==> Continues(s, Apply(p, s, step), step, o)
  {
    var r := s.fds[step.fd];
    if !step.Ctl? && !step.Advance? {
      LocklessStep(p, s, step, o);
    } else if step.Ctl? {
      CtlStep(p, s, step, o);
    } else if r.sec.AddCount? || r.sec.AddCommit? {
      AddStep(p, s, step, o);
    } else if r.sec.DelCount? || r.sec.DelCommit? {
      forall ev, id | r.Ctx(ev).Holds(id) ensures id !in s.deleted {
        assert Held(s, step.fd, ev, id);
      }
      DelStep(p, s, step, o);
    } else if r.sec.TrigQueue? {
      QueueStep(p, s, step, o);
    } else {
      TrigStep(p, s, step, o);
    }
  }

  lemma OthersFrame(p: Policy, s: State, step: Step, fd: nat)
    requires Enabled(p, s, step) && fd < |s.fds| && fd != step.fd
    ensures |Apply(p, s, step).fds| == |s.fds| && Apply(p, s, step).fds[fd] == s.fds[fd]
  {
  }

  lemma LogOther(p: Policy, s: State, step: Step, log: Log, fd: nat)
    requires Enabled(p, s, step) && fd != step.fd && FdOk(s, log, fd)
    ensures FdOk(Apply(p, s, step), Record(p, s, step, log), fd)
  {
    if fd < |s.fds| {
      OthersFrame(p, s, step, fd);
    }
  }

  lemma LogFd(p: Policy, s: State, step: Step, log: Log, fd: nat)
    requires Enabled(p, s, step) && Inv(s) && LogOk(s, log) && Apply(p, s, step).abort == Alive
    ensures FdOk(Apply(p, s, step), Record(p, s, step, log), fd)
  {
    assert FdOk(s, log, fd);
    if fd != step.fd {
      LogOther(p, s, step, log, fd);
    } else if s.fds[fd].sec.Free? {
      OpenStep(p, s, step);
    } else {
      InsideStep(p, s, step, log.open[fd]);
    }
  }

  lemma LogStep(p: Policy, s: State, step: Step, log: Log)
    requires Enabled(p, s, step) && Inv(s) && LogOk(s, log)
    ensures LogOk(Apply(p, s, step), Record(p, s, step, log))
  {
    var t := Apply(p, s, step);
    if t.abort == Alive {
      forall fd: nat ensures FdOk(t, Record(p, s, step, log), fd) {
        LogFd(p, s, step, log, fd);
      }
      assert FdOk(s, log, step.fd);
      if !s.fds[step.fd].sec.Free? {
        InsideStep(p, s, step, log.open[step.fd]);
      }
    }
  }

  // ---------------------------------------------------------------------------
  // Main results
  // ---------------------------------------------------------------------------

  /** The states of a logged run. */
  ghost function States(tr: seq<Logged>): seq<State> { Seen((x: Logged) => x.s, tr) }

  lemma LoggedIsRun(p: Policy, tr: seq<Logged>)
    requires LoggedRun(p, tr)
    ensures IoManagerModel.Run(p, States(tr))
  {
    forall x, y | LoggedSteps(p)(x, y) ensures Steps(p)(x.s, y.s) {
      assert LoggedNext(p, x, y);
      assert Next(p, x.s, y.s);
    }
    SeenIsRun(LoggedInit, LoggedSteps(p), Init, Steps(p), (x: Logged) => x.s, tr);
  }

  /**
    In every run, every call does what it promises, from taking the mutex to releasing it. addEvent registers
    its caller for its event. delEvent deletes, and cancelEvent queues, exactly the registration held for the
    event asked for, and leaves the other event alone. cancelAll queues every registration; idle() exactly
    those whose event the report names, an error or hang-up naming all. A call whose epoll_ctl fails changes
    nothing.
   */
  lemma {:induction false} SectionsKept(p: Policy, tr: seq<Logged>)
    requires LoggedRun(p, tr)
    ensures LogOk(Last(tr).s, Last(tr).log)
  {
    if |tr| > 1 {
      var pre := tr[..|tr| - 1];
      SectionsKept(p, pre);
      var x, y := Last(pre), Last(tr);
      LoggedIsRun(p, pre);
      assert Last(States(pre)) == x.s;
      InvAlways(p, States(pre));
      assert LoggedNext(p, x, y);
      var step :| Enabled(p, x.s, step) && y == Logged(Apply(p, x.s, step), Record(p, x.s, step, x.log));
      LogStep(p, x.s, step, x.log);
    }
  }

  /** Every run can be logged. */
  lemma RunIsLogged(p: Policy, tr: seq<State>) returns (ltr: seq<Logged>)
    requires IoManagerModel.Run(p, tr)
    ensures LoggedRun(p, ltr) && States(ltr) == tr
  {
    forall s | Init(s) ensures exists x :: LoggedInit(x) && x.s == s {
      assert LoggedInit(Logged(s, EMPTY));
    }
    forall x: Logged, t | Steps(p)(x.s, t) ensures exists y :: LoggedSteps(p)(x, y) && y.s == t {
      assert Next(p, x.s, t);
      var step :| Enabled(p, x.s, step) && t == Apply(p, x.s, step);
      var y := Logged(t, Record(p, x.s, step, x.log));
      assert LoggedNext(p, x, y) && LoggedSteps(p)(x, y);
    }
    ltr := RunIsSeen(LoggedInit, LoggedSteps(p), Init, Steps(p), (x: Logged) => x.s, tr);
  }
}
