/**
  TimerManager: an ordered set of timers keyed by (deadline, address). A timer's key is a field of the
  timer itself, so the order survives only because keys change while their timer is out of the set.
  Timers are shared objects compared by address, so they live in an explicit heap: a map from addresses
  to their fields. Times are uint64_t milliseconds, and every addition wraps around.

  Ghost state records the history: what became of each timer, the largest clock sample, the front
  deadline that the last getNextTimer saw, and whether the run has been regular.
 */
module Timers {
  import opened Common

  const HOUR: nat := 3600000

  /** x + y and x - y in uint64_t. */
  function Plus(x: nat, y: nat): nat { if x + y < WORD then x + y else x + y - WORD }

  function Minus(x: nat, y: nat): nat
    requires y < WORD
  {
    if x >= y then x - y else x + WORD - y
  }

  /** Of uint64_t values, these are the sum and the difference modulo 2^64. */
  lemma WrapsAround(x: nat, y: nat)
    requires x < WORD && y < WORD
    ensures Plus(x, y) == (x + y) % WORD && Minus(x, y) == (x - y) % WORD
  {
    assert x - y < 0 ==> (x - y + WORD) % WORD == (x - y) % WORD;
  }

  /** The clock went back by more than an hour, as detectClockRollover computes it. */
  predicate Rollover(previous: nat, now: nat) { now < previous && now < Minus(previous, HOUR) }

  /** Within the first hour of the epoch the subtraction underflows, and any step back counts. */
  lemma RolloverMeans(previous: nat, now: nat)
    requires previous < WORD
    ensures Rollover(previous, now) <==> now < previous && (previous < HOUR || now + HOUR < previous)
  {
  }

  // ---------------------------------------------------------------------------
  // The ordered set
  // ---------------------------------------------------------------------------

  /** A std::function, by name; None is the null one. */
  type Callback = Option<nat>

  datatype Timer = Timer(recurring: bool, ms: nat, next: nat, cb: Callback)

  type Heap = map<nat, Timer>

  /** The order of the set: by deadline, ties by address. */
  predicate Less(n: nat, a: nat, n': nat, a': nat) { n < n' || (n == n' && a < a') }

  predicate Live(h: Heap, ts: seq<nat>) { forall i | 0 <= i < |ts| :: ts[i] in h }

  /** Each timer before the next. */
  predicate Sorted(h: Heap, ts: seq<nat>)
    requires Live(h, ts)
  {
    |ts| <= 1 || (Less(h[ts[0]].next, ts[0], h[ts[1]].next, ts[1]) && Sorted(h, ts[1..]))
  }

  /** The addresses in the set. */
  function Members(ts: seq<nat>): set<nat> { if ts == [] then {} else {ts[0]} + Members(ts[1..]) }

  /** std::set::insert. A key that is there already stays as it is. */
  function Insert(h: Heap, ts: seq<nat>, a: nat): seq<nat>
    requires Live(h, ts) && a in h
  {
    if ts == [] || Less(h[a].next, a, h[ts[0]].next, ts[0]) then [a] + ts
    else if ts[0] == a then ts
    else [ts[0]] + Insert(h, ts[1..], a)
  }

  /** std::set::erase of the k-th timer. */
  function Erase(ts: seq<nat>, k: nat): seq<nat>
    requires k < |ts|
  {
    if k == 0 then ts[1..] else [ts[0]] + Erase(ts[1..], k - 1)
  }

  /** std::set::find with the key (next, addr), by the order alone; |ts| is end(). */
  function Find(h: Heap, ts: seq<nat>, a: nat): (k: nat)
    requires Live(h, ts) && a in h
    ensures k <= |ts|
  {
    if ts == [] || Less(h[a].next, a, h[ts[0]].next, ts[0]) then |ts|
    else if Less(h[ts[0]].next, ts[0], h[a].next, a) then 1 + Find(h, ts[1..], a)
    else 0
  }

  lemma {:induction false} MembersAre(ts: seq<nat>)
    ensures forall a :: a in Members(ts) <==> a in ts
  {
    if ts != [] {
      MembersAre(ts[1..]);
    }
  }

  lemma {:induction false} MemberAt(ts: seq<nat>, k: nat)
    requires k < |ts|
    ensures ts[k] in Members(ts)
  {
    if k > 0 {
      MemberAt(ts[1..], k - 1);
    }
  }

  /** A timer at or before the front is not in the rest. */
  lemma {:induction false} FrontFirst(h: Heap, ts: seq<nat>, a: nat)
    requires Live(h, ts) && Sorted(h, ts) && a in h
    requires ts != [] ==> Less(h[a].next, a, h[ts[0]].next, ts[0])
    ensures a !in Members(ts)
  {
    if ts != [] {
      FrontFirst(h, ts[1..], a);
    }
  }

  lemma {:induction false} InsertKeeps(h: Heap, ts: seq<nat>, a: nat)
    requires Live(h, ts) && Sorted(h, ts) && a in h && a !in Members(ts)
    ensures var us := Insert(h, ts, a);
            && us != [] && Live(h, us) && Sorted(h, us) && Members(us) == Members(ts) + {a}
            && (us[0] == a || (ts != [] && us[0] == ts[0]))
  {
    if ts == [] || Less(h[a].next, a, h[ts[0]].next, ts[0]) {
      assert ([a] + ts)[1..] == ts;
    } else {
      InsertKeeps(h, ts[1..], a);
      var us := Insert(h, ts[1..], a);
      assert ([ts[0]] + us)[1..] == us;
    }
  }

  /** find() finds exactly the members. */
  lemma {:induction false} FindIff(h: Heap, ts: seq<nat>, a: nat)
    requires Live(h, ts) && Sorted(h, ts) && a in h
    ensures var k := Find(h, ts, a); if a in Members(ts) then k < |ts| && ts[k] == a else k == |ts|
  {
    if ts == [] || Less(h[a].next, a, h[ts[0]].next, ts[0]) {
      FrontFirst(h, ts, a);
    } else if Less(h[ts[0]].next, ts[0], h[a].next, a) {
      FindIff(h, ts[1..], a);
    }
  }

  lemma {:induction false} EraseKeeps(h: Heap, ts: seq<nat>, k: nat)
    requires Live(h, ts) && Sorted(h, ts) && k < |ts|
    ensures var us := Erase(ts, k);
            && Live(h, us) && Sorted(h, us) && Members(us) == Members(ts) - {ts[k]}
            && (us != [] ==> h[ts[0]].next <= h[us[0]].next)
  {
    FrontFirst(h, ts[1..], ts[0]);
    if k > 0 {
      EraseKeeps(h, ts[1..], k - 1);
      MemberAt(ts[1..], k - 1);
      var us := Erase(ts[1..], k - 1);
      assert ([ts[0]] + us)[1..] == us;
    }
  }

  /** The order depends on the members' deadlines only. */
  lemma {:induction false} SortedFrame(h: Heap, h': Heap, ts: seq<nat>)
    requires Live(h, ts) && Live(h', ts) && Sorted(h, ts)
    requires forall i | 0 <= i < |ts| :: h[ts[i]].next == h'[ts[i]].next
    ensures Sorted(h', ts)
  {
    if |ts| > 1 {
      SortedFrame(h, h', ts[1..]);
    }
  }

  // ---------------------------------------------------------------------------
  // The manager
  // ---------------------------------------------------------------------------

  /**
    What became of a timer: whether it was created with a callback, how often cancel() returned true, how
    often listExpiredCb handed it out.
   */
  datatype Fate = Fate(given: bool, cancels: nat, handouts: nat)

  /**
    The largest clock sample, the front deadline at the last getNextTimer (WORD if there was none), and
    whether so far no addition wrapped, no rollover was seen and no sample taken under the lock went back.
   */
  datatype History = History(clock: nat, seen: nat, regular: bool)

  /** A timer created with a callback is in the set exactly while its callback is set. */
  predicate Lifecycle(t: Timer, f: Fate, inSet: bool) { if f.given then inSet <==> t.cb.Some? else t.cb == None }

  /** Nothing has come of it while the callback is set, and then exactly one thing. */
  predicate Settled(t: Timer, f: Fate) {
    f.given ==> f.cancels + (if t.recurring then 0 else f.handouts) == if t.cb.Some? then 0 else 1
  }

  predicate Bounded(t: Timer, hist: History) {
    t.next < WORD && t.ms < WORD && (hist.regular ==> t.ms <= t.next <= hist.clock + t.ms)
  }

  predicate Healthy(t: Timer, f: Fate, inSet: bool, hist: History) {
    Lifecycle(t, f, inSet) && Settled(t, f) && (inSet ==> Bounded(t, hist))
  }

  predicate AllHealthy(h: Heap, fate: map<nat, Fate>, members: set<nat>, hist: History) {
    fate.Keys == h.Keys && forall a | a in h :: Healthy(h[a], fate[a], a in members, hist)
  }

  /** The history only grows: samples accumulate, and an irregular run stays irregular. */
  predicate Extends(hist: History, hist': History) { hist.clock <= hist'.clock && (hist'.regular ==> hist.regular) }

  /** A member's deadline and period may change, within bounds. */
  lemma RekeyHealthy(h: Heap, fate: map<nat, Fate>, members: set<nat>, hist: History, a: nat, ms: nat, next: nat,
      hist': History)
    requires AllHealthy(h, fate, members, hist) && a in h && Extends(hist, hist')
    requires Bounded(h[a].(ms := ms, next := next), hist')
    ensures AllHealthy(h[a := h[a].(ms := ms, next := next)], fate, members, hist')
  {
  }

  /** A new timer, within bounds, with its callback not yet used. */
  lemma AddHealthy(h: Heap, fate: map<nat, Fate>, members: set<nat>, hist: History, a: nat, t: Timer, hist': History)
    requires AllHealthy(h, fate, members, hist) && a !in h && Extends(hist, hist') && Bounded(t, hist')
    ensures AllHealthy(h[a := t], fate[a := Fate(t.cb.Some?, 0, 0)], members + {a}, hist')
  {
  }

  /** A deadline counted from start, which lies in the past, in a run that stays regular only if it does not wrap. */
  lemma StartBounded(t: Timer, start: nat, ms: nat, hist': History)
    requires start < WORD && ms < WORD && t.ms == ms && t.next == Plus(start, ms)
    requires hist'.regular ==> start <= hist'.clock && start + ms < WORD
    ensures Bounded(t, hist')
  {
  }

  /** No deadline earlier than the one last seen has gone unnoticed. */
  predicate Awake(h: Heap, ts: seq<nat>, tickled: bool, hist: History)
    requires Live(h, ts)
  {
    hist.regular && !tickled && ts != [] ==> h[ts[0]].next >= hist.seen
  }

  // ---------------------------------------------------------------------------
  // Expiry
  // ---------------------------------------------------------------------------

  /** How many timers at the front have a deadline of now or earlier. */
  function Due(h: Heap, ts: seq<nat>, now: nat): (k: nat)
    requires Live(h, ts)
    ensures k <= |ts|
  {
    if ts == [] || h[ts[0]].next > now then 0 else 1 + Due(h, ts[1..], now)
  }

  /** In a sorted set those are all of them. */
  lemma {:induction false} DueExact(h: Heap, ts: seq<nat>, now: nat)
    requires Live(h, ts) && Sorted(h, ts)
    ensures forall i | 0 <= i < |ts| :: h[ts[i]].next <= now <==> i < Due(h, ts, now)
    ensures forall i | 0 <= i < |ts| :: h[ts[0]].next <= h[ts[i]].next
  {
    if ts != [] {
      DueExact(h, ts[1..], now);
      assert forall i | 0 < i < |ts| :: ts[i] == ts[1..][i - 1];
    }
  }

  /** std::set::lower_bound of the probe (now, addr). */
  function LowerBound(h: Heap, ts: seq<nat>, now: nat, addr: nat): (k: nat)
    requires Live(h, ts)
    ensures k <= |ts|
  {
    if ts != [] && Less(h[ts[0]].next, ts[0], now, addr) then 1 + LowerBound(h, ts[1..], now, addr) else 0
  }

  /** The step over the timers whose deadline is exactly now. */
  function SkipNow(h: Heap, ts: seq<nat>, now: nat, k: nat): (r: nat)
    requires Live(h, ts) && k <= |ts|
    ensures k <= r <= |ts|
    decreases |ts| - k
  {
    if k < |ts| && h[ts[k]].next == now then SkipNow(h, ts, now, k + 1) else k
  }

  /** Wherever the address of the probe falls among equal deadlines, the scan ends after all of them. */
  lemma {:induction false} ScanExact(h: Heap, ts: seq<nat>, now: nat, addr: nat)
    requires Live(h, ts) && Sorted(h, ts)
    ensures SkipNow(h, ts, now, LowerBound(h, ts, now, addr)) == Due(h, ts, now)
  {
    if ts != [] && h[ts[0]].next <= now {
      ScanExact(h, ts[1..], now, addr);
      if Less(h[ts[0]].next, ts[0], now, addr) {
        SkipShift(h, ts, now, LowerBound(h, ts[1..], now, addr));
      } else {
        DueAfterEqual(h, ts[1..], now, addr);
        SkipShift(h, ts, now, 0);
      }
    }
  }

  lemma {:induction false} SkipShift(h: Heap, ts: seq<nat>, now: nat, k: nat)
    requires Live(h, ts) && k < |ts|
    ensures SkipNow(h, ts, now, k + 1) == 1 + SkipNow(h, ts[1..], now, k)
    decreases |ts| - k
  {
    if k + 1 < |ts| && h[ts[k + 1]].next == now {
      SkipShift(h, ts, now, k + 1);
    }
  }

  lemma DueAfterEqual(h: Heap, ts: seq<nat>, now: nat, addr: nat)
    requires Live(h, ts) && (ts != [] ==> !Less(h[ts[0]].next, ts[0], now, addr))
    ensures LowerBound(h, ts, now, addr) == 0
  {
  }

  /** What an expired timer becomes. */
  function Serve(t: Timer, now: nat): Timer {
    if t.recurring then t.(next := Plus(now, t.ms)) else t.(cb := None)
  }

  function HandedOut(f: Fate): Fate { f.(handouts := f.handouts + 1) }

  /** The history after serving t: irregular if its new deadline wraps. */
  function ServeHistory(hist: History, t: Timer, now: nat): History {
    hist.(regular := hist.regular && (t.recurring ==> now + t.ms < WORD))
  }

  /** Serving a timer that was in the set: a one-shot is settled, a recurring one goes on. */
  lemma ServeHealthy(h: Heap, fate: map<nat, Fate>, others: set<nat>, hist: History, a: nat, now: nat)
    requires a in h && a !in others && now < WORD && AllHealthy(h, fate, others + {a}, hist)
    requires hist.regular ==> now <= hist.clock
    ensures AllHealthy(h[a := Serve(h[a], now)], fate[a := HandedOut(fate[a])],
                       if h[a].recurring then others + {a} else others, ServeHistory(hist, h[a], now))
  {
    if h[a].recurring {
      StartBounded(Serve(h[a], now), now, h[a].ms, ServeHistory(hist, h[a], now));
    }
  }

  function Callbacks(h: Heap, ts: seq<nat>): (cbs: seq<Callback>)
    requires Live(h, ts)
    ensures |cbs| == |ts| && forall i | 0 <= i < |ts| :: cbs[i] == h[ts[i]].cb
  {
    if ts == [] then [] else [h[ts[0]].cb] + Callbacks(h, ts[1..])
  }

  /**
    A timer that was t has expired at now and become u: a recurring one keeps its callback and is due again
    after a period, in uint64_t; a one-shot has lost its callback.
   */
  predicate Expired(t: Timer, u: Timer, now: nat) {
    && u.recurring == t.recurring && u.ms == t.ms
    && (t.recurring ==> u.cb == t.cb && u.next == if now + t.ms < WORD then now + t.ms else now + t.ms - WORD)
    && (!t.recurring ==> u.cb == None && u.next == t.next)
  }

  /** A state of the manager, for comparing two of them. */
  datatype State = State(heap: Heap, members: set<nat>, fate: map<nat, Fate>, regular: bool)

  /**
    From s to t, exactly the timers in served were handed out: one-shots left the set, recurring ones are back
    in it.
   */
  ghost predicate Served(s: State, t: State, served: set<nat>, now: nat) {
    && s.heap.Keys == t.heap.Keys == s.fate.Keys == t.fate.Keys && served <= s.heap.Keys
    && (forall a | a in s.heap ::
          && (if a in served then Expired(s.heap[a], t.heap[a], now) else t.heap[a] == s.heap[a])
          && t.fate[a] == (if a in served then HandedOut(s.fate[a]) else s.fate[a])
          && (a in t.members <==> a in s.members || (a in served && s.heap[a].recurring)))
    && (t.regular <==> s.regular && forall a | a in served :: s.heap[a].recurring ==> now + s.heap[a].ms < WORD)
  }

  predicate Whole(s: State, ts: seq<nat>) { s.heap.Keys == s.fate.Keys && Live(s.heap, ts) }

  /** Handing out the timer a, which is out of the set. */
  function ServeOne(s: State, a: nat, now: nat): State
    requires a in s.heap && a in s.fate
  {
    var t := s.heap[a];
    State(s.heap[a := Serve(t, now)], if t.recurring then s.members + {a} else s.members,
          s.fate[a := HandedOut(s.fate[a])], s.regular && (t.recurring ==> now + t.ms < WORD))
  }

  /** Handing out the timers ts in turn: the state they leave, and their callbacks. */
  function ServeAll(s: State, ts: seq<nat>, now: nat): (State, seq<Callback>)
    requires Whole(s, ts)
    decreases |ts|
  {
    if ts == [] then (s, [])
    else
      var (t, cbs) := ServeAll(ServeOne(s, ts[0], now), ts[1..], now);
      (t, [s.heap[ts[0]].cb] + cbs)
  }

  lemma ServedMore(s: State, t: State, u: State, a: nat, rest: set<nat>, now: nat)
    requires a in s.heap && a in s.fate && a !in rest && t == ServeOne(s, a, now) && Served(t, u, rest, now)
    ensures Served(s, u, {a} + rest, now)
  {
  }

  lemma ServedNothing(s: State, now: nat)
    requires s.heap.Keys == s.fate.Keys
    ensures Served(s, s, {}, now)
  {
  }

  /** Handing out in turn is handing out the set, with every callback taken as it was before. */
  lemma {:induction false} ServeAllExact(s: State, ts: seq<nat>, now: nat)
    requires Whole(s, ts) && NoRepeat(ts)
    ensures Served(s, ServeAll(s, ts, now).0, Members(ts), now)
    ensures ServeAll(s, ts, now).1 == Callbacks(s.heap, ts)
    decreases |ts|
  {
    if ts != [] {
      var t := ServeOne(s, ts[0], now);
      ServeAllExact(t, ts[1..], now);
      ServedMore(s, t, ServeAll(t, ts[1..], now).0, ts[0], Members(ts[1..]), now);
      CallbacksFrame(s.heap, t.heap, ts[1..], ts[0]);
    }
  }

  lemma CallbacksFrame(h: Heap, h': Heap, ts: seq<nat>, a: nat)
    requires Live(h, ts) && Live(h', ts) && a !in Members(ts) && forall b | b in h && b != a :: b in h' && h'[b] == h[b]
    ensures Callbacks(h, ts) == Callbacks(h', ts)
  {
    MembersAre(ts);
  }

  predicate NoRepeat(ts: seq<nat>) { ts == [] || (ts[0] !in Members(ts[1..]) && NoRepeat(ts[1..])) }

  /** Splitting a sorted set: the two parts are sorted and disjoint. */
  lemma {:induction false} SplitKeeps(h: Heap, ts: seq<nat>, k: nat)
    requires Live(h, ts) && Sorted(h, ts) && k <= |ts|
    ensures Live(h, ts[..k]) && Live(h, ts[k..]) && Sorted(h, ts[k..])
    ensures Members(ts) == Members(ts[..k]) + Members(ts[k..]) && Members(ts[..k]) !! Members(ts[k..])
    ensures NoRepeat(ts[..k])
  {
    if k == 0 {
      assert ts[..k] == [] && ts[k..] == ts;
    } else {
      SplitKeeps(h, ts[1..], k - 1);
      FrontFirst(h, ts[1..], ts[0]);
      assert ts[..k][1..] == ts[1..][..k - 1] && ts[k..] == ts[1..][k - 1..];
    }
  }

  // ---------------------------------------------------------------------------
  // The idle wait
  // ---------------------------------------------------------------------------

  const MAX_TIMEOUT := 3000

  /** What idle makes of next_timeout, in uint64_t, before each epoll_wait. */
  function Clamp(next: nat): nat { if next == WORD - 1 || ToInt(next) > MAX_TIMEOUT then MAX_TIMEOUT else next }

  /** The timeout it passes on, from what getNextTimer said. A negative one means forever. */
  function EpollTimeout(left: nat): int { ToInt(Clamp(left)) }

  /**
    The wait stays within three seconds and within the time left exactly if the cast to int does not come out
    negative.
   */
  lemma EpollTimeoutIff(left: nat)
    requires left < WORD
    ensures 0 <= EpollTimeout(left) <= MAX_TIMEOUT && EpollTimeout(left) <= left
            <==> left == WORD - 1 || left % 0x1_0000_0000 < 0x8000_0000
    ensures left == WORD - 1 ==> EpollTimeout(left) == MAX_TIMEOUT
    ensures left < WORD - 1 ==>
              var cut := left % 0x1_0000_0000;
              if cut < 0x8000_0000 then EpollTimeout(left) == Min(cut, MAX_TIMEOUT) else EpollTimeout(left) < 0
  {
  }

  function Sum(ns: seq<nat>): nat { if ns == [] then 0 else Sum(ns[..|ns| - 1]) + ns[|ns| - 1] }

  /** The times that calls of epoll_wait with timeout w may take. */
  predicate Within(ns: seq<nat>, w: int) { forall i | 0 <= i < |ns| :: w >= 0 ==> ns[i] <= w }

  /**
    The wait of idle(): an epoll_wait that a signal interrupts is called again, with the full timeout. times
    is how long each call takes, the last being the one that is not interrupted. Every call gets the
    timeout of the first, and together they take at most that many timeouts.
   */
  method WaitLoop(left: nat, times: seq<nat>) returns (timeout: int, total: nat)
    requires left < WORD && times != [] && Within(times, EpollTimeout(left))
    ensures timeout == EpollTimeout(left) && total == Sum(times)
    ensures timeout >= 0 ==> total <= |times| * timeout
  {
    var next, i := Clamp(left), 1;
    timeout, total := ToInt(next), times[0];
    assert times[..1] == [times[0]];
    while i < |times|
      invariant 1 <= i <= |times| && Clamp(next) == next && timeout == ToInt(next) == EpollTimeout(left)
      invariant total == Sum(times[..i])
    {
      next := Clamp(next);
      timeout, total := ToInt(next), total + times[i];
      assert times[..i + 1][..i] == times[..i];
      i := i + 1;
    }
    assert times[..|times|] == times;
    if timeout >= 0 {
      SumBound(times, timeout);
    }
  }

  lemma {:induction false} SumBound(ns: seq<nat>, w: nat)
    requires Within(ns, w)
    ensures Sum(ns) <= |ns| * w
  {
    if ns != [] {
      SumBound(ns[..|ns| - 1], w);
      assert |ns| * w == (|ns| - 1) * w + w;
    }
  }

  /** n calls, all as long as they may be. */
  function Full(n: nat, w: nat): (ns: seq<nat>)
    ensures |ns| == n && Within(ns, w)
  {
    seq(n, _ => w)
  }

  /**
    However the calls go, n of them stay within the one timeout if and only if none is interrupted (or the
    timeout is zero). Already one interruption can take the wait to twice as long, past the deadline.
   */
  lemma UninterruptedIff(n: nat, w: nat)
    requires n > 0
    ensures (forall ns: seq<nat> | |ns| == n && Within(ns, w) :: Sum(ns) <= w) <==> n == 1 || w == 0
  {
    if n == 1 || w == 0 {
      forall ns: seq<nat> | |ns| == n && Within(ns, w) ensures Sum(ns) <= w {
        SumBound(ns, w);
      }
    } else {
      FullSum(n, w);
      assert Sum(Full(n, w)) > w;
    }
  }

  lemma {:induction false} FullSum(n: nat, w: nat)
    ensures n > 0 ==> Sum(Full(n, w)) >= w
    ensures n > 1 ==> Sum(Full(n, w)) >= 2 * w
  {
    if n > 0 {
      FullSum(n - 1, w);
      assert Full(n, w)[..n - 1] == Full(n - 1, w);
    }
  }

  /** One second to the deadline, and a signal just before it: the wait ends 999 ms late. */
  lemma InterruptedRun()
    ensures EpollTimeout(1000) == 1000 && Within([999, 1000], 1000) && Sum([999, 1000]) == 1999
  {
    assert [999, 1000][..1] == [999] && [999][..0] == [];
    assert Sum([999]) == 999;
  }

  /** What a caller may do. */
  datatype Op =
    | Add(addr: nat, ms: nat, cb: Callback, recurring: bool, now: nat)
    | CancelIt(addr: nat)
    | RefreshIt(addr: nat, now: nat)
    | ResetIt(addr: nat, ms: nat, fromNow: bool, now: nat)
    | Next(now: nat)
    | Expire(now: nat, probe: nat)

  /** Times and periods are uint64_t, and an address is allocated once. */
  predicate Callable(op: Op, live: set<nat>) {
    match op
    case Add(a, ms, _, _, now) => a !in live && ms < WORD && now < WORD
    case CancelIt(a) => a in live
    case RefreshIt(a, now) => a in live && now < WORD
    case ResetIt(a, ms, _, now) => a in live && ms < WORD && now < WORD
    case Next(now) => now < WORD
    case Expire(now, _) => now < WORD
  }

  /** No timer is forgotten, and what has happened to it stays on record. */
  predicate Recorded(was: map<nat, Fate>, now: map<nat, Fate>) {
    forall a | a in was ::
      a in now && now[a].given == was[a].given && was[a].cancels <= now[a].cancels && was[a].handouts <= now[a].handouts
  }

  class TimerManager {
    var heap: Heap
    var timers: seq<nat>
    var tickled: bool
    var previous: nat
    ghost var fate: map<nat, Fate>
    ghost var hist: History

    ghost predicate Valid()
      reads this
    {
      && Live(heap, timers) && Sorted(heap, timers) && Awake(heap, timers, tickled, hist) && previous < WORD
      && AllHealthy(heap, fate, Members(timers), hist)
    }

    constructor (now: nat)
      requires now < WORD
      ensures Valid() && heap == map[] && timers == [] && !tickled && previous == now
      ensures hist == History(now, WORD, true)
    {
      heap, timers, tickled, previous := map[], [], false, now;
      fate, hist := map[], History(now, WORD, true);
    }

    /** Insert a timer whose deadline the last getNextTimer need not have seen. */
    method Link(a: nat)
      requires a in heap && Live(heap, timers) && Sorted(heap, timers) && a !in Members(timers)
          && Awake(heap, timers, tickled, hist)
      requires hist.regular && !tickled ==> heap[a].next >= hist.seen
      modifies this`timers
      ensures Live(heap, timers) && Sorted(heap, timers) && Members(timers) == old(Members(timers)) + {a}
      ensures Awake(heap, timers, tickled, hist)
    {
      InsertKeeps(heap, timers, a);
      timers := Insert(heap, timers, a);
    }

    /** The inner addTimer: insert, and ask for a wake-up if the timer is the new front and none is pending. */
    method Place(a: nat) returns (atFront: bool)
      requires a in heap && Live(heap, timers) && Sorted(heap, timers) && a !in Members(timers)
          && Awake(heap, timers, tickled, hist)
      modifies this`timers, this`tickled
      ensures timers == Insert(heap, old(timers), a) && timers != []
      ensures Live(heap, timers) && Sorted(heap, timers) && Members(timers) == old(Members(timers)) + {a}
      ensures atFront == (timers[0] == a && !old(tickled)) && tickled == (old(tickled) || atFront)
      ensures Awake(heap, timers, tickled, hist)
    {
      InsertKeeps(heap, timers, a);
      timers := Insert(heap, timers, a);
      atFront := timers[0] == a && !tickled;
      if atFront {
        tickled := true;
      }
    }

    /** addTimer: a new timer, at an address no live timer has. */
    method AddTimer(a: nat, ms: nat, cb: Callback, recurring: bool, now: nat) returns (atFront: bool)
      requires Valid() && ms < WORD && now < WORD && a !in heap
      modifies this`heap, this`timers, this`tickled, this`fate, this`hist
      ensures Valid() && heap == old(heap)[a := Timer(recurring, ms, Plus(now, ms), cb)]
      ensures timers == Insert(heap, old(timers), a) && timers != []
      ensures atFront == (timers[0] == a && !old(tickled)) && tickled == (old(tickled) || atFront)
      ensures fate == old(fate)[a := Fate(cb.Some?, 0, 0)]
      ensures hist == History(Max(old(hist).clock, now), old(hist).seen, old(hist).regular && now + ms < WORD)
    {
      MembersAre(timers);
      var t := Timer(recurring, ms, Plus(now, ms), cb);
      ghost var was, hist' := heap, History(Max(hist.clock, now), hist.seen, hist.regular && now + ms < WORD);
      StartBounded(t, now, ms, hist');
      AddHealthy(heap, fate, Members(timers), hist, a, t, hist');
      heap := heap[a := t];
      fate := fate[a := Fate(cb.Some?, 0, 0)];
      hist := hist';
      SortedFrame(was, heap, timers);
      atFront := Place(a);
    }

    /** cancel(): true exactly if the callback is still set, and then the timer is in the set to be erased. */
    method Cancel(a: nat) returns (ok: bool)
      requires Valid() && a in heap
      modifies this`heap, this`timers, this`fate
      ensures Valid() && ok == old(heap)[a].cb.Some?
      ensures heap == old(heap)[a := old(heap)[a].(cb := None)]
      ensures ok ==> a in old(Members(timers))
      ensures Members(timers) == old(Members(timers)) - if ok then {a} else {}
      ensures fate == old(fate)[a := old(fate)[a].(cancels := old(fate)[a].cancels + if ok then 1 else 0)]
    {
      if heap[a].cb == None {
        return false;
      }
      ghost var was := heap;
      heap := heap[a := heap[a].(cb := None)];
      fate := fate[a := fate[a].(cancels := fate[a].cancels + 1)];
      SortedFrame(was, heap, timers);
      FindIff(heap, timers, a);
      var k := Find(heap, timers, a);
      EraseKeeps(heap, timers, k);
      timers := Erase(timers, k);
      return true;
    }

    /** Erase the k-th timer of the set and give it a new period and deadline. */
    method Rekey(a: nat, k: nat, ms: nat, next: nat)
      requires a in heap && Live(heap, timers) && Sorted(heap, timers) && k < |timers| && timers[k] == a
      modifies this`heap, this`timers
      ensures heap == old(heap)[a := old(heap)[a].(ms := ms, next := next)]
      ensures Live(heap, timers) && Sorted(heap, timers) && Members(timers) == old(Members(timers)) - {a}
      ensures timers != [] ==> old(heap[timers[0]].next) <= heap[timers[0]].next
    {
      EraseKeeps(heap, timers, k);
      timers := Erase(timers, k);
      MembersAre(timers);
      ghost var was := heap;
      heap := heap[a := heap[a].(ms := ms, next := next)];
      SortedFrame(was, heap, timers);
    }

    /** refresh(): the deadline starts anew; the timer goes back into the set without asking for a wake-up. */
    method Refresh(a: nat, now: nat) returns (ok: bool)
      requires Valid() && a in heap && now < WORD
      modifies this`heap, this`timers, this`hist
      ensures Valid() && ok == heap[a].cb.Some? && Members(timers) == old(Members(timers))
      ensures heap == old(heap)[a := old(heap)[a].(next := if ok then Plus(now, heap[a].ms) else old(heap)[a].next)]
      ensures hist == if !ok then old(hist) else
                History(Max(old(hist).clock, now), old(hist).seen, old(hist).regular && old(hist).clock <= now
                    && now + heap[a].ms < WORD)
    {
      FindIff(heap, timers, a);
      var k := Find(heap, timers, a);
      if heap[a].cb == None || k == |timers| {
        return false;
      }
      var ms := heap[a].ms;
      ghost var hist' := History(Max(hist.clock, now), hist.seen, hist.regular && hist.clock <= now && now + ms < WORD);
      StartBounded(heap[a].(next := Plus(now, ms)), now, ms, hist');
      RekeyHealthy(heap, fate, Members(timers), hist, a, ms, Plus(now, ms), hist');
      Rekey(a, k, ms, Plus(now, ms));
      hist := hist';
      Link(a);
      return true;
    }

    /** The part of reset() behind its tests: the k-th timer starts over at start, with period ms. */
    method Restart(a: nat, k: nat, start: nat, ms: nat, ghost clock: nat) returns (atFront: bool)
      requires Valid() && a in heap && ms < WORD && start < WORD && k < |timers| && timers[k] == a
      requires clock >= hist.clock && (hist.regular ==> start <= clock)
      modifies this`heap, this`timers, this`tickled, this`hist
      ensures Valid() && Members(timers) == old(Members(timers))
      ensures heap == old(heap)[a := old(heap)[a].(ms := ms, next := Plus(start, ms))]
      ensures hist == History(clock, old(hist).seen, old(hist).regular && start + ms < WORD)
      ensures timers != [] && atFront == (timers[0] == a && !old(tickled)) && tickled == (old(tickled) || atFront)
    {
      ghost var hist' := History(clock, hist.seen, hist.regular && start + ms < WORD);
      StartBounded(heap[a].(ms := ms, next := Plus(start, ms)), start, ms, hist');
      RekeyHealthy(heap, fate, Members(timers), hist, a, ms, Plus(start, ms), hist');
      MemberAt(timers, k);
      Rekey(a, k, ms, Plus(start, ms));
      hist := hist';
      atFront := Place(a);
    }

    /** reset(): nothing at all, and true, for an unchanged period not counted from now. */
    method Reset(a: nat, ms: nat, fromNow: bool, now: nat) returns (ok: bool, atFront: bool)
      requires Valid() && a in heap && ms < WORD && now < WORD
      modifies this`heap, this`timers, this`tickled, this`hist
      ensures Valid() && Members(timers) == old(Members(timers))
      ensures var t := old(heap)[a];
              var moved := t.cb.Some? && (ms != t.ms || fromNow);
              && ok == (t.cb.Some? || (ms == t.ms && !fromNow))
              && (moved ==> t.ms < WORD)
              && heap == old(heap)[a := if !moved then t else
                   t.(ms := ms, next := Plus(if fromNow then now else Minus(t.next, t.ms), ms))]
              && atFront == (moved && timers != [] && timers[0] == a && !old(tickled))
                  && tickled == (old(tickled) || atFront)
              && hist == (if !moved then old(hist) else
                   var start := if fromNow then now else Minus(t.next, t.ms);
                   History(if fromNow then Max(old(hist).clock, now) else old(hist).clock, old(hist).seen,
                       old(hist).regular && start + ms < WORD))
    {
      if ms == heap[a].ms && !fromNow {
        return true, false;
      }
      FindIff(heap, timers, a);
      var k := Find(heap, timers, a);
      if heap[a].cb == None || k == |timers| {
        return false, false;
      }
      var start := if fromNow then now else Minus(heap[a].next, heap[a].ms);
      atFront := Restart(a, k, start, ms, if fromNow then Max(hist.clock, now) else hist.clock);
      return true, atFront;
    }

    /** getNextTimer(): the time left to the front deadline, ~0 if there is none; the wake-up flag is cleared. */
    method GetNextTimer(now: nat) returns (left: nat)
      requires Valid() && now < WORD
      modifies this`tickled, this`hist
      ensures Valid() && !tickled
      ensures hist == History(Max(old(hist).clock, now),
                              if timers == [] then WORD else heap[timers[0]].next, old(hist).regular)
      ensures left == if timers == [] then WORD - 1 else if now >= hist.seen then 0 else hist.seen - now
    {
      tickled := false;
      hist := History(Max(hist.clock, now), if timers == [] then WORD else heap[timers[0]].next, hist.regular);
      if timers == [] {
        return WORD - 1;
      }
      var next := heap[timers[0]].next;
      left := if now >= next then 0 else next - now;
    }

    /** One turn of the loop over the expired timers, which are out of the set; rest are those still to come. */
    method HandOut(a: nat, now: nat, ghost rest: set<nat>) returns (cb: Callback)
      requires a in heap && Live(heap, timers) && Sorted(heap, timers) && Awake(heap, timers, tickled, hist)
          && now < WORD
      requires a !in Members(timers) && a !in rest && AllHealthy(heap, fate, Members(timers) + rest + {a}, hist)
      requires hist.regular ==> now <= hist.clock && (!tickled ==> hist.seen <= now)
      modifies this`heap, this`timers, this`fate, this`hist
      ensures cb == old(heap)[a].cb && heap == old(heap)[a := Serve(old(heap)[a], now)]
      ensures Live(heap, timers) && Sorted(heap, timers) && Awake(heap, timers, tickled, hist)
      ensures Members(timers) == if heap[a].recurring then old(Members(timers)) + {a} else old(Members(timers))
      ensures AllHealthy(heap, fate, Members(timers) + rest, hist)
      ensures fate == old(fate)[a := HandedOut(old(fate)[a])] && hist == ServeHistory(old(hist), old(heap)[a], now)
    {
      ServeHealthy(heap, fate, Members(timers) + rest, hist, a, now);
      ghost var was, others := heap, Members(timers) + rest;
      MembersAre(timers);
      cb := heap[a].cb;
      fate := fate[a := HandedOut(fate[a])];
      hist := ServeHistory(hist, heap[a], now);
      heap := heap[a := Serve(heap[a], now)];
      SortedFrame(was, heap, timers);
      if heap[a].recurring {
        Link(a);
        assert Members(timers) + rest == others + {a};
      }
    }

    ghost function Now(): State
      reads this
    {
      State(heap, Members(timers), fate, hist.regular)
    }

    /** The timers todo are expired, out of the set and still to be handed out. */
    ghost predicate Handing(todo: seq<nat>, now: nat)
      reads this
    {
      && Live(heap, timers) && Sorted(heap, timers) && Awake(heap, timers, tickled, hist)
      && Live(heap, todo) && NoRepeat(todo) && Members(todo) !! Members(timers)
      && AllHealthy(heap, fate, Members(timers) + Members(todo), hist)
      && (hist.regular ==> now <= hist.clock && (!tickled ==> hist.seen <= now))
    }

    /** The next expired timer. */
    method HandNext(todo: seq<nat>, now: nat) returns (cb: Callback)
      requires Handing(todo, now) && now < WORD && todo != []
      modifies this`heap, this`timers, this`fate, this`hist
      ensures Handing(todo[1..], now) && cb == old(heap)[todo[0]].cb
      ensures Now() == ServeOne(old(Now()), todo[0], now)
      ensures hist == old(hist).(regular := hist.regular)
    {
      var a := todo[0];
      assert Members(timers) + Members(todo) == Members(timers) + Members(todo[1..]) + {a};
      cb := HandOut(a, now, Members(todo[1..]));
    }

    /** The loop over the expired timers. */
    method HandOutAll(expired: seq<nat>, now: nat) returns (cbs: seq<Callback>)
      requires Handing(expired, now) && now < WORD
      modifies this`heap, this`timers, this`fate, this`hist
      ensures Handing([], now) && Now() == ServeAll(old(Now()), expired, now).0
      ensures cbs == ServeAll(old(Now()), expired, now).1
      ensures hist == old(hist).(regular := hist.regular)
    {
      cbs := [];
      var todo := expired;
      while todo != []
        invariant Handing(todo, now)
        invariant ServeAll(Now(), todo, now).0 == ServeAll(old(Now()), expired, now).0
        invariant cbs + ServeAll(Now(), todo, now).1 == ServeAll(old(Now()), expired, now).1
        invariant hist == old(hist).(regular := hist.regular)
        decreases |todo|
      {
        var cb := HandNext(todo, now);
        cbs := cbs + [cb];
        todo := todo[1..];
      }
    }

    /** The scan of listExpiredCb: how many timers have expired. */
    method Scan(now: nat, probe: nat, rollover: bool) returns (k: nat)
      requires Live(heap, timers) && Sorted(heap, timers)
      ensures k == if rollover then |timers| else Due(heap, timers, now)
    {
      k := if rollover then |timers| else LowerBound(heap, timers, now, probe);
      ghost var from := k;
      while k < |timers| && heap[timers[k]].next == now
        invariant k <= |timers| && SkipNow(heap, timers, now, k) == SkipNow(heap, timers, now, from)
      {
        k := k + 1;
      }
      ScanExact(heap, timers, now, probe);
    }

    /** Taking the first k timers out of the set: from here on they are to be handed out. */
    method Cut(k: nat, now: nat, rollover: bool) returns (expired: seq<nat>)
      requires Valid() && timers != [] && k <= |timers| && now < WORD
      requires !rollover ==> heap[timers[0]].next <= now
      modifies this`timers, this`hist
      ensures expired == old(timers)[..k] && timers == old(timers)[k..] && Handing(expired, now)
      ensures hist == History(Max(old(hist).clock, now), old(hist).seen, old(hist).regular && !rollover)
    {
      SplitKeeps(heap, timers, k);
      DueExact(heap, timers, now);
      expired := timers[..k];
      timers := timers[k..];
      hist := History(Max(hist.clock, now), hist.seen, hist.regular && !rollover);
    }

    /** How many timers listExpiredCb hands out at now: all of them on rollover, else those due. */
    ghost function Expiring(now: nat): (k: nat)
      requires Live(heap, timers)
      reads this
      ensures k <= |timers|
    {
      if Rollover(previous, now) then |timers| else Due(heap, timers, now)
    }

    /** The state in which the first k timers are out of the set. */
    ghost function Without(k: nat, rollover: bool): State
      requires k <= |timers|
      reads this
    {
      State(heap, Members(timers[k..]), fate, hist.regular && !rollover)
    }

    /** The first k timers leave the set and are handed out. */
    method Deliver(k: nat, now: nat, rollover: bool) returns (cbs: seq<Callback>)
      requires Valid() && timers != [] && k <= |timers| && now < WORD
      requires !rollover ==> heap[timers[0]].next <= now
      modifies this`heap, this`timers, this`fate, this`hist
      ensures Valid() && cbs == Callbacks(old(heap), old(timers)[..k])
      ensures Served(old(Without(k, rollover)), Now(), Members(old(timers)[..k]), now)
      ensures hist.seen == old(hist).seen && hist.clock == Max(old(hist).clock, now)
    {
      var expired := Cut(k, now, rollover);
      ServeAllExact(Now(), expired, now);
      cbs := HandOutAll(expired, now);
    }

    /**
      listExpiredCb: it hands out, in deadline order, exactly the callbacks due at now, or all of them on
      rollover, wherever the probe's address falls among equal deadlines. One-shots leave the set,
      recurring timers are back in it with deadline now + period, nothing else changes.
     */
    method ListExpired(now: nat, probe: nat) returns (cbs: seq<Callback>)
      requires Valid() && now < WORD
      modifies this`heap, this`timers, this`previous, this`fate, this`hist
      ensures Valid() && previous == (if old(timers) == [] then old(previous) else now)
      ensures hist.seen == old(hist).seen && old(hist).clock <= hist.clock <= Max(old(hist).clock, now)
      ensures var k := old(Expiring(now)); cbs == Callbacks(old(heap), old(timers)[..k])
      ensures var k := old(Expiring(now));
              Served(old(Without(Expiring(now), timers != [] && Rollover(previous, now))), Now(),
                     Members(old(timers)[..k]), now)
    {
      ghost var was := Now();
      ServedNothing(was, now);
      if timers == [] {
        return [];
      }
      var rollover := Rollover(previous, now);
      if !rollover && heap[timers[0]].next > now {
        previous := now;
        assert old(timers)[0..] == old(timers);
        return [];
      }
      var k := Scan(now, probe, rollover);
      previous := now;
      cbs := Deliver(k, now, rollover);
    }

    /** In a regular run, a deadline earlier than the one last seen is always announced by the wake-up flag. */
    lemma NoMissedDeadline()
      requires Valid() && hist.regular && !tickled
      ensures forall i | 0 <= i < |timers| :: heap[timers[i]].next >= hist.seen
    {
      DueExact(heap, timers, 0);
    }

    /**
      How long idle waits, for calls that take times. With every deadline less than 2^31 ms away, no single
      epoll_wait gets a timeout past the first deadline or three seconds; and the whole wait stays within
      both if it is not interrupted.
     */
    method IdleWait(now: nat, times: seq<nat>) returns (timeout: int, total: nat)
      requires Valid() && now < WORD && times != []
      requires var left := if timers == [] then WORD - 1 else if now >= heap[timers[0]].next then 0
          else heap[timers[0]].next - now;
               Within(times, EpollTimeout(left))
      modifies this`tickled, this`hist
      ensures Valid() && !tickled && total == Sum(times)
      ensures timers == [] ==> timeout == MAX_TIMEOUT
      ensures (forall i | 0 <= i < |timers| :: heap[timers[i]].next < now + 0x8000_0000) ==>
                && 0 <= timeout <= MAX_TIMEOUT
                && (forall i | 0 <= i < |timers| :: now + timeout <= Max(now, heap[timers[i]].next))
                && total <= |times| * timeout
    {
      var left := GetNextTimer(now);
      DueExact(heap, timers, now);
      EpollTimeoutIff(left);
      timeout, total := WaitLoop(left, times);
    }

    /**
      For each timer created with a callback: find() never misses in cancel(), and of a one-shot at most
      one of "cancel returned true" and "callback handed out" has ever happened, and at most once.
     */
    lemma OneOutcome(a: nat)
      requires Valid() && a in heap && fate[a].given
      ensures heap[a].cb.Some? ==> Find(heap, timers, a) < |timers| && timers[Find(heap, timers, a)] == a
      ensures heap[a].cb == None ==> Find(heap, timers, a) == |timers|
      ensures fate[a].cancels <= 1
      ensures !heap[a].recurring ==> fate[a].cancels + fate[a].handouts <= 1
    {
      FindIff(heap, timers, a);
    }

    method Step(op: Op)
      requires Valid() && Callable(op, heap.Keys)
      modifies this
      ensures Valid() && Recorded(old(fate), fate)
    {
      match op {
        case Add(a, ms, cb, recurring, now) => var front := AddTimer(a, ms, cb, recurring, now);
        case CancelIt(a) => var ok := Cancel(a);
        case RefreshIt(a, now) => var ok := Refresh(a, now);
        case ResetIt(a, ms, fromNow, now) => var ok, front := Reset(a, ms, fromNow, now);
        case Next(now) => var left := GetNextTimer(now);
        case Expire(now, probe) => var cbs := ListExpired(now, probe);
      }
    }

    /** Any run: calls that cannot be made are passed over. In every state it reaches, Valid holds. */
    method Run(ops: seq<Op>)
      requires Valid()
      modifies this
      ensures Valid() && Recorded(old(fate), fate)
    {
      for i := 0 to |ops|
        invariant Valid() && Recorded(old(fate), fate)
      {
        if Callable(ops[i], heap.Keys) {
          Step(ops[i]);
        }
      }
    }
  }
}
