/** Finite runs of a transition system, and which states they reach. */
module Runs {

  /** An initial state, then steps. */
  ghost predicate Run<S(!new)>(init: S -> bool, next: (S, S) -> bool, tr: seq<S>)
    decreases |tr|
  {
    && |tr| > 0
    && if |tr| == 1 then init(tr[0])
       else Run(init, next, tr[..|tr| - 1]) && next(tr[|tr| - 2], tr[|tr| - 1])
  }

  function Last<S>(tr: seq<S>): S
    requires |tr| > 0
  {
    tr[|tr| - 1]
  }

  /** R holds initially and is kept by every step. */
  ghost predicate Covers<S(!new)>(init: S -> bool, next: (S, S) -> bool, R: S -> bool) {
    && (forall s | init(s) :: R(s))
    && (forall s, t | R(s) && next(s, t) :: R(t))
  }

  ghost predicate Reachable<S(!new)>(init: S -> bool, next: (S, S) -> bool, s: S) {
    exists tr :: Run(init, next, tr) && Last(tr) == s
  }

  /** The reachable states. */
  ghost function Reached<S(!new)>(init: S -> bool, next: (S, S) -> bool): S -> bool { s => Reachable(init, next, s) }

  lemma ReachedCovers<S(!new)>(init: S -> bool, next: (S, S) -> bool)
    ensures Covers(init, next, Reached(init, next))
  {
    forall s | init(s) ensures Reachable(init, next, s) {
      assert Run(init, next, [s]) && Last([s]) == s;
    }
    forall s, t | Reachable(init, next, s) && next(s, t) ensures Reachable(init, next, t) {
      var tr :| Run(init, next, tr) && Last(tr) == s;
      var tr' := tr + [t];
      assert tr'[..|tr|] == tr;
      assert Run(init, next, tr') && Last(tr') == t;
    }
  }

  /** A run seen through f. */
  ghost function Seen<X(!new), S(!new)>(f: X -> S, tr: seq<X>): (ss: seq<S>)
    ensures |ss| == |tr| && forall i | 0 <= i < |tr| :: ss[i] == f(tr[i])
  {
    seq(|tr|, i requires 0 <= i < |tr| => f(tr[i]))
  }

  /** If f takes initial states to initial states and steps to steps, it takes runs to runs. */
  lemma {:induction false} SeenIsRun<X(!new), S(!new)>(
    init: X -> bool, next: (X, X) -> bool, init': S -> bool, next': (S, S) -> bool, f: X -> S, tr: seq<X>)
    requires Run(init, next, tr)
    requires forall x | init(x) :: init'(f(x))
    requires forall x, y | next(x, y) :: next'(f(x), f(y))
    ensures Run(init', next', Seen(f, tr))
    decreases |tr|
  {
    if |tr| > 1 {
      SeenIsRun(init, next, init', next', f, tr[..|tr| - 1]);
      assert Seen(f, tr)[..|tr| - 1] == Seen(f, tr[..|tr| - 1]);
    }
  }

  lemma SeenMore<X(!new), S(!new)>(f: X -> S, tr: seq<X>, y: X)
    ensures Seen(f, tr + [y]) == Seen(f, tr) + [f(y)]
  {
  }

  /** If f reaches every initial state, and every step from what it reaches, every run is seen through it. */
  lemma {:induction false} RunIsSeen<X(!new), S(!new)>(
    init: X -> bool, next: (X, X) -> bool, init': S -> bool, next': (S, S) -> bool, f: X -> S, ss: seq<S>)
    returns (tr: seq<X>)
    requires Run(init', next', ss)
    requires forall s | init'(s) :: exists x :: init(x) && f(x) == s
    requires forall x, t | next'(f(x), t) :: exists y :: next(x, y) && f(y) == t
    ensures Run(init, next, tr) && Seen(f, tr) == ss
    decreases |ss|
  {
    if |ss| == 1 {
      var x :| init(x) && f(x) == ss[0];
      tr := [x];
      assert Seen(f, tr) == [f(x)] == ss;
    } else {
      var pre := ss[..|ss| - 1];
      var tr0 := RunIsSeen(init, next, init', next', f, pre);
      assert f(Last(tr0)) == pre[|pre| - 1];
      var y :| next(Last(tr0), y) && f(y) == Last(ss);
      tr := tr0 + [y];
      assert tr[..|tr0|] == tr0;
      SeenMore(f, tr0, y);
      assert ss == pre + [Last(ss)];
    }
  }
}
