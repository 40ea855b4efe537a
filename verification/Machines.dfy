/** Abstract machines: a step function, runs of any length, and simulation of one machine by another. */
module Machines {
  datatype Outcome<S, R> = Running(state: S) | Returned(result: R) | Stuck

  function Run<S, R>(step: S -> Outcome<S, R>, s: S, n: nat): Outcome<S, R>
    decreases n
  {
    if n == 0 then Running(s)
    else match step(s)
      case Running(t) => Run(step, t, n - 1)
      case done => done
  }

  lemma {:induction false} RunCompose<S, R>(step: S -> Outcome<S, R>, s: S, a: nat, b: nat)
    requires Run(step, s, a).Running?
    ensures Run(step, s, a + b) == Run(step, Run(step, s, a).state, b)
    decreases a
  {
    if a > 0 { RunCompose(step, step(s).state, a - 1, b); }
  }

  lemma RunOne<S, R>(step: S -> Outcome<S, R>, s: S)
    ensures Run(step, s, 1) == step(s)
  {
    if step(s).Running? { assert Run(step, step(s).state, 0) == step(s); }
  }

  /** The first step of a run that returns. */
  lemma FirstStep<S, R>(step: S -> Outcome<S, R>, s: S, n: nat)
    requires Run(step, s, n).Returned?
    ensures n > 0 && step(s) != Stuck
    ensures Run(step, s, n) == if step(s).Running? then Run(step, step(s).state, n - 1) else step(s)
  {
  }

  /** The step from state i of the trace, if there is one, leads to state i + 1. */
  ghost predicate LeadsOn<S(!new), R(!new)>(step: S -> Outcome<S, R>, trace: seq<S>, i: nat)
    requires i + 1 < |trace|
  {
    step(trace[i]) == Stuck || step(trace[i]) == Running(trace[i + 1])
  }

  /** A run that returns, and whose states can only be those of the trace, gets to each of them unstuck. */
  lemma {:induction false} FollowsTrace<S(!new), R(!new)>(step: S -> Outcome<S, R>, trace: seq<S>, j: nat, n: nat)
    requires forall i {:trigger LeadsOn(step, trace, i)} :: 0 <= i < |trace| - 1 ==> LeadsOn(step, trace, i)
    requires j < |trace| && Run(step, trace[0], n).Returned?
    ensures step(trace[j]) != Stuck
    ensures j < n && Run(step, trace[j], n - j) == Run(step, trace[0], n)
    decreases j
  {
    if j > 0 {
      FollowsTrace(step, trace, j - 1, n);
      assert LeadsOn(step, trace, j - 1);
    }
    FirstStep(step, trace[j], n - j);
  }

  ghost predicate Reaches<S(!new), R>(step: S -> Outcome<S, R>, s: S, t: S) {
    exists c: nat :: Run(step, s, c) == Running(t)
  }

  ghost predicate Ends<S(!new), R>(step: S -> Outcome<S, R>, s: S, r: R) {
    exists c: nat :: Run(step, s, c) == Returned(r)
  }

  lemma ReachesSelf<S(!new), R>(step: S -> Outcome<S, R>, s: S)
    ensures Reaches(step, s, s)
  {
    assert Run(step, s, 0) == Running(s);
  }

  lemma ReachesThen<S(!new), R>(step: S -> Outcome<S, R>, s: S, t: S)
    requires Reaches(step, s, t)
    ensures match step(t) case Running(u) => Reaches(step, s, u) case Returned(r) => Ends(step, s, r) case Stuck => true
  {
    var c: nat :| Run(step, s, c) == Running(t);
    RunCompose(step, s, c, 1);
    RunOne(step, t);
  }

  ghost predicate Link<S(!new), R(!new)>(step: S -> Outcome<S, R>, trace: seq<S>, i: nat)
    requires i + 1 < |trace|
  {
    step(trace[i]) == Running(trace[i + 1])
  }

  /** A linked trace is a run. */
  lemma {:induction false} LinksReach<S(!new), R(!new)>(step: S -> Outcome<S, R>, trace: seq<S>, j: nat)
    requires j < |trace| && forall i {:trigger Link(step, trace, i)} :: 0 <= i < |trace| - 1 ==> Link(step, trace, i)
    ensures Reaches(step, trace[0], trace[j])
    decreases j
  {
    if j == 0 {
      ReachesSelf(step, trace[0]);
    } else {
      LinksReach(step, trace, j - 1);
      assert Link(step, trace, j - 1);
      ReachesThen(step, trace[0], trace[j - 1]);
    }
  }

  /** What the first machine does in one step, the second does in some number of steps, and they stay related. */
  ghost predicate Matches<S(!new), R(!new), T(!new), Q(!new)>(
    a: S -> Outcome<S, R>, b: T -> Outcome<T, Q>, rel: (S, T) -> bool, fin: (R, Q) -> bool, s: S, t: T)
  {
    match a(s)
    case Running(s') => exists t' :: Reaches(b, t, t') && rel(s', t')
    case Returned(r) => exists q :: Ends(b, t, q) && fin(r, q)
    case Stuck => true
  }

  /** Then whatever the first returns after any number of steps, the second returns. */
  lemma {:induction false} Simulates<S(!new), R(!new), T(!new), Q(!new)>(
    a: S -> Outcome<S, R>, b: T -> Outcome<T, Q>, rel: (S, T) -> bool, fin: (R, Q) -> bool, s: S, t: T, n: nat)
        returns (q: Q)
    requires forall x, y :: rel(x, y) ==> Matches(a, b, rel, fin, x, y)
    requires rel(s, t) && Run(a, s, n).Returned?
    ensures Ends(b, t, q) && fin(Run(a, s, n).result, q)
    decreases n
  {
    assert Matches(a, b, rel, fin, s, t);
    match a(s)
    case Running(s') =>
      var t' :| Reaches(b, t, t') && rel(s', t');
      q := Simulates(a, b, rel, fin, s', t', n - 1);
      var c: nat :| Run(b, t, c) == Running(t');
      var d: nat :| Run(b, t', d) == Returned(q);
      RunCompose(b, t, c, d);
    case Returned(r) =>
      q :| Ends(b, t, q) && fin(r, q);
  }
}
