/** Reachability along a step relation, and the invariant of a worklist that computes it. */
module Reachability {
  type Step = (nat, nat) -> bool

  ghost predicate IsPath(step: Step, p: seq<nat>) {
    forall i :: 0 <= i < |p| - 1 ==> step(p[i], p[i + 1])
  }

  /** x lies at the end of a path that starts in a root. */
  ghost predicate Reached(step: Step, roots: set<nat>, x: nat) {
    exists p :: LeadsTo(step, roots, p, x)
  }

  ghost predicate LeadsTo(step: Step, roots: set<nat>, p: seq<nat>, x: nat) {
    |p| > 0 && p[0] in roots && p[|p| - 1] == x && IsPath(step, p)
  }

  lemma ReachedRoot(step: Step, roots: set<nat>, x: nat)
    requires x in roots
    ensures Reached(step, roots, x)
  {
    assert LeadsTo(step, roots, [x], x);
  }

  lemma ReachedStep(step: Step, roots: set<nat>, x: nat, y: nat)
    requires Reached(step, roots, x) && step(x, y)
    ensures Reached(step, roots, y)
  {
    var p :| LeadsTo(step, roots, p, x);
    assert LeadsTo(step, roots, p + [y], y);
  }

  /** Everything marked is reached, and all that is still to be expanded is queued. */
  ghost predicate Frontier(step: Step, roots: set<nat>, marked: set<nat>, queue: seq<nat>) {
    && roots <= marked
    && (forall x :: x in marked ==> Reached(step, roots, x))
    && (forall x :: x in queue ==> x in marked)
    && (forall x, y :: x in marked && x !in queue && step(x, y) ==> y in marked)
  }

  lemma NothingQueued(step: Step, roots: set<nat>, marked: set<nat>)
    requires roots <= marked && forall x :: x in marked ==> Reached(step, roots, x)
    requires forall x, y :: x in marked && step(x, y) ==> y in marked
    ensures Frontier(step, roots, marked, [])
  {
  }

  /** With nothing left to expand, the marked nodes are the reached ones. */
  lemma FrontierDone(step: Step, roots: set<nat>, marked: set<nat>)
    requires Frontier(step, roots, marked, [])
    ensures forall x :: x in marked <==> Reached(step, roots, x)
  {
    forall x | Reached(step, roots, x) ensures x in marked {
      var p :| LeadsTo(step, roots, p, x);
      PathMarked(step, roots, marked, p, |p| - 1);
    }
  }

  lemma {:induction false} PathMarked(step: Step, roots: set<nat>, marked: set<nat>, p: seq<nat>, i: nat)
    requires Frontier(step, roots, marked, []) && IsPath(step, p) && i < |p| && p[0] in roots
    ensures p[i] in marked
  {
    if i > 0 { PathMarked(step, roots, marked, p, i - 1); }
  }

  /** Expanding the head of the queue: its new successors are marked and queued. */
  lemma FrontierExpand(step: Step, roots: set<nat>, marked: set<nat>, queue: seq<nat>, more: seq<nat>)
    requires Frontier(step, roots, marked, queue) && |queue| > 0
    requires forall y :: y in more ==> step(queue[0], y)
    requires forall y :: step(queue[0], y) ==> y in marked || y in more
    ensures Frontier(step, roots, marked + (set y | y in more), queue[1..] + more)
  {
    var all, rest := marked + (set y | y in more), queue[1..] + more;
    assert queue == [queue[0]] + queue[1..];
    forall y | y in more ensures Reached(step, roots, y) {
      ReachedStep(step, roots, queue[0], y);
    }
    forall x | x in rest ensures x in all {
      if x in queue[1..] { assert x in queue; }
    }
    forall x, y | x in all && x !in rest && step(x, y) ensures y in all {
      if x != queue[0] { assert x !in queue[1..] && x !in queue; }
    }
  }
}
