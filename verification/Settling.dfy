/** The pipeline is a function of the graph: whatever it makes of a graph is determined by the graph. */
module Settling {
  import opened SeaOfNodes
  import opened PassCore
  import opened FoldPasses
  import opened ScanBudget
  import opened ValueNumbers
  import opened NumberingScans
  import opened CleanupPasses
  import opened Pipeline

  // ----- one scan -----

  lemma {:induction false} SameScan(rule: Rule, a: seq<Sea>, b: seq<Sea>, s0: Sea, s: Sea, t: Sea, k: nat)
    requires IsScan(rule, a, s0, s) && IsScan(rule, b, s0, t) && k < |a| && k < |b|
    ensures a[k] == b[k]
  {
    if k > 0 {
      SameScan(rule, a, b, s0, s, t, k - 1);
      assert ScanMove(rule, a, k - 1) && ScanMove(rule, b, k - 1);
    }
  }

  lemma MoreToScan(rule: Rule, trace: seq<Sea>, s0: Sea, s: Sea, k: nat)
    requires IsScan(rule, trace, s0, s) && k + 1 < |trace|
    ensures k + 1 < |trace[k].nodes|
  {
    assert ScanMove(rule, trace, k);
  }

  /** A scan that has come to the end cannot go on. */
  lemma ScanEnds(rule: Rule, a: seq<Sea>, b: seq<Sea>, s0: Sea, s: Sea, t: Sea)
    requires IsScan(rule, a, s0, s) && IsScan(rule, b, s0, t) && |a| == |s.nodes|
    ensures |b| <= |a|
  {
    if |a| < |b| {
      MoreToScan(rule, b, s0, t, |a| - 1);
      SameScan(rule, a, b, s0, s, t, |a| - 1);
    }
  }

  /** The scan is a function of the graph, although it goes on over the nodes that it adds. */
  lemma ScansOnce(rule: Rule, s0: Sea, s: Sea, t: Sea)
    requires ScansTo(rule, s0, s) && ScansTo(rule, s0, t)
    ensures s == t
  {
    var a :| IsScan(rule, a, s0, s) && |a| == |s.nodes|;
    var b :| IsScan(rule, b, s0, t) && |b| == |t.nodes|;
    ScanEnds(rule, a, b, s0, s, t);
    ScanEnds(rule, b, a, s0, t, s);
    SameScan(rule, a, b, s0, s, t, |a| - 1);
  }

  lemma {:induction false} NothingFired(rule: Rule, trace: seq<Sea>, s0: Sea, s: Sea, k: nat)
    requires s0.WellFormed() && !Fires(rule, s0) && IsScan(rule, trace, s0, s) && k < |trace|
    ensures trace[k] == s0
  {
    if k > 0 {
      NothingFired(rule, trace, s0, s, k - 1);
      assert ScanMove(rule, trace, k - 1) && !FiresAt(rule, s0, k);
    }
  }

  /** Where the rule has nothing to do it changes nothing. */
  lemma ScansNothing(rule: Rule, s0: Sea, s: Sea)
    requires s0.WellFormed() && !Fires(rule, s0) && ScansTo(rule, s0, s)
    ensures s == s0
  {
    var trace :| IsScan(rule, trace, s0, s) && |trace| == |s.nodes|;
    NothingFired(rule, trace, s0, s, |trace| - 1);
  }

  /** Node i is left alone. */
  ghost predicate LeftAlone(rule: Rule, s: Sea, i: nat)
    requires s.WellFormed() && i < |s.nodes|
  {
    PlanFor(rule, s, i).Keep?
  }

  lemma ScanStays(rule: Rule, trace: seq<Sea>, s0: Sea, s: Sea, k: nat)
    requires IsScan(rule, trace, s0, s) && k + 1 < |trace| && trace[k].WellFormed() && k + 1 < |trace[k].nodes|
    requires LeftAlone(rule, trace[k], k + 1)
    ensures trace[k + 1] == trace[k]
  {
    assert ScanMove(rule, trace, k);
  }

  lemma ScanFires(rule: Rule, trace: seq<Sea>, s0: Sea, s: Sea, k: nat)
    requires IsScan(rule, trace, s0, s) && k + 1 < |trace|
    ensures trace[k].WellFormed() && k + 1 < |trace[k].nodes|
    ensures trace[k + 1] == Applied(trace[k], k + 1, PlanFor(rule, trace[k], k + 1))
  {
    assert ScanMove(rule, trace, k);
  }

  /** The rule has something to do at node j only, and nothing any more after that. */
  ghost predicate FiresOnce(rule: Rule, s: Sea, j: nat, u: Sea) {
    && s.WellFormed() && u.WellFormed() && 0 < j < |s.nodes| && u == Applied(s, j, PlanFor(rule, s, j))
    && (forall i {:trigger LeftAlone(rule, s, i)} :: 0 <= i < j ==> LeftAlone(rule, s, i))
    && (forall i {:trigger LeftAlone(rule, u, i)} :: j < i < |u.nodes| ==> LeftAlone(rule, u, i))
  }

  lemma {:induction false} FiredOnce(rule: Rule, trace: seq<Sea>, s: Sea, t: Sea, j: nat, u: Sea, k: nat)
    requires FiresOnce(rule, s, j, u) && IsScan(rule, trace, s, t) && k < |trace|
    ensures trace[k] == if k < j then s else u
  {
    if k > 0 {
      FiredOnce(rule, trace, s, t, j, u, k - 1);
      ScanFires(rule, trace, s, t, k - 1);
      if k < j {
        assert LeftAlone(rule, s, k);
        ScanStays(rule, trace, s, t, k - 1);
      } else if k > j {
        assert LeftAlone(rule, u, k);
        ScanStays(rule, trace, s, t, k - 1);
      }
    }
  }

  /** Then the scan makes u of s. */
  lemma ScansToOnce(rule: Rule, s: Sea, t: Sea, j: nat, u: Sea)
    requires FiresOnce(rule, s, j, u) && ScansTo(rule, s, t)
    ensures t == u
  {
    var trace :| IsScan(rule, trace, s, t) && |trace| == |t.nodes|;
    FiredOnce(rule, trace, s, t, j, u, |trace| - 1);
  }

  // ----- one pass -----

  lemma PassOnce(pass: PassId, s: Sea, t: Sea, u: Sea)
    requires s.WellFormed() && t.WellFormed() && u.WellFormed() && PassDoes(pass, s, t) && PassDoes(pass, s, u)
    ensures t == u
  {
    match pass
    case Numbering => NumbersOnce(s, t, u);
    case Folding(rule) => ScansOnce(rule, s, t, u);
    case Pruning =>
    case DeadCode =>
  }

  /** A pass that finds nothing to do changes nothing. */
  lemma IdleKeeps(pass: PassId, s: Sea, t: Sea)
    requires s.WellFormed() && t.WellFormed() && PassDoes(pass, s, t) && Idle(pass, s)
    ensures t == s
  {
    match pass
    case Numbering => NumbersNothing(s, t);
    case Folding(rule) => ScansNothing(rule, s, t);
    case Pruning => SweptNothing(s);
    case DeadCode => SweptNothing(s);
  }

  // ----- one round -----

  lemma {:induction false} SameRound(passes: seq<PassId>, a: seq<Sea>, b: seq<Sea>, s: Sea, t: Sea, u: Sea, k: nat)
    requires IsRound(passes, a, s, t) && IsRound(passes, b, s, u) && k < |a| && k < |b|
    ensures a[k] == b[k]
  {
    if k > 0 {
      SameRound(passes, a, b, s, t, u, k - 1);
      assert RoundMove(passes, a, k - 1) && RoundMove(passes, b, k - 1);
      PassOnce(passes[k - 1], a[k - 1], a[k], b[k]);
    }
  }

  lemma RoundOnce(passes: seq<PassId>, s: Sea, t: Sea, u: Sea)
    requires RoundTo(passes, s, t) && RoundTo(passes, s, u)
    ensures t == u
  {
    var a :| IsRound(passes, a, s, t) && |a| == |passes| + 1;
    var b :| IsRound(passes, b, s, u) && |b| == |passes| + 1;
    SameRound(passes, a, b, s, t, u, |passes|);
  }

  // ----- all rounds -----

  lemma {:induction false} SameRounds(passes: seq<PassId>, a: seq<Sea>, b: seq<Sea>, s: Sea, t: Sea, u: Sea, k: nat)
    requires AreRounds(passes, a, s, t) && AreRounds(passes, b, s, u) && k < |a| && k < |b|
    ensures a[k] == b[k]
  {
    if k > 0 {
      SameRounds(passes, a, b, s, t, u, k - 1);
      assert Repeats(passes, a, k - 1) && Repeats(passes, b, k - 1);
      RoundOnce(passes, a[k - 1], a[k], b[k]);
    }
  }

  lemma StillBusy(passes: seq<PassId>, trace: seq<Sea>, s: Sea, t: Sea, k: nat)
    requires AreRounds(passes, trace, s, t) && k + 1 < |trace|
    ensures trace[k].WellFormed() && !AllIdle(passes, trace[k])
  {
    assert Repeats(passes, trace, k);
  }

  /** Rounds that have come to the end cannot go on. */
  lemma RoundsEnd(passes: seq<PassId>, budget: nat, a: seq<Sea>, b: seq<Sea>, s: Sea, t: Sea, u: Sea)
    requires AreRounds(passes, a, s, t) && AreRounds(passes, b, s, u) && |b| <= budget + 1
    requires |a| <= budget ==> t.WellFormed() && AllIdle(passes, t)
    ensures |b| <= |a|
  {
    if |a| < |b| {
      StillBusy(passes, b, s, u, |a| - 1);
      SameRounds(passes, a, b, s, t, u, |a| - 1);
    }
  }

  /** Where the pipeline ends is determined by the graph, the passes and the budget. */
  lemma SettlesOnce(passes: seq<PassId>, budget: nat, s: Sea, t: Sea, u: Sea)
    requires Settles(passes, budget, s, t) && Settles(passes, budget, s, u)
    ensures t == u
  {
    var a :| AreRounds(passes, a, s, t) && |a| <= budget + 1
      && (|a| <= budget ==> t.WellFormed() && AllIdle(passes, t));
    var b :| AreRounds(passes, b, s, u) && |b| <= budget + 1
      && (|b| <= budget ==> u.WellFormed() && AllIdle(passes, u));
    RoundsEnd(passes, budget, a, b, s, t, u);
    RoundsEnd(passes, budget, b, a, s, u, t);
    SameRounds(passes, a, b, s, t, u, |a| - 1);
  }
}
