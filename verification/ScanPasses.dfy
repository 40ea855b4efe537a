/** The scan that drives the four folding passes, on the graph container. */
module ScanPasses {
  import opened SeaOfNodes
  import opened UsePool
  import opened UseLists
  import opened Valuation
  import opened Rewrites
  import opened PassCore
  import opened DeadNodes
  import opened FoldPasses
  import opened StrengthReduction
  import opened ScanBudget

  lemma ScanTallied(rule: Rule, s0: Sea, s: Sea, i: nat, a: PassResult, b: PassResult)
    requires s.WellFormed() && i < |s.nodes| && Tallies(s0, s, a)
    requires b == match PlanFor(rule, s, i)
      case Keep => a
      case Rewrite(_, _, reported) => PassResult(true, a.removed + 1, a.added + reported)
    ensures Tallies(s0, Applied(s, i, PlanFor(rule, s, i)), b)
  {
    var plan := PlanFor(rule, s, i);
    ReportedAdded(rule, s, i);
    AppliedTallied(s, i, plan);
    TallyNext(s0, s, Applied(s, i, plan), a, b, plan);
  }

  lemma ReportedAdded(rule: Rule, s: Sea, i: nat)
    requires s.WellFormed() && i < |s.nodes|
    ensures PlanFor(rule, s, i).Rewrite? ==> s.Live(i) && PlanFor(rule, s, i).reported <= |PlanFor(rule, s, i).extra|
    ensures PlanFor(rule, s, i).Rewrite? ==> forall k :: 0 <= k < |PlanFor(rule, s, i).extra| ==>
      IsDead !in PlanFor(rule, s, i).extra[k].flags
  {
  }

  method ScanAt(g: Graph, rule: Rule, i: nat, r: PassResult, ghost ext: Ext, ghost s0: Sea, ghost rank: seq<nat>,
                ghost ranks: seq<nat>)
    returns (plan: Plan, r': PassResult)
    requires g.Valid() && i < |g.nodes| && PlanOk(ext, g.View(), rank, i, PlanFor(rule, g.View(), i), ranks)
    requires |g.nodes| + 2 < NO_NODE && |g.uses| + 4 < NIL && Tallies(s0, g.View(), r)
    modifies g
    ensures plan == PlanFor(rule, old(g.View()), i)
    ensures g.Valid() && g.View() == Applied(old(g.View()), i, plan) && Tallies(s0, g.View(), r')
    ensures r' == if plan.Rewrite? then PassResult(true, r.removed + 1, r.added + plan.reported) else r
    ensures |g.uses| - 2 * |g.nodes| <= old(|g.uses| - 2 * |g.nodes|)
    ensures |g.edges| - 2 * |g.nodes| <= old(|g.edges| - 2 * |g.nodes|)
  {
    plan := PlanFor(rule, g.View(), i);
    PlanSize(rule, g.View(), i);
    PlanInGraph(ext, g.View(), rank, i, plan, ranks);
    AppliedGrows(g.View(), i, plan);
    r' := if plan.Rewrite? then PassResult(true, r.removed + 1, r.added + plan.reported) else r;
    ScanTallied(rule, s0, g.View(), i, r, r');
    Apply(g, i, plan);
  }

  /** The state of a scan: the graph is s, with so many use entries, when node i is next. */
  ghost predicate Scanning(ext: Ext, rule: Rule, s0: Sea, uses0: nat, s: Sea, uses: nat, rank: seq<nat>, i: nat,
      r: PassResult) {
    && Scanned(ext, s0, s, rank) && s0.WellFormed() && 0 < i <= |s.nodes|
    && Visited(rule, s0, s, i, r.changed) && (r.changed <==> r.removed > 0)
    && uses - 2 * |s.nodes| <= uses0 - 2 * |s0.nodes|
    && |s.edges| - 2 * |s.nodes| <= |s0.edges| - 2 * |s0.nodes|
  }

  /** Room in the 32-bit tables for all that the rules can make of the graph. */
  ghost predicate Roomy(s: Sea, uses: nat) {
    Potential(s) + 2 < NO_NODE && uses + 2 * Potential(s) - 2 * |s.nodes| + 4 < NIL
  }

  method ScanNext(g: Graph, rule: Rule, i: nat, r: PassResult, ghost ext: Ext, ghost s0: Sea, ghost uses0: nat,
                  ghost rank0: seq<nat>, ghost rank: seq<nat>)
    returns (r': PassResult, ghost rank': seq<nat>)
    requires g.Valid() && Scanning(ext, rule, s0, uses0, g.View(), |g.uses|, rank, i, r) && i < |g.nodes|
    requires Tallies(s0, g.View(), r)
    requires Sane(s0, rank0) && (rule == ReduceStrength ==> ExactDivs(ext, s0)) && Roomy(s0, uses0)
    modifies g
    ensures g.Valid() && Scanning(ext, rule, s0, uses0, g.View(), |g.uses|, rank', i + 1, r')
    ensures Tallies(s0, g.View(), r')
  {
    PotentialBound(g.View());
    VisitNext(rule, s0, g.View(), i, r.changed);
    ghost var ranks := ScanStep(ext, rule, s0, g.View(), rank0, rank, i);
    var plan;
    plan, r' := ScanAt(g, rule, i, r, ext, s0, rank, ranks);
    rank' := PlanRanks(plan, rank, ranks);
  }

  /** What every folding pass guarantees: the graph that the scan leads to, which is acyclic, computes the same
      for every assignment to the opaque nodes and has no new edges to dead nodes; and a change reported exactly
      if there was something to do. */
  method Scan(g: Graph, rule: Rule, ghost ext: Ext, ghost rank0: seq<nat>) returns (r: PassResult, ghost rank: seq<nat>)
    requires g.Valid() && Sane(g.View(), rank0) && (rule == ReduceStrength ==> ExactDivs(ext, g.View()))
    requires Roomy(g.View(), |g.uses|)
    modifies g
    ensures g.Valid() && Progress(ext, old(g.View()), g.View(), rank) && ScansTo(rule, old(g.View()), g.View())
    ensures Potential(g.View()) <= old(Potential(g.View())) && |g.nodes| >= old(|g.nodes|)
    ensures |g.uses| - 2 * |g.nodes| <= old(|g.uses| - 2 * |g.nodes|)
    ensures |g.edges| - 2 * |g.nodes| <= old(|g.edges| - 2 * |g.nodes|)
    ensures r.changed <==> old(Fires(rule, g.View()))
    ensures !r.changed ==> g.View() == old(g.View())
    ensures (r.changed <==> r.removed > 0) && Tallies(old(g.View()), g.View(), r)
  {
    rank := rank0;
    r := PassResult(false, 0, 0);
    ghost var s0, uses0 := g.View(), |g.uses|;
    ScanStart(ext, s0, rank0);
    TallyStart(s0);
    VisitStart(rule, s0);
    var i := 1;
    while i < |g.nodes|
      invariant g.Valid() && Scanning(ext, rule, s0, uses0, g.View(), |g.uses|, rank, i, r)
      invariant Tallies(s0, g.View(), r)
      decreases Potential(s0) - i
    {
      PotentialBound(g.View());
      r, rank := ScanNext(g, rule, i, r, ext, s0, uses0, rank0, rank);
      i := i + 1;
    }
    assert i == |g.nodes|;
    VisitEnd(rule, s0, g.View(), r.changed);
  }
}
