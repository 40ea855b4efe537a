/** The forwarding pass, on the graph container. */
module LocalForwardingPass {
  import opened SeaOfNodes
  import opened UsePool
  import opened UseLists
  import opened Valuation
  import opened Rewrites
  import opened PassCore
  import opened DeadNodes
  import opened LocalForwarding
  import opened ForwardRule

  lemma ForwardTallied(s0: Sea, s: Sea, i: nat, r: PassResult)
    requires s.WellFormed() && i < |s.nodes| && Tallies(s0, s, r) && r.added == 0
    ensures var plan := ForwardPlan(s, i);
      Tallies(s0, Applied(s, i, plan), if plan.Rewrite? then PassResult(true, r.removed + 1, 0) else r)
  {
    var plan := ForwardPlan(s, i);
    AppliedTallied(s, i, plan);
    TallyNext(s0, s, Applied(s, i, plan), r, if plan.Rewrite? then PassResult(true, r.removed + 1, 0) else r, plan);
  }

  /** Every valuation in which memory works survives with all its values; if no edge led to a dead node, none does
      afterwards; nothing is left to forward; and a change is reported exactly if something was. */
  method ForwardLocals(g: Graph, ghost ext: Ext, ghost rank: seq<nat>) returns (r: PassResult)
    requires g.Valid() && Chained(g.View(), rank) && DataWired(g.View()) && |g.nodes| < NO_NODE && |g.uses| < NIL
    modifies g
    ensures g.Valid() && Forwards(ext, old(g.View()), g.View(), rank)
    ensures NoneLoadsStored(g.View())
    ensures r.changed <==> old(!NoneLoadsStored(g.View()))
    ensures !r.changed ==> g.View() == old(g.View())
    ensures Tallies(old(g.View()), g.View(), r)
  {
    r := PassResult(false, 0, 0);
    ghost var s0 := g.View();
    var i := 1;
    while i < |g.nodes|
      invariant g.Valid() && 0 < i <= |g.nodes| == |s0.nodes| && |g.uses| <= old(|g.uses|)
      invariant Forwards(ext, s0, g.View(), rank) && SettledBefore(g.View(), i)
      invariant Tallies(s0, g.View(), r)
      invariant (!r.changed ==> g.View() == s0) && r.added == 0 && (r.changed ==> !SettledBefore(s0, |s0.nodes|))
    {
      ForwardStep(ext, s0, g.View(), rank, i);
      var plan := ForwardPlan(g.View(), i);
      ForwardTallied(s0, g.View(), i, r);
      Apply(g, i, plan);
      if plan.Rewrite? { r := PassResult(true, r.removed + 1, 0); }
      i := i + 1;
    }
    assert i == |g.nodes|;
    SettledIff(s0);
    SettledIff(g.View());
  }
}
