/** A constant that a live store still needs, killed by pruning after forwarding has cut the store off from Stop. */
module PruneCounterexample {
  import opened SeaOfNodes
  import opened Valuation
  import opened Rewrites
  import opened PassCore
  import opened LocalForwarding
  import opened Reachability
  import opened CleanupPasses

  /** local1 := 7; local0 := 5; return local0, as it is lowered. */
  predicate StoresLowered(s: Sea) {
    && |s.nodes| == 8 && s.start == 1 && s.stop == 7
    && s.edges == [Edge(1, Control), Edge(1, Effect), Edge(2, Data), Edge(1, Control), Edge(3, Effect), Edge(4, Data),
                   Edge(1, Control), Edge(5, Effect), Edge(6, Data), Edge(1, Control), Edge(6, Effect)]
    && s.nodes[0] == Node(Start, {}, Top, 0, 0, 0) && s.nodes[1] == Node(Start, {IsControl, NoDeopt}, Bottom, 0, 0, 0)
    && s.nodes[2] == Node(ConstInt, {Pure, CSEable, GVNable, NoDeopt}, TInt, 7, 0, 0)
    && s.nodes[3] == Node(StoreLocal, {IsEffect}, Bottom, 1, 0, 3)
    && s.nodes[4] == Node(ConstInt, {Pure, CSEable, GVNable, NoDeopt}, TInt, 5, 3, 0)
    && s.nodes[5] == Node(StoreLocal, {IsEffect}, Bottom, 0, 3, 3)
    && s.nodes[6] == Node(LoadLocal, {IsEffect, NoDeopt}, TInt, 0, 6, 2)
    && s.nodes[7] == Node(Stop, {IsControl, NoDeopt}, Bottom, 0, 8, 3)
  }

  /** The load has given way to the constant 5, on Stop's data and effect edges alike. */
  predicate StoresForwarded(s: Sea) {
    && |s.nodes| == 8 && s.start == 1 && s.stop == 7
    && s.edges == [Edge(1, Control), Edge(1, Effect), Edge(2, Data), Edge(1, Control), Edge(3, Effect), Edge(4, Data),
                   Edge(1, Control), Edge(5, Effect), Edge(4, Data), Edge(1, Control), Edge(4, Effect)]
    && s.nodes[0] == Node(Start, {}, Top, 0, 0, 0) && s.nodes[1] == Node(Start, {IsControl, NoDeopt}, Bottom, 0, 0, 0)
    && s.nodes[2] == Node(ConstInt, {Pure, CSEable, GVNable, NoDeopt}, TInt, 7, 0, 0)
    && s.nodes[3] == Node(StoreLocal, {IsEffect}, Bottom, 1, 0, 3)
    && s.nodes[4] == Node(ConstInt, {Pure, CSEable, GVNable, NoDeopt}, TInt, 5, 3, 0)
    && s.nodes[5] == Node(StoreLocal, {IsEffect}, Bottom, 0, 3, 3)
    && s.nodes[6] == Node(LoadLocal, {IsEffect, NoDeopt, IsDead}, TInt, 0, 6, 2)
    && s.nodes[7] == Node(Stop, {IsControl, NoDeopt}, Bottom, 0, 8, 3)
  }

  lemma ControlFirst(es: seq<Edge>, kind: EdgeKind)
    requires |es| > 0 && es[0].kind == Control && kind != Control
    ensures OfKind(es, kind) == OfKind(es[1..], kind)
  {
  }

  lemma LastEdge(x: nat, kind: EdgeKind)
    ensures OfKind([Edge(x, kind)], kind) == [x]
  {
    assert [Edge(x, kind)][1..] == [];
  }

  lemma StoresPlan(s: Sea)
    requires StoresLowered(s)
    ensures s.HasSlice(6) && ForwardPlan(s, 6) == Rewrite([], 4, 0)
  {
    var es, fs := s.Inputs(6), s.Inputs(5);
    assert es[1..] == [Edge(5, Effect)];
    ControlFirst(es, Effect);
    LastEdge(5, Effect);
    assert fs[1..] == [Edge(3, Effect), Edge(4, Data)] && fs[1..][1..] == [Edge(4, Data)];
    ControlFirst(fs, Data);
    LastEdge(4, Data);
    assert EffectsOf(s, 6) == [5] && DataOf(s, 5) == [4];
  }

  lemma StoresForward(s: Sea)
    requires StoresLowered(s)
    ensures StoresForwarded(Replaced(s, 6, 4))
  {
    var t := Replaced(s, 6, 4);
    assert {IsEffect, NoDeopt} + {IsDead} == {IsEffect, NoDeopt, IsDead};
    forall n | 0 <= n < 8 && n != 6 ensures t.nodes[n] == s.nodes[n] {}
  }

  lemma StoresInputs(s: Sea)
    requires StoresForwarded(s)
    ensures s.WellFormed() && s.Inputs(3) == [Edge(1, Control), Edge(1, Effect), Edge(2, Data)] && s.Inputs(4) == []
    ensures s.Inputs(5) == [Edge(1, Control), Edge(3, Effect), Edge(4, Data)]
    ensures s.Inputs(7) == [Edge(4, Data), Edge(1, Control), Edge(4, Effect)]
  {
  }

  /** Stop depends on the constant 5 alone. */
  lemma StoresNeeds(s: Sea, n: nat)
    requires StoresForwarded(s)
    ensures Contributes(s, n) <==> n == 4
  {
    StoresInputs(s);
    StoresRoots(s);
    ReachedRoot(FeedStep(s), {4}, 4);
    assert forall y :: !FeedStep(s)(4, y);
    NothingQueued(FeedStep(s), {4}, {4});
    FrontierDone(FeedStep(s), {4}, {4});
  }

  lemma StoresRoots(s: Sea)
    requires StoresForwarded(s)
    ensures s.HasSlice(7) && Feeds(s, 7) == {4}
  {
    StoresInputs(s);
    var e := s.Inputs(7)[0];
    assert e in s.Inputs(7) && FeedStep(s)(7, e.target);
  }

  lemma StoreExecuted(s: Sea, n: nat)
    requires StoresForwarded(s) && (n == 3 || n == 5)
    ensures Executed(s, n)
  {
    StoresInputs(s);
    ReachedRoot(ControlStep(s), {1}, 1);
    assert s.Inputs(n)[0] == Edge(1, Control) && s.Live(n);
    ReachedStep(ControlStep(s), {1}, 1, n);
  }

  lemma StoresPruned(s: Sea)
    requires StoresForwarded(s)
    ensures Pruned(s) == {2}
  {
    StoreExecuted(s, 3);
    StoreExecuted(s, 5);
    forall n: nat ensures n in Pruned(s) <==> n == 2 { StoresNeeds(s, n); }
  }

  lemma StoresClean(s: Sea)
    requires StoresForwarded(s)
    ensures s.WellFormed() && DeadUnused(s) && s.edges[2].target == 2
  {
    StoresInputs(s);
  }

  lemma StoresSwept(s: Sea)
    requires StoresForwarded(s) && Pruned(s) == {2}
    ensures var u := Swept(s, Pruned(s));
      u.HasSlice(3) && u.Live(3) && u.nodes[3].kind == StoreLocal && u.Inputs(3)[2] == Edge(2, Data) && u.Dead(2)
  {
    StoresInputs(s);
  }

  /** Forwarding cuts the store of 7 off from Stop; pruning keeps the store, which Start reaches, and kills the 7. */
  lemma PruningKillsStored(s: Sea)
    requires StoresLowered(s)
    ensures s.HasSlice(6) && ForwardPlan(s, 6) == Rewrite([], 4, 0)
    ensures var t := Replaced(s, 6, 4);
      var u := Swept(t, Pruned(t));
      t.WellFormed() && DeadUnused(t) && u.HasSlice(3) && u.Live(3) && u.nodes[3].kind == StoreLocal
      && u.Inputs(3)[2] == Edge(2, Data) && u.Dead(2) && !DeadUnused(u)
  {
    StoresPlan(s);
    StoresForward(s);
    var t := Replaced(s, 6, 4);
    StoresClean(t);
    StoresPruned(t);
    StoresSwept(t);
    PruneIff(t);
  }
}
