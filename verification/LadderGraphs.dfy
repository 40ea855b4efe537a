/** Ladders of any height as sea-of-nodes graphs: dominance is computed exactly for those of up to 101 rungs, and for
    no higher one. */
module LadderGraphs {
  import opened SeaOfNodes
  import opened UsePool
  import opened UseLists
  import opened Dominators
  import opened Ladders
  import opened Dominance

  /** Node 1 is Start; each of the n regions after it is entered from the node before and from the one behind, the last
      one from Start. */
  predicate LadderSea(s: Sea, n: nat) {
    && |s.nodes| == n + 2 && s.start == 1 && |s.edges| == 2 * n
    && (forall k :: 0 <= k < 2 ==> s.nodes[k] == Node(Start, {}, Bottom, 0, 0, 0))
    && (forall k {:trigger RungWired(s, n, k)} :: 0 <= k < n ==> RungWired(s, n, k))
  }

  predicate RungWired(s: Sea, n: nat, k: nat)
    requires |s.nodes| == n + 2 && |s.edges| == 2 * n && k < n
  {
    && s.nodes[k + 2] == Node(Region, {IsControl}, Bottom, 0, 2 * k, 2)
    && s.edges[2 * k] == Edge(k + 1, Control)
    && s.edges[2 * k + 1] == Edge(if k + 1 < n then k + 3 else 1, Control)
  }

  function RungsTo(n: nat): (a: seq<nat>)
    ensures |a| == n && forall k :: 0 <= k < n ==> a[k] == k + 2
  {
    seq(n, k => k + 2)
  }

  lemma LadderWired(s: Sea, n: nat)
    requires LadderSea(s, n) && n + 2 < NO_NODE
    ensures s.WellFormed() && ControlWired(s)
  {
    forall e | 0 <= e < |s.edges| ensures s.edges[e].target < |s.nodes| {
      var k := e / 2;
      assert 0 <= k < n && (e == 2 * k || e == 2 * k + 1) && RungWired(s, n, k);
    }
    forall k | 0 <= k < |s.nodes| ensures s.nodes[k].firstInput + s.nodes[k].inputCount <= |s.edges| {
      if k >= 2 { assert RungWired(s, n, k - 2); }
    }
  }

  lemma RungPreds(s: Sea, n: nat, k: nat, p: nat)
    requires LadderSea(s, n) && s.WellFormed() && k < n
    ensures ControlFlow(s).Arc(p, k + 2) <==> IntoRung(ControlFlow(s), RungsTo(n), p, k)
  {
    var es := s.Inputs(k + 2);
    assert RungWired(s, n, k);
    assert s.nodes[k + 2].firstInput == 2 * k && es == [s.edges[2 * k], s.edges[2 * k + 1]];
    assert IsFlowNode(s, k + 2);
    ArcIsControlInput(s, p, k + 2);
    OneOfTwo(es, s.edges[2 * k], s.edges[2 * k + 1], Edge(p, Control));
  }

  lemma OneOfTwo(es: seq<Edge>, a: Edge, b: Edge, e: Edge)
    requires es == [a, b]
    ensures e in es <==> e == a || e == b
  {
  }

  lemma StartPreds(s: Sea, n: nat, p: nat, m: nat)
    requires LadderSea(s, n) && s.WellFormed() && (m < 2 || m >= n + 2)
    ensures !ControlFlow(s).Arc(p, m)
  {
    if m < 2 { assert s.nodes[m].inputCount == 0 && s.Inputs(m) == []; }
    ArcIsControlInput(s, p, m);
  }

  lemma LadderSeaFlow(s: Sea, n: nat)
    requires LadderSea(s, n) && s.WellFormed() && n > 0
    ensures LadderFlow(ControlFlow(s), RungsTo(n))
  {
    var c, a := ControlFlow(s), RungsTo(n);
    forall p: nat, m: nat ensures c.Arc(p, m) <==> LadderArc(c, a, p, m) {
      if 2 <= m < n + 2 {
        RungPreds(s, n, m - 2, p);
        assert m == a[m - 2];
      } else {
        StartPreds(s, n, p, m);
      }
    }
  }

  lemma LadderExists(n: nat)
    ensures exists s :: LadderSea(s, n)
  {
    var nodes := seq(n + 2, k requires 0 <= k < n + 2 =>
      if k < 2 then Node(Start, {}, Bottom, 0, 0, 0) else Node(Region, {IsControl}, Bottom, 0, 2 * (k - 2), 2));
    var edges := seq(2 * n, e requires 0 <= e < 2 * n =>
      Edge(if e % 2 == 0 then e / 2 + 1 else if e / 2 + 1 < n then e / 2 + 3 else 1, Control));
    var s := Sea(nodes, edges, 1, NO_NODE);
    forall k | 0 <= k < n ensures RungWired(s, n, k) {
      assert (2 * k) / 2 == k && (2 * k + 1) / 2 == k && (2 * k) % 2 == 0 && (2 * k + 1) % 2 == 1;
    }
    assert LadderSea(s, n);
  }

  /** The limit of 100 rounds: it is what decides whether the dominators of a ladder come out right. */
  method DominanceOfLadder(g: Graph, ghost n: nat) returns (info: DominanceInfo, ghost o: Order)
    requires g.Valid() && LadderSea(g.View(), n) && 0 < n && n + 2 < NO_NODE
    ensures Computed(ControlFlow(g.View()), o, info)
    ensures Exact(ControlFlow(g.View()), o, info.idom) <==> n <= 101
  {
    LadderWired(g.View(), n);
    LadderSeaFlow(g.View(), n);
    ghost var converged;
    info, o, converged := ComputeDominance(g);
    assert |RungsTo(n)| == n;
  }
}
