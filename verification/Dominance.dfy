/** compute_dominance: reverse post-order by depth-first search, the iterative computation of immediate
    dominators, tree depths, and the queries on the result. */
module Dominance {
  import opened SeaOfNodes
  import opened UsePool
  import opened UseLists
  import opened Dominators
  import opened Retreating
  import opened Ladders
  import opened ControlPaths

  predicate IsControlKind(k: NodeKind) {
    k in {Start, Region, If, IfTrue, IfFalse, Loop, LoopExit, Stop, Jump, Return, Unreachable}
  }

  predicate IsFlowNode(s: Sea, n: nat) {
    s.Live(n) && IsControlKind(s.nodes[n].kind)
  }

  /** The control-flow graph of a sea of nodes: the live control nodes and their control inputs. */
  ghost function ControlFlow(s: Sea): Cfg
    requires s.WellFormed()
  {
    Cfg(s.start, seq(|s.nodes|, n requires 0 <= n < |s.nodes| => if IsFlowNode(s, n) then OfKind(s.Inputs(n), Control)
        else []))
  }

  /** Start is a real node and control nodes have no dangling control input. */
  ghost predicate ControlWired(s: Sea)
    requires s.WellFormed()
  {
    && 0 < s.start < |s.nodes|
    && forall n: nat, i: nat :: IsFlowNode(s, n) && i < |s.Inputs(n)| && s.Inputs(n)[i].kind == Control ==>
        s.Inputs(n)[i].target != NO_NODE
  }

  lemma ControlFlowValid(s: Sea)
    requires s.WellFormed() && ControlWired(s)
    ensures ControlFlow(s).Valid()
  {
    var c := ControlFlow(s);
    forall n, i | 0 <= n < |c.preds| && 0 <= i < |c.preds[n]| ensures c.preds[n][i] < |c.preds| {
      OfKindMembers(s.Inputs(n), Control, c.preds[n][i]);
      var j :| 0 <= j < |s.Inputs(n)| && s.Inputs(n)[j] == Edge(c.preds[n][i], Control);
      assert InGraph(s.edges[s.nodes[n].firstInput + j].target, |s.nodes|);
    }
  }

  /** An arc of the control-flow graph is a control input of a live control node. */
  lemma ArcIsControlInput(s: Sea, p: nat, n: nat)
    requires s.WellFormed()
    ensures ControlFlow(s).Arc(p, n) <==> IsFlowNode(s, n) && Edge(p, Control) in s.Inputs(n)
  {
    if n < |s.nodes| { OfKindMembers(s.Inputs(n), Control, p); }
  }

  /** A path of the control-flow graph is a chain of live control nodes. */
  lemma PathIsChain(s: Sea, p: seq<nat>, n: nat)
    requires s.WellFormed()
    ensures ControlFlow(s).PathTo(p, n) <==> IsControlPath(s, p, n)
  {
    forall i | 0 < i < |p| ensures ControlFlow(s).Arc(p[i - 1], p[i]) <==> IsControlLink(s, p[i - 1], p[i]) {
      ArcIsControlInput(s, p[i - 1], p[i]);
    }
  }

  lemma ReachedIff(s: Sea, n: nat)
    requires s.WellFormed()
    ensures ControlFlow(s).Reachable(n) <==> IsReached(s, n)
  {
    if p :| ControlFlow(s).PathTo(p, n) { PathIsChain(s, p, n); }
    if p :| IsControlPath(s, p, n) { PathIsChain(s, p, n); }
  }

  lemma DominatedIff(s: Sea, d: nat, n: nat)
    requires s.WellFormed()
    ensures ControlFlow(s).Dom(d, n) <==> IsDominated(s, d, n)
  {
    forall p ensures ControlFlow(s).PathTo(p, n) <==> IsControlPath(s, p, n) { PathIsChain(s, p, n); }
  }

  method ControlPredecessors(g: Graph, n: nat) returns (preds: seq<nat>)
    requires g.View().HasSlice(n)
    ensures preds == OfKind(g.View().Inputs(n), Control)
  {
    preds := [];
    var inputs := g.edges[g.nodes[n].firstInput..g.nodes[n].firstInput + g.nodes[n].inputCount];
    var i := 0;
    while i < |inputs|
      invariant 0 <= i <= |inputs| && preds == OfKind(inputs[..i], Control)
    {
      OfKindSnoc(inputs[..i], inputs[i], Control);
      assert inputs[..i + 1] == inputs[..i] + [inputs[i]];
      if inputs[i].kind == Control { preds := preds + [inputs[i].target]; }
      i := i + 1;
    }
    assert inputs[..i] == inputs;
  }

  /** The nearest common ancestor of two computed nodes, by climbing from whichever is later in the order. */
  method Intersect(ghost c: Cfg, ghost o: Order, idom: seq<nat>, rpo: seq<nat>, b1: nat, b2: nat) returns (r: nat)
    requires Tree(c, o, idom) && rpo == o.index && Known(idom, b1) && Known(idom, b2)
    ensures Known(idom, r) && OnChain(c, o, idom, r, b1) && OnChain(c, o, idom, r, b2)
    ensures forall x :: OnChain(c, o, idom, x, b1) && OnChain(c, o, idom, x, b2) ==> OnChain(c, o, idom, x, r)
    ensures Keeps(c, idom) ==> forall d :: c.Dom(d, b1) && c.Dom(d, b2) ==> c.Dom(d, r)
  {
    var f1, f2 := b1, b2;
    while f1 != f2
      invariant Meeting(c, o, idom, b1, b2, f1, f2)
      decreases o.index[f1] + o.index[f2]
    {
      ghost var g1, g2 := f1, f2;
      while f1 != 0 && rpo[f1] > rpo[f2]
        invariant Meeting(c, o, idom, b1, b2, f1, f2) && f2 == g2
        invariant o.index[f1] <= o.index[g1]
        decreases o.index[f1]
      {
        ClimbFirst(c, o, idom, b1, b2, f1, f2);
        f1 := idom[f1];
        if f1 == 0 { break; }
      }
      while f2 != 0 && rpo[f2] > rpo[f1]
        invariant Meeting(c, o, idom, b1, b2, f1, f2)
        invariant o.index[f1] <= o.index[g1] && o.index[f2] <= o.index[g2]
        invariant o.index[g1] > o.index[g2] ==> o.index[f1] < o.index[g1]
        decreases o.index[f2]
      {
        ClimbSecond(c, o, idom, b1, b2, f1, f2);
        f2 := idom[f2];
        if f2 == 0 { break; }
      }
      if f1 == 0 || f2 == 0 { break; }
    }
    r := f1;
  }

  /** Both fingers are ancestors of their starting points, and nothing common has been passed by. */
  ghost predicate Meeting(c: Cfg, o: Order, idom: seq<nat>, b1: nat, b2: nat, f1: nat, f2: nat)
    requires Tree(c, o, idom) && Known(idom, b1) && Known(idom, b2)
  {
    && Known(idom, f1) && Known(idom, f2) && f1 != 0 && f2 != 0 && o.Has(f1) && o.Has(f2)
    && OnChain(c, o, idom, f1, b1) && OnChain(c, o, idom, f2, b2)
    && (forall x :: OnChain(c, o, idom, x, b1) && OnChain(c, o, idom, x, b2)
          ==> OnChain(c, o, idom, x, f1) && OnChain(c, o, idom, x, f2))
    && (Keeps(c, idom) ==> forall d :: c.Dom(d, b1) && c.Dom(d, b2) ==> c.Dom(d, f1) && c.Dom(d, f2))
  }

  lemma ClimbFirst(c: Cfg, o: Order, idom: seq<nat>, b1: nat, b2: nat, f1: nat, f2: nat)
    requires Tree(c, o, idom) && Known(idom, b1) && Known(idom, b2)
    requires Meeting(c, o, idom, b1, b2, f1, f2) && o.index[f1] > o.index[f2]
    ensures Meeting(c, o, idom, b1, b2, idom[f1], f2) && o.index[idom[f1]] < o.index[f1]
  {
    assert f1 != c.start;
    assert Climbs(o, idom, f1);
    ChainTransitive(c, o, idom, idom[f1], f1, b1);
    forall x | OnChain(c, o, idom, x, b1) && OnChain(c, o, idom, x, b2) ensures OnChain(c, o, idom, x, idom[f1]) {
      ChainEarlier(c, o, idom, x, f2);
    }
    if Keeps(c, idom) {
      forall d | c.Dom(d, b1) && c.Dom(d, b2) ensures c.Dom(d, idom[f1]) {
        DomEarlier(c, o, d, f2);
      }
    }
  }

  lemma ClimbSecond(c: Cfg, o: Order, idom: seq<nat>, b1: nat, b2: nat, f1: nat, f2: nat)
    requires Tree(c, o, idom) && Known(idom, b1) && Known(idom, b2)
    requires Meeting(c, o, idom, b1, b2, f1, f2) && o.index[f2] > o.index[f1]
    ensures Meeting(c, o, idom, b1, b2, f1, idom[f2]) && o.index[idom[f2]] < o.index[f2]
  {
    ClimbFirst(c, o, idom, b2, b1, f2, f1);
  }

  /** r is the nearest ancestor shared by all the computed predecessors among `ps`. */
  ghost predicate Nearest(c: Cfg, o: Order, idom: seq<nat>, ps: seq<nat>, r: nat)
    requires Tree(c, o, idom)
  {
    && Known(idom, r)
    && (forall p :: p in ps && Known(idom, p) ==> OnChain(c, o, idom, r, p))
    && (exists p :: p in ps && Known(idom, p))
    && (forall x: nat :: SharedBy(c, o, idom, ps, x) ==> OnChain(c, o, idom, x, r))
  }

  ghost predicate SharedBy(c: Cfg, o: Order, idom: seq<nat>, ps: seq<nat>, x: nat)
    requires Tree(c, o, idom)
  {
    forall p :: p in ps && Known(idom, p) ==> OnChain(c, o, idom, x, p)
  }

  /** What dominates all the computed predecessors among `ps` dominates r. */
  ghost predicate KeptBy(c: Cfg, idom: seq<nat>, ps: seq<nat>, r: nat) {
    forall d :: (forall p :: p in ps && Known(idom, p) ==> c.Dom(d, p)) ==> c.Dom(d, r)
  }

  lemma NearestStep(c: Cfg, o: Order, idom: seq<nat>, ps: seq<nat>, p: nat, r: nat, q: nat)
    requires Tree(c, o, idom) && Known(idom, p) && Nearest(c, o, idom, ps, r) && KeptBy(c, idom, ps, r)
    requires Known(idom, q) && OnChain(c, o, idom, q, p) && OnChain(c, o, idom, q, r)
    requires forall x :: OnChain(c, o, idom, x, p) && OnChain(c, o, idom, x, r) ==> OnChain(c, o, idom, x, q)
    requires forall d :: c.Dom(d, p) && c.Dom(d, r) ==> c.Dom(d, q)
    ensures Nearest(c, o, idom, ps + [p], q) && KeptBy(c, idom, ps + [p], q)
  {
    var qs := ps + [p];
    assert p == qs[|ps|];
    assert forall y :: y in ps ==> y in qs;
    forall y | y in qs && Known(idom, y) ensures OnChain(c, o, idom, q, y) {
      if y in ps { ChainTransitive(c, o, idom, q, r, y); }
    }
    forall x: nat | SharedBy(c, o, idom, qs, x) ensures OnChain(c, o, idom, x, q) {
      assert SharedBy(c, o, idom, ps, x);
      assert OnChain(c, o, idom, x, p) by { assert p in qs; }
    }
  }

  ghost predicate Marks(o: Order, reachable: seq<bool>) {
    forall p :: 0 <= p < |reachable| ==> reachable[p] == o.Has(p)
  }

  /** The fold of intersect over `ps`: NO_NODE while none of them is computed. */
  ghost predicate Folded(c: Cfg, o: Order, idom: seq<nat>, ps: seq<nat>, r: nat)
    requires Tree(c, o, idom)
  {
    if r == NO_NODE then forall p :: p in ps ==> !Known(idom, p)
    else Nearest(c, o, idom, ps, r) && KeptBy(c, idom, ps, r)
  }

  lemma FoldSkip(c: Cfg, o: Order, idom: seq<nat>, ps: seq<nat>, p: nat, r: nat)
    requires Tree(c, o, idom) && Folded(c, o, idom, ps, r) && !Known(idom, p)
    ensures Folded(c, o, idom, ps + [p], r)
  {
    var qs := ps + [p];
    forall x: nat | r != NO_NODE && SharedBy(c, o, idom, qs, x) ensures OnChain(c, o, idom, x, r) {
      forall y | y in ps && Known(idom, y) ensures OnChain(c, o, idom, x, y) {
        assert y in qs;
      }
    }
  }

  lemma FoldFirst(c: Cfg, o: Order, idom: seq<nat>, ps: seq<nat>, p: nat)
    requires Tree(c, o, idom) && Folded(c, o, idom, ps, NO_NODE) && Known(idom, p) && p != NO_NODE
    ensures Folded(c, o, idom, ps + [p], p)
  {
    assert p in ps + [p];
  }

  /** One pass over n's predecessors, folding them with intersect; NO_NODE when none is computed yet. */
  method NearestOfPreds(ghost c: Cfg, ghost o: Order, idom: seq<nat>, rpo: seq<nat>, reachable: seq<bool>, ps: seq<nat>)
    returns (r: nat)
    requires Tree(c, o, idom) && rpo == o.index && Keeps(c, idom)
    requires |reachable| == |idom| < NO_NODE && Marks(o, reachable)
    requires forall i :: 0 <= i < |ps| ==> ps[i] < |idom|
    ensures Folded(c, o, idom, ps, r)
  {
    r := NO_NODE;
    var i := 0;
    while i < |ps|
      invariant 0 <= i <= |ps| && Folded(c, o, idom, ps[..i], r)
    {
      r := FoldPred(c, o, idom, rpo, reachable, ps[..i], ps[i], r);
      TakeMore(ps, i);
      i := i + 1;
    }
    TakeMore(ps, i);
  }

  lemma TakeMore(ps: seq<nat>, i: nat)
    requires i <= |ps|
    ensures i < |ps| ==> ps[..i] + [ps[i]] == ps[..i + 1]
    ensures i == |ps| ==> ps[..i] == ps
  {
  }

  method FoldPred(ghost c: Cfg, ghost o: Order, idom: seq<nat>, rpo: seq<nat>, reachable: seq<bool>,
                  ghost ps: seq<nat>, p: nat, r: nat)
    returns (q: nat)
    requires Tree(c, o, idom) && rpo == o.index && Keeps(c, idom)
    requires |reachable| == |idom| < NO_NODE && Marks(o, reachable) && p < |idom|
    requires Folded(c, o, idom, ps, r)
    ensures Folded(c, o, idom, ps + [p], q)
  {
    q := r;
    if !reachable[p] || idom[p] == 0 {
      FoldSkip(c, o, idom, ps, p, r);
      return;
    }
    if r == NO_NODE {
      FoldFirst(c, o, idom, ps, p);
      q := p;
    } else {
      q := Intersect(c, o, idom, rpo, p, r);
      NearestStep(c, o, idom, ps, p, r, q);
    }
  }

  /** An update at n leaves alone the chains of the nodes before n in the order. */
  lemma {:induction false} ChainFrame(c: Cfg, o: Order, idom: seq<nat>, after: seq<nat>, n: nat, d: nat, m: nat)
    requires Tree(c, o, idom) && Tree(c, o, after) && n < |idom| && after == idom[n := after[n]]
    requires Known(idom, m) && o.Has(m) && o.Has(n) && o.index[m] < o.index[n]
    ensures Known(after, m) && (OnChain(c, o, after, d, m) <==> OnChain(c, o, idom, d, m))
    decreases o.index[m]
  {
    assert m != n;
    if m != c.start {
      assert Climbs(o, idom, m) && Climbs(o, after, m);
      ChainFrame(c, o, idom, after, n, d, idom[m]);
    }
  }

  /** Predecessors of n, all of them: its recorded control inputs. */
  ghost predicate AllPreds(c: Cfg, n: nat, ps: seq<nat>) {
    forall p :: p in ps <==> c.Arc(p, n)
  }

  /** The nearest ancestor of n's computed predecessors comes before n, whatever order they are listed in. */
  lemma NearestEarlier(c: Cfg, o: Order, idom: seq<nat>, i: nat, ps: seq<nat>, r: nat)
    requires Tree(c, o, idom) && 0 < i < |o.nodes| && AllPreds(c, o.nodes[i], ps)
    requires forall j :: 0 <= j < i ==> Known(idom, o.nodes[j])
    requires Nearest(c, o, idom, ps, r)
    ensures o.Has(r) && o.index[r] < i
  {
    assert o.EnteredEarlier(c, i);
    var j :| 0 <= j < i && c.Arc(o.nodes[j], o.nodes[i]);
    assert o.nodes[j] in ps;
    ChainEarlier(c, o, idom, r, o.nodes[j]);
  }

  /** Recording the nearest ancestor as n's immediate dominator keeps the array a tree and loses no dominator. */
  lemma UpdateKeeps(c: Cfg, o: Order, idom: seq<nat>, i: nat, ps: seq<nat>, r: nat)
    requires Tree(c, o, idom) && Keeps(c, idom) && 0 < i < |o.nodes| && AllPreds(c, o.nodes[i], ps)
    requires Known(idom, r) && o.Has(r) && o.index[r] < i && KeptBy(c, idom, ps, r)
    ensures Tree(c, o, idom[o.nodes[i] := r]) && Keeps(c, idom[o.nodes[i] := r])
  {
    var n := o.nodes[i];
    var after := idom[n := r];
    forall m | 0 <= m < |after| && after[m] != 0 && m != c.start ensures Climbs(o, after, m) {
      if m != n { assert Climbs(o, idom, m); }
    }
    forall d | c.Dom(d, n) && d != n ensures c.Dom(d, r) {
      forall p | p in ps && Known(idom, p) ensures c.Dom(d, p) {
        DomPred(c, d, n, p);
      }
    }
  }

  /** On an exact array the nearest ancestor of n's predecessors is what is already recorded. */
  lemma ExactNearest(c: Cfg, o: Order, idom: seq<nat>, i: nat, ps: seq<nat>, r: nat)
    requires Tree(c, o, idom) && AllKnown(o, idom) && Exact(c, o, idom)
    requires 0 < i < |o.nodes| && AllPreds(c, o.nodes[i], ps)
    requires Nearest(c, o, idom, ps, r) && o.Has(r) && o.index[r] < i
    ensures r == idom[o.nodes[i]]
  {
    var n := o.nodes[i];
    assert Known(idom, n) && n != c.start;
    assert Climbs(o, idom, n) && ExactAt(c, o, idom, n);
    ExactIsStable(c, o, idom);
    assert StableAt(c, o, idom, n);
    assert SharedBy(c, o, idom, ps, idom[n]);
    forall p: nat | c.Arc(p, n) && !c.Dom(n, p) ensures c.Dom(r, p) {
      if c.Reachable(p) {
        HasIffReachable(c, o, p);
        assert Known(idom, o.nodes[o.index[p]]) && p in ps;
        assert ExactAt(c, o, idom, p);
      }
    }
    DomJoin(c, r, n);
    assert OnChain(c, o, idom, r, n) && OnChain(c, o, idom, r, idom[n]);
    ChainEarlier(c, o, idom, r, idom[n]);
    ChainEarlier(c, o, idom, idom[n], r);
  }

  /** Only Start has been given an entry. */
  ghost predicate Initial(c: Cfg, idom: seq<nat>) {
    forall n :: 0 <= n < |idom| && n != c.start ==> idom[n] == 0
  }

  lemma ExactFrame(c: Cfg, o: Order, idom: seq<nat>, after: seq<nat>, n: nat, m: nat)
    requires Tree(c, o, idom) && Tree(c, o, after) && n < |idom| && after == idom[n := after[n]]
    requires Known(idom, m) && o.Has(m) && o.Has(n) && o.index[m] < o.index[n]
    requires ExactAt(c, o, idom, m)
    ensures Known(after, m) && ExactAt(c, o, after, m)
  {
    ChainFrame(c, o, idom, after, n, m, m);
    forall d ensures OnChain(c, o, after, d, m) <==> c.Dom(d, m) {
      ChainFrame(c, o, idom, after, n, d, m);
    }
  }

  lemma ExactBeforeFrame(c: Cfg, o: Order, idom: seq<nat>, after: seq<nat>, i: nat)
    requires Tree(c, o, idom) && Tree(c, o, after) && i < |o.nodes|
    requires after == idom[o.nodes[i] := after[o.nodes[i]]] && ExactBefore(c, o, idom, i)
    ensures ExactBefore(c, o, after, i)
  {
    forall j | 0 <= j < i ensures Known(after, o.nodes[j]) && ExactAt(c, o, after, o.nodes[j]) {
      assert Known(idom, o.nodes[j]) && ExactAt(c, o, idom, o.nodes[j]);
      ExactFrame(c, o, idom, after, o.nodes[i], o.nodes[j]);
    }
  }

  /** In a reducible graph, the first round makes the entries exact one after the other. */
  lemma FirstRoundExact(c: Cfg, o: Order, idom: seq<nat>, after: seq<nat>, i: nat, ps: seq<nat>, r: nat)
    requires Tree(c, o, idom) && Reducible(c, o) && 0 < i < |o.nodes| && AllPreds(c, o.nodes[i], ps)
    requires ExactBefore(c, o, idom, i) && Nearest(c, o, idom, ps, r)
    requires after == idom[o.nodes[i] := r] && Tree(c, o, after) && Keeps(c, after)
    ensures ExactBefore(c, o, after, i + 1)
  {
    ExactBeforeFrame(c, o, idom, after, i);
    var n := o.nodes[i];
    forall p: nat | c.Arc(p, n) && o.Has(p) && o.index[p] < i ensures OnKnownChain(c, o, after, after[n], p) {
      assert p in ps && Known(idom, o.nodes[o.index[p]]);
      ChainFrame(c, o, idom, after, n, r, p);
    }
    ReducibleEntryExact(c, o, after, i);
  }

  /** The state of a round after the first i nodes. */
  ghost predicate Sweeping(c: Cfg, o: Order, idom: seq<nat>, after: seq<nat>, changed: bool, i: nat)
    requires Tree(c, o, idom) && i <= |o.nodes|
  {
    && Tree(c, o, after) && Keeps(c, after)
    && (forall j :: 0 <= j < i ==> Known(after, o.nodes[j]))
    && (!changed ==> after == idom && forall j :: 0 < j < i ==> StableAt(c, o, after, o.nodes[j]))
    && (Initial(c, idom) && Reducible(c, o) ==> ExactBefore(c, o, after, i))
    && (AllKnown(o, idom) && Exact(c, o, idom) ==> !changed)
  }

  /** Some predecessor of the next node is computed, so the round never finds nothing. */
  lemma SweepFinds(c: Cfg, o: Order, after: seq<nat>, i: nat, ps: seq<nat>) returns (p: nat)
    requires Tree(c, o, after) && 0 < i < |o.nodes| && AllPreds(c, o.nodes[i], ps)
    requires forall j :: 0 <= j < i ==> Known(after, o.nodes[j])
    ensures p in ps && Known(after, p)
  {
    assert o.EnteredEarlier(c, i);
    var j :| 0 <= j < i && c.Arc(o.nodes[j], o.nodes[i]);
    p := o.nodes[j];
  }

  /** A round that meets something to change did not start from the exact array. */
  lemma ChangeNotExact(c: Cfg, o: Order, idom: seq<nat>, i: nat, ps: seq<nat>, r: nat)
    requires Tree(c, o, idom) && 0 < i < |o.nodes| && AllPreds(c, o.nodes[i], ps)
    requires Nearest(c, o, idom, ps, r) && idom[o.nodes[i]] != r
    requires forall j :: 0 <= j < i ==> Known(idom, o.nodes[j])
    ensures !(AllKnown(o, idom) && Exact(c, o, idom))
  {
    NearestEarlier(c, o, idom, i, ps, r);
    if AllKnown(o, idom) && Exact(c, o, idom) {
      ExactNearest(c, o, idom, i, ps, r);
    }
  }

  lemma ChangeKeeps(c: Cfg, o: Order, after: seq<nat>, i: nat, ps: seq<nat>, r: nat)
    requires Tree(c, o, after) && Keeps(c, after) && 0 < i < |o.nodes| && AllPreds(c, o.nodes[i], ps)
    requires forall j :: 0 <= j < i ==> Known(after, o.nodes[j])
    requires Nearest(c, o, after, ps, r) && KeptBy(c, after, ps, r)
    ensures var next := after[o.nodes[i] := r];
            && Tree(c, o, next) && Keeps(c, next)
            && (forall j :: 0 <= j < i + 1 ==> Known(next, o.nodes[j]))
  {
    NearestEarlier(c, o, after, i, ps, r);
    UpdateKeeps(c, o, after, i, ps, r);
  }

  lemma SweepChange(c: Cfg, o: Order, idom: seq<nat>, after: seq<nat>, changed: bool, i: nat, ps: seq<nat>, r: nat)
    requires Tree(c, o, idom) && 0 < i < |o.nodes| && Sweeping(c, o, idom, after, changed, i)
    requires AllPreds(c, o.nodes[i], ps) && Nearest(c, o, after, ps, r) && KeptBy(c, after, ps, r)
    requires after[o.nodes[i]] != r
    ensures Sweeping(c, o, idom, after[o.nodes[i] := r], true, i + 1)
  {
    ChangeKeeps(c, o, after, i, ps, r);
    if !changed { ChangeNotExact(c, o, idom, i, ps, r); }
    if Initial(c, idom) && Reducible(c, o) {
      FirstRoundExact(c, o, after, after[o.nodes[i] := r], i, ps, r);
    }
  }

  lemma SweepStart(c: Cfg, o: Order, idom: seq<nat>)
    requires Tree(c, o, idom) && Keeps(c, idom)
    ensures Sweeping(c, o, idom, idom, false, 1)
  {
    assert o.nodes[0] == c.start;
    forall d ensures OnChain(c, o, idom, d, c.start) <==> c.Dom(d, c.start) {
      if c.Dom(d, c.start) { DominatorsOnChain(c, o, idom, d, c.start); }
      DomSelf(c, c.start);
    }
  }

  /** An entry that a round leaves alone because it is the nearest ancestor already. */
  lemma KeptEntryStable(c: Cfg, o: Order, idom: seq<nat>, i: nat, ps: seq<nat>, r: nat)
    requires Tree(c, o, idom) && 0 < i < |o.nodes| && AllPreds(c, o.nodes[i], ps) && Nearest(c, o, idom, ps, r)
    requires idom[o.nodes[i]] == r
    ensures StableAt(c, o, idom, o.nodes[i]) && Known(idom, o.nodes[i])
  {
  }

  lemma KeptEntryExact(c: Cfg, o: Order, idom: seq<nat>, i: nat, ps: seq<nat>, r: nat)
    requires Tree(c, o, idom) && Keeps(c, idom) && Reducible(c, o) && 0 < i < |o.nodes| && AllPreds(c, o.nodes[i], ps)
    requires ExactBefore(c, o, idom, i) && Nearest(c, o, idom, ps, r) && idom[o.nodes[i]] == r
    ensures ExactBefore(c, o, idom, i + 1)
  {
    assert idom[o.nodes[i] := r] == idom;
    FirstRoundExact(c, o, idom, idom, i, ps, r);
  }

  lemma SweepNoChange(c: Cfg, o: Order, idom: seq<nat>, after: seq<nat>, changed: bool, i: nat, ps: seq<nat>, r: nat)
    requires Tree(c, o, idom) && 0 < i < |o.nodes| && Sweeping(c, o, idom, after, changed, i)
    requires AllPreds(c, o.nodes[i], ps) && Nearest(c, o, after, ps, r)
    requires after[o.nodes[i]] == r
    ensures Sweeping(c, o, idom, after, changed, i + 1)
  {
    if Initial(c, idom) && Reducible(c, o) { KeptEntryExact(c, o, after, i, ps, r); }
    KeptEntryStable(c, o, after, i, ps, r);
  }

  lemma SweepEnd(c: Cfg, o: Order, idom: seq<nat>, after: seq<nat>, changed: bool)
    requires Tree(c, o, idom) && Sweeping(c, o, idom, after, changed, |o.nodes|)
    ensures RoundDone(c, o, idom, after, changed)
  {
    if Initial(c, idom) && Reducible(c, o) {
      forall n: nat | Known(after, n) ensures ExactAt(c, o, after, n) {
        assert ExactAt(c, o, after, o.nodes[o.index[n]]);
      }
    }
  }

  lemma FlowPreds(s: Sea, n: nat)
    requires s.WellFormed() && ControlFlow(s).Valid() && IsFlowNode(s, n)
    ensures AllPreds(ControlFlow(s), n, OfKind(s.Inputs(n), Control))
    ensures forall p :: p in OfKind(s.Inputs(n), Control) ==> p < |s.nodes|
  {
    var c := ControlFlow(s);
    forall p | p in c.preds[n] ensures p < |s.nodes| {
      var i :| 0 <= i < |c.preds[n]| && c.preds[n][i] == p;
    }
  }

  /** What one round over the nodes achieves: see Sweep. */
  ghost predicate RoundDone(c: Cfg, o: Order, idom: seq<nat>, after: seq<nat>, changed: bool)
    requires Tree(c, o, idom)
  {
    && Tree(c, o, after) && Keeps(c, after) && AllKnown(o, after)
    && (!changed ==> after == idom && Stable(c, o, after))
    && (Initial(c, idom) && Reducible(c, o) ==> Exact(c, o, after))
    && (AllKnown(o, idom) && Exact(c, o, idom) ==> !changed)
  }

  /** One round of the iteration over the nodes in reverse post-order. It keeps the array a tree that
      holds every true dominator; a round without change proves it stable; from the initial array of a
      reducible graph it is already exact; an exact array it leaves alone. */
  method Sweep(g: Graph, ghost c: Cfg, ghost o: Order, order: seq<nat>, rpo: seq<nat>, reachable: seq<bool>,
      idom: seq<nat>,
               ghost b: nat)
    returns (after: seq<nat>, changed: bool)
    requires g.View().WellFormed() && c == ControlFlow(g.View()) && |idom| < NO_NODE
    requires order == o.nodes && rpo == o.index
    requires Tree(c, o, idom) && Keeps(c, idom)
    requires Marks(o, reachable) && |reachable| == |idom|
    requires forall i :: 0 < i < |o.nodes| ==> IsFlowNode(g.View(), o.nodes[i])
    requires InRound(c, o, idom, b, 1)
    ensures RoundDone(c, o, idom, after, changed) && InRound(c, o, after, b, |o.nodes|)
  {
    after, changed := idom, false;
    var i := 0;
    SweepStart(c, o, idom);
    while i < |order|
      invariant 0 <= i <= |order|
      invariant i == 0 ==> after == idom && !changed
      invariant i > 0 ==> Sweeping(c, o, idom, after, changed, i) && InRound(c, o, after, b, i)
    {
      if order[i] != g.start {
        after, changed := Revisit(g, c, o, order[i], rpo, reachable, idom, after, changed, i, b);
      }
      i := i + 1;
    }
    SweepEnd(c, o, idom, after, changed);
  }

  lemma NearestMeets(c: Cfg, o: Order, idom: seq<nat>, i: nat, ps: seq<nat>, r: nat, b: nat)
    requires Tree(c, o, idom) && 0 < i < |o.nodes| && AllPreds(c, o.nodes[i], ps) && Nearest(c, o, idom, ps, r)
    requires (forall j :: 0 <= j < i ==> Known(idom, o.nodes[j])) && MeetsTo(c, o, idom, b, i)
        && (b > 0 ==> AllKnown(o, idom))
    ensures MeetsTo(c, o, idom[o.nodes[i] := r], b, i + 1) && (b > 0 ==> AllKnown(o, idom[o.nodes[i] := r]))
  {
    EntryMeets(c, o, idom, i, r, b);
    assert Known(idom, r) && o.Has(r);
  }

  lemma NearestClimbs(c: Cfg, o: Order, idom: seq<nat>, i: nat, ps: seq<nat>, r: nat, b: nat)
    requires Tree(c, o, idom) && 0 < i < |o.nodes| && AllPreds(c, o.nodes[i], ps) && Nearest(c, o, idom, ps, r)
    requires ClimbedIfLadder(c, o, idom, b, i)
    ensures ClimbedIfLadder(c, o, idom[o.nodes[i] := r], b, i + 1)
  {
    forall x: nat | SharedByPreds(c, o, idom, o.nodes[i], x) ensures OnChain(c, o, idom, x, r) {
      assert SharedBy(c, o, idom, ps, x);
    }
    RungClimbed(c, o, idom, i, r, b);
  }

  lemma NearestInRound(c: Cfg, o: Order, idom: seq<nat>, i: nat, ps: seq<nat>, r: nat, b: nat)
    requires Tree(c, o, idom) && 0 < i < |o.nodes| && AllPreds(c, o.nodes[i], ps) && Nearest(c, o, idom, ps, r)
    requires (forall j :: 0 <= j < i ==> Known(idom, o.nodes[j])) && InRound(c, o, idom, b, i)
    ensures InRound(c, o, idom[o.nodes[i] := r], b, i + 1)
  {
    NearestMeets(c, o, idom, i, ps, r, b);
    NearestClimbs(c, o, idom, i, ps, r, b);
  }

  /** The entry of the i-th node becomes r, changed or not. */
  lemma RevisitKeeps(c: Cfg, o: Order, idom: seq<nat>, before: seq<nat>, changed: bool, i: nat, ps: seq<nat>, r: nat,
      b: nat)
    requires Tree(c, o, idom) && 0 < i < |o.nodes| && Sweeping(c, o, idom, before, changed, i)
    requires AllPreds(c, o.nodes[i], ps) && Nearest(c, o, before, ps, r) && KeptBy(c, before, ps, r)
    requires InRound(c, o, before, b, i)
    ensures Sweeping(c, o, idom, before[o.nodes[i] := r], changed || before[o.nodes[i]] != r, i + 1)
    ensures InRound(c, o, before[o.nodes[i] := r], b, i + 1)
  {
    NearestInRound(c, o, before, i, ps, r, b);
    if before[o.nodes[i]] != r {
      SweepChange(c, o, idom, before, changed, i, ps, r);
    } else {
      SweepNoChange(c, o, idom, before, changed, i, ps, r);
      assert before[o.nodes[i] := r] == before;
    }
  }

  /** Recomputes the entry of the i-th node of the order. */
  method Revisit(g: Graph, ghost c: Cfg, ghost o: Order, n: nat, rpo: seq<nat>, reachable: seq<bool>,
                 ghost idom: seq<nat>, before: seq<nat>, changedBefore: bool, ghost i: nat, ghost b: nat)
    returns (after: seq<nat>, changed: bool)
    requires g.View().WellFormed() && c == ControlFlow(g.View()) && |before| < NO_NODE && rpo == o.index
    requires Tree(c, o, idom) && 0 < i < |o.nodes| && n == o.nodes[i] && IsFlowNode(g.View(), n)
    requires Sweeping(c, o, idom, before, changedBefore, i)
    requires Marks(o, reachable) && |reachable| == |before|
    requires InRound(c, o, before, b, i)
    ensures Sweeping(c, o, idom, after, changed, i + 1) && InRound(c, o, after, b, i + 1)
  {
    after, changed := before, changedBefore;
    var ps := ControlPredecessors(g, n);
    FlowPreds(g.View(), n);
    ghost var p := SweepFinds(c, o, before, i, ps);
    var r := NearestOfPreds(c, o, before, rpo, reachable, ps);
    RevisitKeeps(c, o, idom, before, changedBefore, i, ps, r, b);
    if r != NO_NODE && before[n] != r {
      after := before[n := r];
      changed := true;
    }
    assert after == before[n := r];
  }

  // ----- the depth-first search -----

  /** How far the search has come: `post` lists the finished nodes; nodes visited but not finished are on
      the call stack. */
  ghost predicate Searching(c: Cfg, visited: seq<bool>, post: seq<nat>) {
    && |visited| == |c.preds|
    && (forall k :: 0 <= k < |post| ==> post[k] < |visited| && visited[post[k]])
    && (forall j, k :: 0 <= j < k < |post| ==> post[j] != post[k])
    && (forall x :: 0 <= x < |visited| && visited[x] ==> c.Reachable(x))
  }

  ghost function Unvisited(visited: seq<bool>): set<nat> {
    set x: nat | x < |visited| && !visited[x]
  }

  /** A node finished at position k has a control predecessor that finishes later, or one of those given. */
  ghost predicate HasLaterParent(c: Cfg, post: seq<nat>, k: nat)
    requires k < |post|
  {
    exists j :: k < j < |post| && c.Arc(post[j], post[k])
  }

  ghost predicate Succeeded(c: Cfg, visited: seq<bool>, n: nat) {
    forall m: nat :: c.Arc(n, m) ==> m < |visited| && visited[m]
  }

  /** What a call on n adds to the search: only newly visited nodes, all their successors visited, each
      but n itself with a later-finishing predecessor. */
  ghost predicate Searched(c: Cfg, n: nat, visited: seq<bool>, post: seq<nat>, visited': seq<bool>, post': seq<nat>)
    requires |visited| == |c.preds| && n < |visited|
  {
    && Searching(c, visited', post') && post <= post'
    && (forall x :: 0 <= x < |visited| && visited[x] ==> visited'[x])
    && (forall x :: 0 <= x < |visited| && visited'[x] && !visited[x] ==> x in post'[|post|..])
    && (forall k :: |post| <= k < |post'| ==> !visited[post'[k]] && Succeeded(c, visited', post'[k]))
    && (forall k :: |post| <= k < |post'| - 1 ==> HasLaterParent(c, post', k))
    && visited'[n]
    && (if visited[n] then post' == post else |post'| > |post| && post'[|post'| - 1] == n)
  }

  /** The control successors of n: its users along control edges that are live control nodes. */
  method ControlSuccessors(g: Graph, n: nat) returns (succs: seq<nat>)
    requires g.Valid() && n < |g.nodes|
    ensures forall m: nat :: m in succs <==> ControlFlow(g.View()).Arc(n, m)
  {
    var users := g.UsesOfKind(n, Control);
    succs := FlowNodesAmong(g, users);
    forall m: nat ensures m in succs <==> ControlFlow(g.View()).Arc(n, m) {
      ArcIsControlInput(g.View(), n, m);
    }
  }

  method FlowNodesAmong(g: Graph, users: seq<nat>) returns (succs: seq<nat>)
    ensures forall m: nat :: m in succs <==> m in users && IsFlowNode(g.View(), m)
  {
    succs := [];
    var i := 0;
    while i < |users|
      invariant 0 <= i <= |users|
      invariant forall m: nat :: m in succs <==> m in users[..i] && IsFlowNode(g.View(), m)
    {
      var m := users[i];
      assert users[..i + 1] == users[..i] + [m];
      i := i + 1;
      if m >= |g.nodes| { continue; }
      if IsDead in g.nodes[m].flags { continue; }
      if !IsControlKind(g.nodes[m].kind) { continue; }
      succs := succs + [m];
    }
    assert users[..i] == users;
  }

  // ----- what the search finds between the ends of an arc that leads back -----

  /** The finished nodes have no successor left to visit. */
  ghost predicate Finished(c: Cfg, visited: seq<bool>, post: seq<nat>) {
    forall k {:trigger post[k]} :: 0 <= k < |post| ==> Succeeded(c, visited, post[k])
  }

  lemma FinishedMore(c: Cfg, v: seq<bool>, v': seq<bool>, post: seq<nat>)
    requires |v| == |v'| && Finished(c, v, post) && forall x :: 0 <= x < |v| && v[x] ==> v'[x]
    ensures Finished(c, v', post)
  {
    forall k {:trigger post[k]} | 0 <= k < |post| ensures Succeeded(c, v', post[k]) {
      assert Succeeded(c, v, post[k]);
    }
  }

  /** If an arc leads to a node that finishes later, whatever finishes in between was found from there. */
  ghost predicate NestedPost(c: Cfg, post: seq<nat>) {
    forall k, m {:trigger post[k], post[m]} :: 0 <= k < m < |post| && c.Arc(post[k], post[m]) ==>
      ParentsBy(c, post, k, m)
  }

  ghost predicate ParentsBy(c: Cfg, post: seq<nat>, k: nat, m: nat)
    requires k < m < |post|
  {
    forall l {:trigger ParentBy(c, post, l, m)} :: k <= l < m ==> ParentBy(c, post, l, m)
  }

  ghost predicate ParentBy(c: Cfg, post: seq<nat>, l: nat, m: nat)
    requires l < m < |post|
  {
    exists j :: l < j <= m && c.Arc(post[j], post[l])
  }

  /** The last of them, which was visited after the nodes in `post` were finished. */
  lemma NestedLast(c: Cfg, n: nat, visited: seq<bool>, post: seq<nat>, q: seq<nat>)
    requires Finished(c, visited, post) && n < |visited| && !visited[n] && post <= q && NestedPost(c, q)
    requires forall k :: |post| <= k < |q| ==> HasLaterParent(c, q, k) || c.Arc(n, q[k])
    ensures NestedPost(c, q + [n])
  {
    var r := q + [n];
    forall k {:trigger post[k]} | 0 <= k < |post| ensures !c.Arc(post[k], n) && r[k] == post[k] {
      assert Succeeded(c, visited, post[k]);
    }
    forall k, m | 0 <= k < m < |r| && c.Arc(r[k], r[m]) ensures ParentsBy(c, r, k, m) {
      if m < |q| {
        assert ParentsBy(c, q, k, m);
        forall l | k <= l < m ensures ParentBy(c, r, l, m) {
          assert ParentBy(c, q, l, m);
          var j :| l < j <= m && c.Arc(q[j], q[l]);
          assert r[j] == q[j] && r[l] == q[l];
        }
      } else {
        forall l | k <= l < m ensures ParentBy(c, r, l, m) { LastFound(c, n, q, l); }
      }
    }
  }

  lemma LastFound(c: Cfg, n: nat, q: seq<nat>, l: nat)
    requires l < |q| && (HasLaterParent(c, q, l) || c.Arc(n, q[l]))
    ensures ParentBy(c, q + [n], l, |q|)
  {
    var r := q + [n];
    if HasLaterParent(c, q, l) {
      var j :| l < j < |q| && c.Arc(q[j], q[l]);
      assert c.Arc(r[j], r[l]);
    } else {
      assert c.Arc(r[|q|], r[l]);
    }
  }

  lemma FinishedLast(c: Cfg, v: seq<bool>, q: seq<nat>, n: nat, succs: seq<nat>)
    requires Finished(c, v, q) && AllVisited(v, succs) && forall m: nat :: c.Arc(n, m) ==> m in succs
    ensures Finished(c, v, q + [n])
  {
    forall m: nat | c.Arc(n, m) ensures m < |v| && v[m] {
      var j :| 0 <= j < |succs| && succs[j] == m;
    }
    var r := q + [n];
    forall k {:trigger r[k]} | 0 <= k < |r| ensures Succeeded(c, v, r[k]) {
      if k < |q| { assert r[k] == q[k]; }
    }
  }

  lemma SearchNests(c: Cfg, post: seq<nat>, o: Order)
    requires NestedPost(c, post) && o.nodes == Reversed(post)
    ensures Nested(c, o)
  {
    var last := |post| - 1;
    forall i, m | 0 <= i < m < |o.nodes| && c.Arc(o.nodes[m], o.nodes[i]) ensures FoundBetween(c, o, i, m) {
      assert post[last - m] == o.nodes[m] && post[last - i] == o.nodes[i];
      assert ParentsBy(c, post, last - m, last - i);
      forall l | i < l <= m ensures FoundAfter(c, o, i, l) {
        assert ParentBy(c, post, last - l, last - i);
        var j :| last - l < j <= last - i && c.Arc(post[j], post[last - l]);
        assert o.nodes[last - j] == post[j] && o.nodes[l] == post[last - l];
      }
    }
  }

  method PostOrderDfs(g: Graph, ghost c: Cfg, n: nat, visited: seq<bool>, post: seq<nat>)
    returns (visited': seq<bool>, post': seq<nat>)
    requires g.Valid() && c == ControlFlow(g.View())
    requires Searching(c, visited, post) && n < |visited| && c.Reachable(n)
    requires Finished(c, visited, post) && NestedPost(c, post)
    ensures Searched(c, n, visited, post, visited', post')
    ensures Finished(c, visited', post') && NestedPost(c, post')
    decreases Unvisited(visited)
  {
    visited', post' := visited, post;
    if n >= |g.nodes| { return; }
    if visited[n] { return; }
    visited' := visited'[n := true];
    ghost var entered := visited';
    EnterShrinks(visited, n);
    FinishedMore(c, visited, entered, post);
    var succs := ControlSuccessors(g, n);
    var i := 0;
    while i < |succs|
      invariant 0 <= i <= |succs|
      invariant Descending(c, n, entered, post, visited', post')
      invariant AllVisited(visited', succs[..i])
      invariant Finished(c, visited', post') && NestedPost(c, post')
    {
      var m := succs[i];
      assert m in succs;
      ArcReachable(c, n, m);
      VisitedShrinks(entered, visited');
      ghost var v, q := visited', post';
      visited', post' := PostOrderDfs(g, c, m, visited', post');
      DescendStep(c, n, m, entered, post, v, q, visited', post');
      MoreVisited(v, visited', succs, i);
      i := i + 1;
    }
    assert succs[..i] == succs;
    DescendEnd(c, n, succs, visited, post, visited', post');
    NestedLast(c, n, visited, post, post');
    FinishedLast(c, visited', post', n, succs);
    post' := post' + [n];
  }

  /** In the middle of n's successors: n is visited but not finished. */
  ghost predicate Descending(c: Cfg, n: nat, entered: seq<bool>, post: seq<nat>, visited': seq<bool>, post': seq<nat>) {
    && |entered| == |c.preds| && n < |entered| && entered[n]
    && Searching(c, visited', post') && post <= post'
    && (forall x :: 0 <= x < |entered| && entered[x] ==> visited'[x])
    && (forall x :: 0 <= x < |entered| && visited'[x] && !entered[x] ==> x in post'[|post|..])
    && (forall k :: |post| <= k < |post'| ==> !entered[post'[k]] && Succeeded(c, visited', post'[k]))
    && (forall k :: |post| <= k < |post'| ==> HasLaterParent(c, post', k) || c.Arc(n, post'[k]))
  }

  ghost predicate AllVisited(visited: seq<bool>, ns: seq<nat>) {
    forall j :: 0 <= j < |ns| ==> ns[j] < |visited| && visited[ns[j]]
  }

  lemma MoreVisited(v: seq<bool>, v': seq<bool>, ns: seq<nat>, i: nat)
    requires |v| == |v'| && i < |ns| && AllVisited(v, ns[..i]) && ns[i] < |v'| && v'[ns[i]]
    requires forall x :: 0 <= x < |v| && v[x] ==> v'[x]
    ensures AllVisited(v', ns[..i + 1])
  {
    forall j | 0 <= j < i ensures v'[ns[j]] {
      assert ns[..i][j] == ns[j];
    }
  }

  lemma EnterShrinks(a: seq<bool>, n: nat)
    requires n < |a| && !a[n]
    ensures Unvisited(a[n := true]) < Unvisited(a)
  {
    assert n in Unvisited(a) && n !in Unvisited(a[n := true]);
  }

  lemma VisitedShrinks(a: seq<bool>, b: seq<bool>)
    requires |a| == |b| && forall x :: 0 <= x < |a| && a[x] ==> b[x]
    ensures Unvisited(b) <= Unvisited(a)
  {
  }

  lemma StepParents(c: Cfg, n: nat, m: nat, post: seq<nat>, q: seq<nat>, q': seq<nat>)
    requires q <= q' && |post| <= |q| && c.Arc(n, m)
    requires forall k :: |post| <= k < |q| ==> HasLaterParent(c, q, k) || c.Arc(n, q[k])
    requires forall k :: |q| <= k < |q'| - 1 ==> HasLaterParent(c, q', k)
    requires |q'| > |q| ==> q'[|q'| - 1] == m
    ensures forall k :: |post| <= k < |q'| ==> HasLaterParent(c, q', k) || c.Arc(n, q'[k])
  {
    forall k | |post| <= k < |q'| ensures HasLaterParent(c, q', k) || c.Arc(n, q'[k]) {
      if k < |q| && HasLaterParent(c, q, k) {
        var j :| k < j < |q| && c.Arc(q[j], q[k]);
        assert c.Arc(q'[j], q'[k]);
      }
    }
  }

  lemma StepCovers(entered: seq<bool>, v: seq<bool>, v': seq<bool>, post: seq<nat>, q: seq<nat>, q': seq<nat>)
    requires |entered| == |v| == |v'| && q <= q' && post <= q
    requires forall x :: 0 <= x < |entered| && v[x] && !entered[x] ==> x in q[|post|..]
    requires forall x :: 0 <= x < |v| && v'[x] && !v[x] ==> x in q'[|q|..]
    ensures forall x :: 0 <= x < |entered| && v'[x] && !entered[x] ==> x in q'[|post|..]
  {
    forall x | 0 <= x < |entered| && v'[x] && !entered[x] ensures x in q'[|post|..] {
      if v[x] {
        assert x in q[|post|..] && q[|post|..] <= q'[|post|..];
      } else {
        assert x in q'[|q|..] && q'[|q|..] == q'[|post|..][|q| - |post|..];
      }
    }
  }

  lemma StepSucceeds(c: Cfg, entered: seq<bool>, v: seq<bool>, v': seq<bool>, post: seq<nat>, q: seq<nat>, q': seq<nat>)
    requires |entered| == |v| == |v'| && q <= q' && post <= q
    requires forall k :: 0 <= k < |q'| ==> q'[k] < |entered|
    requires forall x :: 0 <= x < |v| && v[x] ==> v'[x]
    requires forall x :: 0 <= x < |v| && entered[x] ==> v[x]
    requires forall k :: |post| <= k < |q| ==> !entered[q[k]] && Succeeded(c, v, q[k])
    requires forall k :: |q| <= k < |q'| ==> !v[q'[k]] && Succeeded(c, v', q'[k])
    ensures forall k :: |post| <= k < |q'| ==> !entered[q'[k]] && Succeeded(c, v', q'[k])
  {
    forall k | |post| <= k < |q'| ensures !entered[q'[k]] && Succeeded(c, v', q'[k]) {
      if k < |q| { assert Succeeded(c, v, q[k]); }
    }
  }

  lemma DescendStep(c: Cfg, n: nat, m: nat, entered: seq<bool>, post: seq<nat>, v: seq<bool>, q: seq<nat>,
                    v': seq<bool>, q': seq<nat>)
    requires Descending(c, n, entered, post, v, q) && m < |v| && c.Arc(n, m)
    requires Searched(c, m, v, q, v', q')
    ensures Descending(c, n, entered, post, v', q')
  {
    StepParents(c, n, m, post, q, q');
    StepCovers(entered, v, v', post, q, q');
    StepSucceeds(c, entered, v, v', post, q, q');
  }

  lemma DescendEnd(c: Cfg, n: nat, succs: seq<nat>, visited: seq<bool>, post: seq<nat>, v: seq<bool>, q: seq<nat>)
    requires Searching(c, visited, post) && n < |visited| && !visited[n]
    requires Descending(c, n, visited[n := true], post, v, q)
    requires forall m: nat :: c.Arc(n, m) ==> m in succs
    requires AllVisited(v, succs)
    ensures Searched(c, n, visited, post, v, q + [n])
  {
    forall m: nat | c.Arc(n, m) ensures m < |v| && v[m] {
      var j :| 0 <= j < |succs| && succs[j] == m;
    }
    var r := q + [n];
    forall k | 0 <= k < |q| ensures q[k] != n {
      if k < |post| { assert q[k] == post[k]; }
    }
    forall k | |post| <= k < |r| - 1 ensures HasLaterParent(c, r, k) {
      if HasLaterParent(c, q, k) {
        var j :| k < j < |q| && c.Arc(q[j], q[k]);
        assert c.Arc(r[j], r[k]);
      } else {
        assert c.Arc(r[|q|], r[k]);
      }
    }
    assert r[|post|..] == q[|post|..] + [n];
  }

  // ----- the whole computation -----

  datatype DominanceInfo = DominanceInfo(idom: seq<nat>, depth: seq<nat>, reachable: seq<bool>)

  /** How many steps up the tree Start is. */
  ghost function ChainDepth(c: Cfg, o: Order, idom: seq<nat>, n: nat): nat
    requires Tree(c, o, idom) && Known(idom, n)
    decreases o.index[n]
  {
    if n == c.start then 0 else assert Climbs(o, idom, n); 1 + ChainDepth(c, o, idom, idom[n])
  }

  /** The result of the computation, right or not yet exact: a tree over exactly the reachable nodes, with
      true depths, on whose chains no dominator is missing. */
  ghost predicate Computed(c: Cfg, o: Order, info: DominanceInfo) {
    && Tree(c, o, info.idom) && Keeps(c, info.idom) && AllKnown(o, info.idom)
    && |info.depth| == |info.reachable| == |info.idom|
    && (forall n :: 0 <= n < |info.idom| ==> info.reachable[n] == o.Has(n))
    && (forall n :: 0 <= n < |info.idom| && Known(info.idom, n) ==> info.depth[n] == ChainDepth(c, o, info.idom, n))
  }

  function Reversed(s: seq<nat>): (r: seq<nat>)
    ensures |r| == |s| && forall i :: 0 <= i < |s| ==> r[i] == s[|s| - 1 - i]
  {
    seq(|s|, i requires 0 <= i < |s| => s[|s| - 1 - i])
  }

  lemma SearchGivesOrder(c: Cfg, visited: seq<bool>, post: seq<nat>, o: Order)
    requires c.Valid() && Searched(c, c.start, seq(|c.preds|, _ => false), [], visited, post)
    requires o.nodes == Reversed(post) && |o.index| == |c.preds|
    requires forall i :: 0 <= i < |o.nodes| ==> o.nodes[i] < |o.index| && o.index[o.nodes[i]] == i
    requires forall n :: 0 <= n < |o.index| && n !in o.nodes ==> o.index[n] == 0
    ensures o.Valid(c)
  {
    forall i | 0 < i < |o.nodes| ensures o.EnteredEarlier(c, i) {
      SearchedEarlier(c, visited, post, o, i);
    }
    forall p: nat, n: nat | o.Has(p) && c.Arc(p, n) ensures o.Has(n) {
      SearchedClosed(c, visited, post, o, p, n);
    }
    forall i | 0 <= i < |o.nodes| ensures o.nodes[i] > 0 {
      if i > 0 { assert o.EnteredEarlier(c, i); }
    }
  }

  lemma SearchedEarlier(c: Cfg, visited: seq<bool>, post: seq<nat>, o: Order, i: nat)
    requires c.start < |c.preds| && Searched(c, c.start, seq(|c.preds|, _ => false), [], visited, post)
    requires o.nodes == Reversed(post) && 0 < i < |o.nodes|
    ensures o.EnteredEarlier(c, i)
  {
    var k := |post| - 1 - i;
    assert HasLaterParent(c, post, k);
    var j :| k < j < |post| && c.Arc(post[j], post[k]);
    assert o.nodes[|post| - 1 - j] == post[j];
  }

  lemma SearchedClosed(c: Cfg, visited: seq<bool>, post: seq<nat>, o: Order, p: nat, n: nat)
    requires c.start < |c.preds| && Searched(c, c.start, seq(|c.preds|, _ => false), [], visited, post)
    requires o.nodes == Reversed(post) && |o.index| == |c.preds|
    requires forall i :: 0 <= i < |o.nodes| ==> o.nodes[i] < |o.index| && o.index[o.nodes[i]] == i
    requires o.Has(p) && c.Arc(p, n)
    ensures o.Has(n)
  {
    assert Succeeded(c, visited, post[|post| - 1 - o.index[p]]);
    assert n in post[0..];
    var k :| 0 <= k < |post| && post[k] == n;
    assert o.nodes[|post| - 1 - k] == n;
  }

  /** The nodes of the finished search in reverse, with each node's position; and the marks of the reachable. */
  method NumberNodes(size: nat, order: seq<nat>) returns (index: seq<nat>, reachable: seq<bool>)
    requires forall i :: 0 <= i < |order| ==> order[i] < size
    requires forall i, j :: 0 <= i < j < |order| ==> order[i] != order[j]
    ensures |index| == |reachable| == size
    ensures forall i :: 0 <= i < |order| ==> index[order[i]] == i
    ensures forall n :: 0 <= n < size && n !in order ==> index[n] == 0
    ensures forall n :: 0 <= n < size ==> (reachable[n] <==> n in order)
  {
    reachable := seq(size, _ => false);
    index := seq(size, _ => 0);
    var i := 0;
    while i < |order|
      invariant 0 <= i <= |order| && |index| == |reachable| == size
      invariant forall j :: 0 <= j < i ==> index[order[j]] == j
      invariant forall n :: 0 <= n < size && n !in order[..i] ==> index[n] == 0
      invariant forall n :: 0 <= n < size ==> (reachable[n] <==> n in order[..i])
    {
      assert order[..i + 1] == order[..i] + [order[i]];
      reachable := reachable[order[i] := true];
      index := index[order[i] := i];
      i := i + 1;
    }
    assert order[..i] == order;
  }

  // ----- tree depths -----

  ghost predicate IsChild(c: Cfg, idom: seq<nat>, n: nat, x: nat) {
    Known(idom, x) && x != c.start && idom[x] == n
  }

  ghost predicate Distinct(s: seq<nat>) {
    forall i, j :: 0 <= i < j < |s| ==> s[i] != s[j]
  }

  /** The children of n among the nodes below i, each once. */
  ghost predicate ChildrenBelow(c: Cfg, idom: seq<nat>, n: nat, i: nat, kids: seq<nat>) {
    Distinct(kids) && forall x: nat :: x in kids <==> x < i && IsChild(c, idom, n, x)
  }

  lemma NextChild(c: Cfg, idom: seq<nat>, n: nat, i: nat, kids: seq<nat>)
    requires ChildrenBelow(c, idom, n, i, kids)
    ensures ChildrenBelow(c, idom, n, i + 1, if IsChild(c, idom, n, i) then kids + [i] else kids)
  {
    assert i !in kids;
  }

  /** The inverse of the idom array. */
  method TreeChildren(ghost c: Cfg, ghost o: Order, idom: seq<nat>, reachable: seq<bool>, start: nat)
    returns (children: seq<seq<nat>>)
    requires Tree(c, o, idom) && Marks(o, reachable) && |reachable| == |idom| && start == c.start
    ensures |children| == |idom|
    ensures forall n :: 0 <= n < |children| ==> ChildrenBelow(c, idom, n, |idom|, children[n])
  {
    children := seq(|idom|, _ => []);
    var i := 1;
    while i < |idom|
      invariant 1 <= i <= |idom| && |children| == |idom|
      invariant forall n :: 0 <= n < |children| ==> ChildrenBelow(c, idom, n, i, children[n])
    {
      forall n | 0 <= n < |children|
        ensures ChildrenBelow(c, idom, n, i + 1, if IsChild(c, idom, n, i) then children[n] + [i] else children[n])
      {
        NextChild(c, idom, n, i, children[n]);
      }
      if reachable[i] && i != start {
        var d := idom[i];
        if d != 0 {
          assert Climbs(o, idom, i);
          children := children[d := children[d] + [i]];
        }
      }
      i := i + 1;
    }
  }

  /** The breadth-first walk down the tree: nodes in `done` have their depth, those in the queue still owe it
      to their children. */
  ghost predicate Walking(c: Cfg, o: Order, idom: seq<nat>, depth: seq<nat>, queue: seq<nat>, done: set<nat>)
    requires Tree(c, o, idom)
  {
    && |depth| == |idom| && c.start in done
    && (forall x :: x in done ==> Known(idom, x) && depth[x] == ChainDepth(c, o, idom, x))
    && (forall x :: x in queue ==> x in done)
    && Distinct(queue)
    && (forall x :: x in done && x != c.start ==> idom[x] in done && idom[x] !in queue)
    && (forall x: nat :: Known(idom, x) && x != c.start && idom[x] in done && idom[x] !in queue ==> x in done)
  }

  /** Midway through the children of n, which has just left the queue. */
  ghost predicate Visiting(c: Cfg, o: Order, idom: seq<nat>, depth: seq<nat>, queue: seq<nat>, done: set<nat>,
                           n: nat, kids: seq<nat>)
    requires Tree(c, o, idom)
  {
    && |depth| == |idom| && c.start in done && n in done && n !in queue
    && (forall x :: x in done ==> Known(idom, x) && depth[x] == ChainDepth(c, o, idom, x))
    && (forall x :: x in queue ==> x in done)
    && Distinct(queue)
    && (forall x :: x in done && x != c.start ==> idom[x] in done && idom[x] !in queue)
    && (forall x: nat :: Known(idom, x) && x != c.start && idom[x] in done && idom[x] !in queue && idom[x] != n ==>
        x in done)
    && (forall x: nat :: IsChild(c, idom, n, x) ==> (x in done <==> x in kids))
  }

  lemma VisitChild(c: Cfg, o: Order, idom: seq<nat>, depth: seq<nat>, queue: seq<nat>, done: set<nat>,
                   n: nat, kids: seq<nat>, x: nat)
    requires Tree(c, o, idom) && Visiting(c, o, idom, depth, queue, done, n, kids)
    requires IsChild(c, idom, n, x) && x !in kids
    ensures Visiting(c, o, idom, depth[x := depth[n] + 1], queue + [x], done + {x}, n, kids + [x])
  {
    DepthOfChild(c, o, idom, depth, done, n, x);
    ParentsLeft(c, o, idom, queue, done, n, x);
    DistinctMore(queue, x);
  }

  lemma DistinctMore(queue: seq<nat>, x: nat)
    requires Distinct(queue) && x !in queue
    ensures Distinct(queue + [x])
  {
  }

  lemma DepthOfChild(c: Cfg, o: Order, idom: seq<nat>, depth: seq<nat>, done: set<nat>, n: nat, x: nat)
    requires Tree(c, o, idom) && |depth| == |idom| && n in done && IsChild(c, idom, n, x) && x !in done
    requires forall y :: y in done ==> Known(idom, y) && depth[y] == ChainDepth(c, o, idom, y)
    ensures Known(idom, x) && depth[n] + 1 == ChainDepth(c, o, idom, x)
  {
    assert Climbs(o, idom, x);
  }

  lemma ParentsLeft(c: Cfg, o: Order, idom: seq<nat>, queue: seq<nat>, done: set<nat>, n: nat, x: nat)
    requires Tree(c, o, idom) && IsChild(c, idom, n, x) && x !in done && n in done && n !in queue
    requires forall y :: y in done ==> Known(idom, y) && (y != c.start ==> idom[y] in done && idom[y] !in queue)
    ensures forall y :: y in done + {x} ==>
      Known(idom, y) && (y != c.start ==> idom[y] in done + {x} && idom[y] !in queue + [x])
  {
  }

  lemma {:induction false} WalkedAll(c: Cfg, o: Order, idom: seq<nat>, depth: seq<nat>, done: set<nat>, n: nat)
    requires Tree(c, o, idom) && Walking(c, o, idom, depth, [], done) && Known(idom, n)
    ensures n in done
    decreases o.index[n]
  {
    if n != c.start {
      assert Climbs(o, idom, n);
      WalkedAll(c, o, idom, depth, done, idom[n]);
    }
  }

  method VisitChildren(ghost c: Cfg, ghost o: Order, idom: seq<nat>, depth0: seq<nat>, queue0: seq<nat>,
                       ghost done0: set<nat>, kids: seq<nat>)
    returns (depth: seq<nat>, queue: seq<nat>, ghost done: set<nat>)
    requires Tree(c, o, idom) && queue0 != [] && Walking(c, o, idom, depth0, queue0, done0)
    requires ChildrenBelow(c, idom, queue0[0], |idom|, kids)
    ensures Walking(c, o, idom, depth, queue, done)
    ensures done0 <= done && (done == done0 ==> |queue| < |queue0|)
  {
    var n := queue0[0];
    depth, queue, done := depth0, queue0[1..], done0;
    LeaveQueue(c, o, idom, depth0, queue0, done0);
    var i := 0;
    while i < |kids|
      invariant 0 <= i <= |kids| && |queue| == |queue0| - 1 + i
      invariant Visiting(c, o, idom, depth, queue, done, n, kids[..i])
      invariant if i == 0 then done == done0 else done0 < done
    {
      VisitNext(c, o, idom, depth, queue, done, n, kids, i);
      depth := depth[kids[i] := depth[n] + 1];
      queue, done := queue + [kids[i]], done + {kids[i]};
      i := i + 1;
    }
    TakeMore(kids, i);
    VisitedAll(c, o, idom, depth, queue, done, n, kids);
  }

  lemma VisitNext(c: Cfg, o: Order, idom: seq<nat>, depth: seq<nat>, queue: seq<nat>, done: set<nat>,
                  n: nat, kids: seq<nat>, i: nat)
    requires Tree(c, o, idom) && ChildrenBelow(c, idom, n, |idom|, kids) && i < |kids|
    requires Visiting(c, o, idom, depth, queue, done, n, kids[..i])
    ensures kids[i] < |depth| && kids[i] !in done
    ensures Visiting(c, o, idom, depth[kids[i] := depth[n] + 1], queue + [kids[i]], done + {kids[i]}, n, kids[..i + 1])
  {
    PickChild(c, idom, n, kids, i);
    TakeMore(kids, i);
    VisitChild(c, o, idom, depth, queue, done, n, kids[..i], kids[i]);
  }

  lemma PickChild(c: Cfg, idom: seq<nat>, n: nat, kids: seq<nat>, i: nat)
    requires ChildrenBelow(c, idom, n, |idom|, kids) && i < |kids|
    ensures IsChild(c, idom, n, kids[i]) && kids[i] !in kids[..i]
  {
    assert kids[i] in kids;
  }

  lemma VisitedAll(c: Cfg, o: Order, idom: seq<nat>, depth: seq<nat>, queue: seq<nat>, done: set<nat>, n: nat,
      kids: seq<nat>)
    requires Tree(c, o, idom) && Visiting(c, o, idom, depth, queue, done, n, kids)
    requires ChildrenBelow(c, idom, n, |idom|, kids)
    ensures Walking(c, o, idom, depth, queue, done)
  {
    forall x: nat | Known(idom, x) && x != c.start && idom[x] in done && idom[x] !in queue ensures x in done {
      if idom[x] == n { assert IsChild(c, idom, n, x); }
    }
  }

  lemma DropFirst(queue: seq<nat>)
    requires queue != [] && Distinct(queue)
    ensures Distinct(queue[1..]) && queue[0] in queue && queue[0] !in queue[1..]
    ensures forall x :: x in queue <==> x == queue[0] || x in queue[1..]
  {
    assert queue == [queue[0]] + queue[1..];
  }

  lemma LeaveQueue(c: Cfg, o: Order, idom: seq<nat>, depth: seq<nat>, queue: seq<nat>, done: set<nat>)
    requires Tree(c, o, idom) && queue != [] && Walking(c, o, idom, depth, queue, done)
    ensures Visiting(c, o, idom, depth, queue[1..], done, queue[0], [])
  {
    DropFirst(queue);
  }

  ghost function Owing(idom: seq<nat>, done: set<nat>): set<nat> {
    set x: nat | x < |idom| && x !in done
  }

  lemma OwingLess(idom: seq<nat>, before: set<nat>, done: set<nat>)
    requires before < done && forall x :: x in done ==> x < |idom|
    ensures Owing(idom, done) < Owing(idom, before)
  {
    var x :| x in done && x !in before;
    assert x in Owing(idom, before) && x !in Owing(idom, done);
  }

  lemma DepthsAre(c: Cfg, o: Order, idom: seq<nat>, depth: seq<nat>, done: set<nat>)
    requires Tree(c, o, idom) && Walking(c, o, idom, depth, [], done)
    ensures forall n :: 0 <= n < |idom| && Known(idom, n) ==> depth[n] == ChainDepth(c, o, idom, n)
  {
    forall n | 0 <= n < |idom| && Known(idom, n) ensures n in done { WalkedAll(c, o, idom, depth, done, n); }
  }

  method TreeDepths(ghost c: Cfg, ghost o: Order, idom: seq<nat>, reachable: seq<bool>, start: nat)
      returns (depth: seq<nat>)
    requires Tree(c, o, idom) && Marks(o, reachable) && |reachable| == |idom| && start == c.start
    ensures |depth| == |idom|
    ensures forall n :: 0 <= n < |idom| && Known(idom, n) ==> depth[n] == ChainDepth(c, o, idom, n)
  {
    var children := TreeChildren(c, o, idom, reachable, start);
    depth := seq(|idom|, _ => 0);
    var queue := [start];
    ghost var done := {start};
    while queue != []
      invariant Walking(c, o, idom, depth, queue, done)
      decreases Owing(idom, done), |queue|
    {
      var n := queue[0];
      assert n in queue && Known(idom, n);
      ghost var before := done;
      depth, queue, done := VisitChildren(c, o, idom, depth, queue, done, children[n]);
      if done != before { OwingLess(idom, before, done); }
    }
    DepthsAre(c, o, idom, depth, done);
  }

  lemma {:induction false} DepthIs(c: Cfg, o: Order, idom: seq<nat>, n: nat)
    requires Tree(c, o, idom) && Known(idom, n)
    ensures IsDepth(idom, c.start, n, ChainDepth(c, o, idom, n))
    decreases o.index[n]
  {
    if n != c.start {
      assert Climbs(o, idom, n);
      DepthIs(c, o, idom, idom[n]);
      DepthNext(idom, c.start, n, ChainDepth(c, o, idom, idom[n]));
    }
  }

  /** What the result says of node n: whether a control path leads there; if so, its dominators are among what is above
      it in the array, exactly them if the array is exact, and its depth is how far up Start is. */
  ghost predicate TellsOf(s: Sea, info: DominanceInfo, exact: bool, n: nat)
    requires n < |info.idom| == |info.depth| == |info.reachable|
  {
    && (info.reachable[n] <==> IsReached(s, n)) && (info.reachable[n] <==> info.idom[n] != 0)
    && (info.reachable[n] ==>
          && IsDepth(info.idom, s.start, n, info.depth[n])
          && (forall d: nat {:trigger IsDominated(s, d, n)} :: IsDominated(s, d, n) ==> IsAbove(info.idom, d, n))
          && (exact ==> forall d: nat {:trigger IsAbove(info.idom, d, n)} ::
                IsAbove(info.idom, d, n) ==> IsDominated(s, d, n)))
  }

  lemma ResultTells(s: Sea, o: Order, info: DominanceInfo, n: nat)
    requires s.WellFormed() && Computed(ControlFlow(s), o, info) && n < |info.idom|
    ensures TellsOf(s, info, Exact(ControlFlow(s), o, info.idom), n)
  {
    var c := ControlFlow(s);
    ReachedIff(s, n);
    HasIffReachable(c, o, n);
    if o.Has(n) {
      assert Known(info.idom, o.nodes[o.index[n]]);
      DepthIs(c, o, info.idom, n);
      forall d: nat ensures c.Dom(d, n) <==> IsDominated(s, d, n) { DominatedIff(s, d, n); }
      forall d: nat ensures IsAbove(info.idom, d, n) <==> OnChain(c, o, info.idom, d, n) {
        AboveIff(c, o, info.idom, d, n);
      }
      forall d: nat | c.Dom(d, n) ensures OnChain(c, o, info.idom, d, n) { DominatorsOnChain(c, o, info.idom, d, n); }
      if Exact(c, o, info.idom) { assert ExactAt(c, o, info.idom, n); }
    }
  }

  /** The dominator computation. `converged` records whether the last round changed nothing: it is the guard
      that ends the loop before the cap of 100 rounds. */
  method ComputeDominance(g: Graph) returns (info: DominanceInfo, ghost o: Order, ghost converged: bool)
    requires g.Valid() && (g.start == NO_NODE || ControlWired(g.View()))
    ensures g.start == NO_NODE ==> |info.reachable| == |info.idom| && forall n :: 0 <= n < |info.idom| ==>
        info.idom[n] == 0 && !info.reachable[n]
    ensures |info.idom| == |info.depth| == |info.reachable| == |g.nodes|
    ensures g.start != NO_NODE ==> forall n {:trigger TellsOf(g.View(), info, converged, n)} :: 0 <= n < |g.nodes| ==>
      TellsOf(g.View(), info, converged, n)
    ensures g.start != NO_NODE ==> Computed(ControlFlow(g.View()), o, info)
    ensures g.start != NO_NODE && converged ==> Exact(ControlFlow(g.View()), o, info.idom)
    ensures g.start != NO_NODE && Reducible(ControlFlow(g.View()), o) ==> converged
    ensures g.start != NO_NODE && FewRetreats(ControlFlow(g.View()), o, 98) ==> converged
    ensures g.start != NO_NODE && FewRetreats(ControlFlow(g.View()), o, 99) ==>
        Exact(ControlFlow(g.View()), o, info.idom)
    ensures g.start != NO_NODE ==> forall rungs {:trigger LadderFlow(ControlFlow(g.View()), rungs)} ::
        LadderFlow(ControlFlow(g.View()), rungs) ==> (Exact(ControlFlow(g.View()), o, info.idom) <==> |rungs| <= 101)
  {
    o, converged := Order([], []), false;
    if g.start == NO_NODE {
      info := DominanceInfo(seq(|g.nodes|, _ => 0), seq(|g.nodes|, _ => 0), seq(|g.nodes|, _ => false));
      return;
    }
    ghost var c := ControlFlow(g.View());
    ControlFlowValid(g.View());
    StartReachable(c);
    var visited, post := PostOrderDfs(g, c, g.start, seq(|g.nodes|, _ => false), []);
    var order := Reversed(post);
    var rpo, reachable := NumberNodes(|g.nodes|, order);
    o := Order(order, rpo);
    SearchGivesOrder(c, visited, post, o);
    SearchNests(c, post, o);
    var idom;
    idom, converged := Iterate(g, c, o, order, rpo, reachable);
    var depth := TreeDepths(c, o, idom, reachable, g.start);
    info := DominanceInfo(idom, depth, reachable);
    forall rungs | LadderFlow(c, rungs) ensures Exact(c, o, idom) <==> |rungs| <= 101 { SearchClimbs(c, o, rungs); }
    forall n | 0 <= n < |g.nodes| ensures TellsOf(g.View(), info, converged, n) { ResultTells(g.View(), o, info, n); }
  }

  lemma FlowNodesInOrder(s: Sea, o: Order, i: nat)
    requires s.WellFormed() && o.Valid(ControlFlow(s)) && 0 < i < |o.nodes|
    ensures IsFlowNode(s, o.nodes[i])
  {
    assert o.EnteredEarlier(ControlFlow(s), i);
    var j :| 0 <= j < i && ControlFlow(s).Arc(o.nodes[j], o.nodes[i]);
    ArcIsControlInput(s, o.nodes[j], o.nodes[i]);
  }

  /** Between two rounds. */
  ghost predicate Iterating(c: Cfg, o: Order, idom: seq<nat>, changed: bool, rounds: nat) {
    && Tree(c, o, idom) && Keeps(c, idom) && InRound(c, o, idom, rounds, 1)
    && (rounds == 0 ==> Initial(c, idom) && changed)
    && (!changed ==> Exact(c, o, idom))
    && (Reducible(c, o) && rounds > 0 ==> Exact(c, o, idom))
    && (Reducible(c, o) && rounds > 1 ==> !changed)
    && (FewRetreats(c, o, 98) && rounds >= 99 ==> Exact(c, o, idom))
    && (FewRetreats(c, o, 98) && rounds >= 100 ==> !changed)
    && (FewRetreats(c, o, 99) && rounds >= 100 ==> Exact(c, o, idom))
  }

  lemma IterateNext(c: Cfg, o: Order, idom: seq<nat>, after: seq<nat>, changed: bool, rounds: nat)
    requires Iterating(c, o, idom, true, rounds) && RoundDone(c, o, idom, after, changed)
    requires InRound(c, o, after, rounds, |o.nodes|)
    ensures Iterating(c, o, after, changed, rounds + 1)
  {
    if !changed { StableIsExact(c, o, after); }
    if FewRetreats(c, o, 98) && rounds >= 98 { MetIsExact(c, o, after, 98, rounds); }
    if FewRetreats(c, o, 99) && rounds >= 99 { MetIsExact(c, o, after, 99, rounds); }
    NextInRound(c, o, after, rounds);
  }

  lemma IterateEnd(c: Cfg, o: Order, idom: seq<nat>, changed: bool, rounds: nat)
    requires Iterating(c, o, idom, changed, rounds) && rounds <= 100 && (!changed || rounds == 100)
    ensures AllKnown(o, idom) && (!changed ==> Exact(c, o, idom))
    ensures Reducible(c, o) || FewRetreats(c, o, 98) ==> !changed
    ensures FewRetreats(c, o, 99) ==> Exact(c, o, idom)
    ensures Ladder(c, o) ==> (Exact(c, o, idom) <==> |o.nodes| <= 102)
  {
    if Ladder(c, o) { LadderExactIff(c, o, idom, rounds); }
  }

  method Iterate(g: Graph, ghost c: Cfg, ghost o: Order, order: seq<nat>, rpo: seq<nat>, reachable: seq<bool>)
    returns (idom: seq<nat>, ghost converged: bool)
    requires g.View().WellFormed() && |g.nodes| < NO_NODE && c == ControlFlow(g.View())
    requires o.Valid(c) && order == o.nodes && rpo == o.index
    requires Marks(o, reachable) && |reachable| == |c.preds|
    ensures Tree(c, o, idom) && Keeps(c, idom) && AllKnown(o, idom)
    ensures converged ==> Exact(c, o, idom)
    ensures Reducible(c, o) || FewRetreats(c, o, 98) ==> converged
    ensures FewRetreats(c, o, 99) ==> Exact(c, o, idom)
    ensures Ladder(c, o) ==> (Exact(c, o, idom) <==> |o.nodes| <= 102)
  {
    idom := seq(|g.nodes|, _ => 0)[g.start := g.start];
    assert o.nodes[0] == c.start;
    forall i | 0 < i < |o.nodes| ensures IsFlowNode(g.View(), o.nodes[i]) {
      FlowNodesInOrder(g.View(), o, i);
    }
    var changed, rounds := true, 0;
    NothingMet(c, o, idom);
    NothingClimbed(c, o, idom);
    while changed && rounds < 100
      invariant 0 <= rounds <= 100 && Iterating(c, o, idom, changed, rounds)
      decreases 100 - rounds
    {
      var after;
      after, changed := Sweep(g, c, o, order, rpo, reachable, idom, rounds);
      IterateNext(c, o, idom, after, changed, rounds);
      idom, rounds := after, rounds + 1;
    }
    converged := !changed;
    IterateEnd(c, o, idom, changed, rounds);
  }

  // ----- queries -----

  /** Does d dominate n? Never wrongly "no"; and right both ways once the array is exact. */
  method Dominates(info: DominanceInfo, ghost c: Cfg, ghost o: Order, d: nat, n: nat) returns (r: bool)
    requires Computed(c, o, info) && |info.idom| < NO_NODE
    ensures Known(info.idom, n) && d != NO_NODE ==> (r <==> OnChain(c, o, info.idom, d, n))
    ensures Known(info.idom, n) && d != NO_NODE ==> (r <==> IsAbove(info.idom, d, n))
    ensures Known(info.idom, n) && d < NO_NODE && c.Dom(d, n) ==> r
    ensures Known(info.idom, n) && d < NO_NODE && Exact(c, o, info.idom) ==> (r <==> c.Dom(d, n))
    ensures !Known(info.idom, n) ==> (r <==> d != NO_NODE && n != NO_NODE && (d == n || (n < |info.idom| && d == 0)))
  {
    if d == NO_NODE || n == NO_NODE { return false; }
    ghost var up := info.idom;
    if Known(up, n) {
      AboveIff(c, o, up, d, n);
      if c.Dom(d, n) { DominatorsOnChain(c, o, up, d, n); }
      if Exact(c, o, up) { assert ExactAt(c, o, up, n); }
    }
    r := Climb(info.idom, c, o, d, n);
  }

  lemma ClimbStep(c: Cfg, o: Order, idom: seq<nat>, d: nat, n: nat)
    requires Tree(c, o, idom) && Known(idom, n) && d != n
    ensures n == idom[n] ==> !OnChain(c, o, idom, d, n)
    ensures n != idom[n] ==> Known(idom, idom[n]) && o.index[idom[n]] < o.index[n]
                             && (OnChain(c, o, idom, d, idom[n]) <==> OnChain(c, o, idom, d, n))
  {
    if n != c.start { assert Climbs(o, idom, n); }
  }

  method Climb(idom: seq<nat>, ghost c: Cfg, ghost o: Order, d: nat, n: nat) returns (r: bool)
    requires Tree(c, o, idom)
    ensures Known(idom, n) ==> (r <==> OnChain(c, o, idom, d, n))
    ensures !Known(idom, n) ==> (r <==> d == n || (n < |idom| && d == 0))
  {
    var cur: nat := n;
    while cur != 0 && cur < |idom|
      invariant Known(idom, n) ==> Known(idom, cur) && (OnChain(c, o, idom, d, cur) <==> OnChain(c, o, idom, d, n))
      invariant !Known(idom, n) ==> cur == n || (cur == 0 && d != n && n < |idom|)
      decreases if Known(idom, cur) then o.index[cur] + 1 else 0, cur
    {
      if cur == d { return true; }
      if Known(idom, cur) { ClimbStep(c, o, idom, d, cur); }
      if cur == idom[cur] { break; }
      cur := idom[cur];
    }
    return cur == d;
  }

  lemma {:induction false} DeeperOnChain(c: Cfg, o: Order, idom: seq<nat>, d: nat, n: nat)
    requires Tree(c, o, idom) && Known(idom, n) && OnChain(c, o, idom, d, n)
    ensures Known(idom, d) && ChainDepth(c, o, idom, d) <= ChainDepth(c, o, idom, n)
    ensures ChainDepth(c, o, idom, d) == ChainDepth(c, o, idom, n) ==> d == n
    decreases o.index[n]
  {
    if d != n {
      assert Climbs(o, idom, n);
      DeeperOnChain(c, o, idom, d, idom[n]);
    }
  }

  /** Both nodes are ancestors of their starting points and every common ancestor is still above both. */
  ghost predicate Rising(c: Cfg, o: Order, idom: seq<nat>, a: nat, b: nat, ia: nat, ib: nat)
    requires Tree(c, o, idom) && Known(idom, a) && Known(idom, b)
  {
    && Known(idom, ia) && Known(idom, ib) && o.Has(ia) && o.Has(ib)
    && OnChain(c, o, idom, ia, a) && OnChain(c, o, idom, ib, b)
    && (forall x :: OnChain(c, o, idom, x, a) && OnChain(c, o, idom, x, b)
          ==> OnChain(c, o, idom, x, ia) && OnChain(c, o, idom, x, ib))
  }

  lemma RiseDeeper(c: Cfg, o: Order, idom: seq<nat>, a: nat, b: nat, ia: nat, ib: nat)
    requires Tree(c, o, idom) && Known(idom, a) && Known(idom, b) && Rising(c, o, idom, a, b, ia, ib)
    requires ChainDepth(c, o, idom, ia) > ChainDepth(c, o, idom, ib)
    ensures Rising(c, o, idom, a, b, idom[ia], ib)
    ensures ChainDepth(c, o, idom, idom[ia]) == ChainDepth(c, o, idom, ia) - 1
  {
    assert Climbs(o, idom, ia);
    ChainTransitive(c, o, idom, idom[ia], ia, a);
    forall x | OnChain(c, o, idom, x, a) && OnChain(c, o, idom, x, b) ensures OnChain(c, o, idom, x, idom[ia]) {
      DeeperOnChain(c, o, idom, x, ib);
    }
  }

  lemma RisingSwap(c: Cfg, o: Order, idom: seq<nat>, a: nat, b: nat, ia: nat, ib: nat)
    requires Tree(c, o, idom) && Known(idom, a) && Known(idom, b) && Rising(c, o, idom, a, b, ia, ib)
    ensures Rising(c, o, idom, b, a, ib, ia)
  {
  }

  lemma RiseBoth(c: Cfg, o: Order, idom: seq<nat>, a: nat, b: nat, ia: nat, ib: nat)
    requires Tree(c, o, idom) && Known(idom, a) && Known(idom, b) && Rising(c, o, idom, a, b, ia, ib)
    requires ChainDepth(c, o, idom, ia) == ChainDepth(c, o, idom, ib) && ia != ib
    ensures Rising(c, o, idom, a, b, idom[ia], idom[ib])
    ensures ChainDepth(c, o, idom, idom[ia]) == ChainDepth(c, o, idom, ia) - 1
    ensures ChainDepth(c, o, idom, idom[ib]) == ChainDepth(c, o, idom, ib) - 1
  {
    assert ia != c.start && ib != c.start;
    assert Climbs(o, idom, ia) && Climbs(o, idom, ib);
    ChainTransitive(c, o, idom, idom[ia], ia, a);
    ChainTransitive(c, o, idom, idom[ib], ib, b);
    forall x | OnChain(c, o, idom, x, a) && OnChain(c, o, idom, x, b)
      ensures OnChain(c, o, idom, x, idom[ia]) && OnChain(c, o, idom, x, idom[ib])
    {
      if x == ia { DeeperOnChain(c, o, idom, x, ib); }
      if x == ib { DeeperOnChain(c, o, idom, x, ia); }
    }
  }

  /** The deepest common dominator of two reachable nodes. */
  method CommonDominator(info: DominanceInfo, ghost c: Cfg, ghost o: Order, a: nat, b: nat) returns (r: nat)
    requires Computed(c, o, info) && |info.idom| < NO_NODE
    requires (a == NO_NODE || Known(info.idom, a)) && (b == NO_NODE || Known(info.idom, b))
    ensures a == NO_NODE || b == NO_NODE ==> r == NO_NODE
    ensures a != NO_NODE && b != NO_NODE ==>
      && Known(info.idom, r) && OnChain(c, o, info.idom, r, a) && OnChain(c, o, info.idom, r, b)
      && forall x :: OnChain(c, o, info.idom, x, a) && OnChain(c, o, info.idom, x, b) ==> OnChain(c, o, info.idom, x, r)
    ensures a != NO_NODE && b != NO_NODE && Exact(c, o, info.idom) ==>
      c.Dom(r, a) && c.Dom(r, b) && forall x :: c.Dom(x, a) && c.Dom(x, b) ==> c.Dom(x, r)
  {
    if a == NO_NODE || b == NO_NODE { return NO_NODE; }
    ghost var up := info.idom;
    var ia, ib := a, b;
    while ia != ib
      invariant Rising(c, o, up, a, b, ia, ib)
      decreases info.depth[ia] + info.depth[ib]
    {
      ghost var total := info.depth[ia] + info.depth[ib];
      while info.depth[ia] > info.depth[ib]
        invariant Rising(c, o, up, a, b, ia, ib) && info.depth[ia] + info.depth[ib] <= total
        decreases info.depth[ia]
      {
        RiseDeeper(c, o, up, a, b, ia, ib);
        ia := info.idom[ia];
      }
      while info.depth[ib] > info.depth[ia]
        invariant Rising(c, o, up, a, b, ia, ib) && info.depth[ia] + info.depth[ib] <= total
        invariant info.depth[ia] <= info.depth[ib]
        decreases info.depth[ib]
      {
        RisingSwap(c, o, up, a, b, ia, ib);
        RiseDeeper(c, o, up, b, a, ib, ia);
        RisingSwap(c, o, up, b, a, info.idom[ib], ia);
        ib := info.idom[ib];
      }
      if ia == ib { break; }
      RiseBoth(c, o, up, a, b, ia, ib);
      ia, ib := info.idom[ia], info.idom[ib];
      if ia == 0 || ib == 0 { return NO_NODE; }
    }
    r := ia;
    if Exact(c, o, up) {
      assert ExactAt(c, o, up, a) && ExactAt(c, o, up, b) && ExactAt(c, o, up, r);
    }
  }
}
