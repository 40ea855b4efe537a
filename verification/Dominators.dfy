/** Dominance on a control-flow graph, and what the immediate-dominator array must satisfy:
    definitions and the theorems that do not depend on how the array is computed. */
module Dominators {

  /** preds[n] lists the control predecessors of node n; node 0 is a placeholder. */
  datatype Cfg = Cfg(start: nat, preds: seq<seq<nat>>) {
    predicate Arc(p: nat, n: nat) {
      n < |preds| && p in preds[n]
    }

    ghost predicate Valid() {
      && 0 < start < |preds| && preds[0] == []
      && (forall n, i :: 0 <= n < |preds| && 0 <= i < |preds[n]| ==> preds[n][i] < |preds|)
    }

    /** A control path from Start. */
    ghost predicate Path(p: seq<nat>) {
      && |p| > 0 && p[0] == start
      && (forall i :: 0 < i < |p| ==> Arc(p[i - 1], p[i]))
    }

    ghost predicate PathTo(p: seq<nat>, n: nat) {
      Path(p) && p[|p| - 1] == n
    }

    ghost predicate Reachable(n: nat) {
      exists p :: PathTo(p, n)
    }

    /** d dominates n: every control path from Start to n goes through d. */
    ghost predicate Dom(d: nat, n: nat) {
      forall p :: PathTo(p, n) ==> d in p
    }
  }

  lemma PathSnoc(c: Cfg, p: seq<nat>, n: nat)
    requires c.Path(p) && c.Arc(p[|p| - 1], n)
    ensures c.PathTo(p + [n], n)
  {
  }

  lemma PathPrefix(c: Cfg, p: seq<nat>, k: nat)
    requires c.Path(p) && 0 < k <= |p|
    ensures c.PathTo(p[..k], p[k - 1])
  {
  }

  lemma StartReachable(c: Cfg)
    ensures c.Reachable(c.start)
  {
    assert c.PathTo([c.start], c.start);
  }

  lemma ArcReachable(c: Cfg, p: nat, n: nat)
    requires c.Reachable(p) && c.Arc(p, n)
    ensures c.Reachable(n)
  {
    var w :| c.PathTo(w, p);
    PathSnoc(c, w, n);
  }

  /** A strict dominator of n dominates every predecessor of n. */
  lemma DomPred(c: Cfg, d: nat, n: nat, p: nat)
    requires c.Dom(d, n) && d != n && c.Arc(p, n)
    ensures c.Dom(d, p)
  {
    forall w | c.PathTo(w, p) ensures d in w {
      PathSnoc(c, w, n);
      assert d in w + [n];
    }
  }

  /** A node dominating every predecessor of n from which n can be entered dominates n. */
  lemma DomJoin(c: Cfg, d: nat, n: nat)
    requires n != c.start
    requires forall p :: c.Arc(p, n) && !c.Dom(n, p) ==> c.Dom(d, p)
    ensures c.Dom(d, n)
  {
    forall w | c.PathTo(w, n) ensures d in w {
      // The step that enters n for the first time comes from a node n does not dominate.
      var k := FirstVisit(w, n, |w| - 1);
      assert k > 0;
      PathPrefix(c, w, k);
      assert c.Arc(w[k - 1], n) && n !in w[..k];
      assert c.PathTo(w[..k], w[k - 1]);
      assert d in w[..k];
    }
  }

  lemma FirstVisit(w: seq<nat>, n: nat, last: nat) returns (k: nat)
    requires last < |w| && w[last] == n
    ensures k <= last && w[k] == n && n !in w[..k]
  {
    k := 0;
    while w[k] != n
      invariant k <= last && n !in w[..k]
      decreases last - k
    {
      assert w[..k + 1] == w[..k] + [w[k]];
      k := k + 1;
    }
  }

  lemma DomSelf(c: Cfg, n: nat)
    ensures c.Dom(n, n)
  {
  }

  /** A reverse post-order of the reachable nodes: everything that makes it one, and no more. */
  datatype Order = Order(nodes: seq<nat>, index: seq<nat>) {
    predicate Has(n: nat) {
      n < |index| && index[n] < |nodes| && nodes[index[n]] == n
    }

    ghost predicate Valid(c: Cfg) {
      && c.Valid() && |index| == |c.preds|
      && 0 < |nodes| && nodes[0] == c.start
      && (forall i :: 0 <= i < |nodes| ==> 0 < nodes[i] < |index| && index[nodes[i]] == i)
      && (forall p, n :: Has(p) && c.Arc(p, n) ==> Has(n))
      && (forall i :: 0 < i < |nodes| ==> EnteredEarlier(c, i))
    }

    /** Some predecessor comes earlier in the order. */
    ghost predicate EnteredEarlier(c: Cfg, i: nat)
      requires i < |nodes|
    {
      exists j :: 0 <= j < i && c.Arc(nodes[j], nodes[i])
    }
  }

  lemma {:induction false} PathInOrder(c: Cfg, o: Order, p: seq<nat>)
    requires o.Valid(c) && c.Path(p)
    ensures o.Has(p[|p| - 1])
  {
    if |p| == 1 {
      assert o.nodes[0] == c.start;
    } else {
      PathPrefix(c, p, |p| - 1);
      PathInOrder(c, o, p[..|p| - 1]);
      assert c.Arc(p[|p| - 2], p[|p| - 1]);
    }
  }

  /** Every node of the order is reached by a path that stays at or before it in the order. */
  lemma {:induction false} OrderPath(c: Cfg, o: Order, i: nat) returns (p: seq<nat>)
    requires o.Valid(c) && i < |o.nodes|
    ensures c.PathTo(p, o.nodes[i])
    ensures forall x :: x in p ==> o.Has(x) && o.index[x] <= i
  {
    if i == 0 {
      p := [c.start];
    } else {
      assert o.EnteredEarlier(c, i);
      var j :| 0 <= j < i && c.Arc(o.nodes[j], o.nodes[i]);
      var q := OrderPath(c, o, j);
      PathSnoc(c, q, o.nodes[i]);
      p := q + [o.nodes[i]];
    }
  }

  lemma HasIffReachable(c: Cfg, o: Order, n: nat)
    requires o.Valid(c)
    ensures o.Has(n) <==> c.Reachable(n)
  {
    if o.Has(n) {
      var p := OrderPath(c, o, o.index[n]);
    }
    if c.Reachable(n) {
      var p :| c.PathTo(p, n);
      PathInOrder(c, o, p);
    }
  }

  /** Dominators come no later in the order than what they dominate. */
  lemma DomEarlier(c: Cfg, o: Order, d: nat, n: nat)
    requires o.Valid(c) && o.Has(n) && c.Dom(d, n)
    ensures o.Has(d) && o.index[d] <= o.index[n]
  {
    var p := OrderPath(c, o, o.index[n]);
    assert d in p;
  }

  /** An immediate-dominator array in which 0 means "not computed yet": every computed entry points
      strictly earlier in the order, at a computed node. */
  ghost predicate Tree(c: Cfg, o: Order, idom: seq<nat>) {
    && o.Valid(c) && |idom| == |c.preds|
    && idom[c.start] == c.start
    && (forall n :: 0 <= n < |idom| && idom[n] != 0 ==> o.Has(n))
    && (forall n :: 0 <= n < |idom| && idom[n] != 0 && n != c.start ==> Climbs(o, idom, n))
  }

  ghost predicate Climbs(o: Order, idom: seq<nat>, n: nat)
    requires n < |idom| && n < |o.index|
  {
    && idom[n] < |idom| && idom[idom[n]] != 0
    && o.Has(idom[n]) && o.index[idom[n]] < o.index[n]
  }

  predicate Known(idom: seq<nat>, n: nat) {
    n < |idom| && idom[n] != 0
  }

  ghost predicate AllKnown(o: Order, idom: seq<nat>) {
    forall i :: 0 <= i < |o.nodes| ==> Known(idom, o.nodes[i])
  }

  /** d is n or one of its ancestors. */
  ghost predicate OnChain(c: Cfg, o: Order, idom: seq<nat>, d: nat, n: nat)
    requires Tree(c, o, idom) && Known(idom, n)
    decreases o.index[n]
  {
    d == n || (n != c.start && assert Climbs(o, idom, n); OnChain(c, o, idom, d, idom[n]))
  }

  lemma {:induction false} ChainEarlier(c: Cfg, o: Order, idom: seq<nat>, d: nat, n: nat)
    requires Tree(c, o, idom) && Known(idom, n) && OnChain(c, o, idom, d, n)
    ensures Known(idom, d) && o.Has(d) && o.index[d] <= o.index[n]
    ensures d != n ==> o.index[d] < o.index[n]
    decreases o.index[n]
  {
    if d != n {
      assert Climbs(o, idom, n);
      ChainEarlier(c, o, idom, d, idom[n]);
    }
  }

  lemma {:induction false} ChainTransitive(c: Cfg, o: Order, idom: seq<nat>, a: nat, b: nat, n: nat)
    requires Tree(c, o, idom) && Known(idom, n) && Known(idom, b)
    requires OnChain(c, o, idom, a, b) && OnChain(c, o, idom, b, n)
    ensures OnChain(c, o, idom, a, n)
    decreases o.index[n]
  {
    if b != n {
      assert Climbs(o, idom, n);
      ChainTransitive(c, o, idom, a, b, idom[n]);
    }
  }

  /** No true dominator is lost: a strict dominator of n still dominates n's recorded immediate dominator. */
  ghost predicate Keeps(c: Cfg, idom: seq<nat>) {
    forall n, d :: 0 <= n < |idom| && idom[n] != 0 && n != c.start && c.Dom(d, n) && d != n ==> c.Dom(d, idom[n])
  }

  /** Whatever the iteration has computed so far, every true dominator is on the chain. */
  lemma {:induction false} DominatorsOnChain(c: Cfg, o: Order, idom: seq<nat>, d: nat, n: nat)
    requires Tree(c, o, idom) && Keeps(c, idom) && Known(idom, n) && c.Dom(d, n)
    ensures OnChain(c, o, idom, d, n)
    decreases o.index[n]
  {
    if d != n {
      if n == c.start {
        assert c.PathTo([c.start], c.start);
      } else {
        assert Climbs(o, idom, n);
        DominatorsOnChain(c, o, idom, d, idom[n]);
      }
    }
  }

  /** The array solves the dataflow equation at n: idom[n] is an ancestor of every computed predecessor. */
  ghost predicate StableAt(c: Cfg, o: Order, idom: seq<nat>, n: nat)
    requires Tree(c, o, idom) && n < |idom|
  {
    forall p :: c.Arc(p, n) && Known(idom, p) ==> OnChain(c, o, idom, idom[n], p)
  }

  ghost predicate Stable(c: Cfg, o: Order, idom: seq<nat>)
    requires Tree(c, o, idom)
  {
    forall i :: 0 < i < |o.nodes| ==> StableAt(c, o, idom, o.nodes[i])
  }

  /** The chain of n is exactly the set of n's dominators. */
  ghost predicate ExactAt(c: Cfg, o: Order, idom: seq<nat>, n: nat)
    requires Tree(c, o, idom) && Known(idom, n)
  {
    forall d :: OnChain(c, o, idom, d, n) <==> c.Dom(d, n)
  }

  ghost predicate Exact(c: Cfg, o: Order, idom: seq<nat>)
    requires Tree(c, o, idom)
  {
    forall n :: Known(idom, n) ==> ExactAt(c, o, idom, n)
  }

  /** A stable array puts nothing but dominators on a chain. */
  lemma {:induction false} StableChainOnPath(c: Cfg, o: Order, idom: seq<nat>, d: nat, p: seq<nat>)
    requires Tree(c, o, idom) && AllKnown(o, idom) && Stable(c, o, idom) && c.Path(p)
    requires Known(idom, p[|p| - 1]) && OnChain(c, o, idom, d, p[|p| - 1])
    ensures d in p
    decreases |p|
  {
    var n := p[|p| - 1];
    if d != n {
      PathInOrder(c, o, p);
      assert Climbs(o, idom, n);
      var q := p[..|p| - 1];
      assert |p| > 1;
      PathPrefix(c, p, |p| - 1);
      PathInOrder(c, o, q);
      var m := p[|p| - 2];
      assert c.Arc(m, n) && Known(idom, o.nodes[o.index[m]]);
      assert StableAt(c, o, idom, o.nodes[o.index[n]]);
      ChainTransitive(c, o, idom, d, idom[n], m);
      StableChainOnPath(c, o, idom, d, q);
    }
  }

  lemma StableIsExact(c: Cfg, o: Order, idom: seq<nat>)
    requires Tree(c, o, idom) && AllKnown(o, idom) && Keeps(c, idom) && Stable(c, o, idom)
    ensures Exact(c, o, idom)
  {
    forall n, d | Known(idom, n) ensures OnChain(c, o, idom, d, n) <==> c.Dom(d, n) {
      if c.Dom(d, n) { DominatorsOnChain(c, o, idom, d, n); }
      if OnChain(c, o, idom, d, n) {
        forall p | c.PathTo(p, n) ensures d in p {
          StableChainOnPath(c, o, idom, d, p);
        }
      }
    }
  }

  lemma ExactIsStable(c: Cfg, o: Order, idom: seq<nat>)
    requires Tree(c, o, idom) && AllKnown(o, idom) && Exact(c, o, idom)
    ensures Stable(c, o, idom)
  {
    forall i, p | 0 < i < |o.nodes| && c.Arc(p, o.nodes[i]) && Known(idom, p)
      ensures OnChain(c, o, idom, idom[o.nodes[i]], p)
    {
      var n := o.nodes[i];
      assert Known(idom, n) && n != c.start;
      assert Climbs(o, idom, n);
      assert ExactAt(c, o, idom, n) && ExactAt(c, o, idom, p);
      assert OnChain(c, o, idom, idom[n], idom[n]);
      DomPred(c, idom[n], n, p);
    }
  }

  /** The exact condition for the computed array to be the dominator tree: one more round of the
      iteration would find every entry already an ancestor of all of its node's predecessors. */
  lemma ExactIffStable(c: Cfg, o: Order, idom: seq<nat>)
    requires Tree(c, o, idom) && AllKnown(o, idom) && Keeps(c, idom)
    ensures Exact(c, o, idom) <==> Stable(c, o, idom)
  {
    if Stable(c, o, idom) { StableIsExact(c, o, idom); }
    if Exact(c, o, idom) { ExactIsStable(c, o, idom); }
  }

  /** Every arc that does not go forward in the order enters a node dominating its source: all loops
      have a single entry. */
  ghost predicate Reducible(c: Cfg, o: Order) {
    forall p: nat, n: nat :: c.Arc(p, n) && o.Has(p) && o.Has(n) && o.index[p] >= o.index[n] ==> c.Dom(n, p)
  }

  ghost predicate OnKnownChain(c: Cfg, o: Order, idom: seq<nat>, d: nat, n: nat)
    requires Tree(c, o, idom)
  {
    Known(idom, n) && OnChain(c, o, idom, d, n)
  }

  /** The first i nodes of the order are computed, and exactly so. */
  ghost predicate ExactBefore(c: Cfg, o: Order, idom: seq<nat>, i: nat)
    requires Tree(c, o, idom) && i <= |o.nodes|
  {
    forall j :: 0 <= j < i ==> Known(idom, o.nodes[j]) && ExactAt(c, o, idom, o.nodes[j])
  }

  /** Recomputing n from its forward predecessors alone is already exact in a reducible graph. */
  lemma ReducibleEntryExact(c: Cfg, o: Order, idom: seq<nat>, i: nat)
    requires Tree(c, o, idom) && Reducible(c, o) && 0 < i < |o.nodes|
    requires Known(idom, o.nodes[i]) && Keeps(c, idom)
    requires ExactBefore(c, o, idom, i)
    requires forall p: nat :: c.Arc(p, o.nodes[i]) && o.Has(p) && o.index[p] < i ==>
        OnKnownChain(c, o, idom, idom[o.nodes[i]], p)
    ensures ExactAt(c, o, idom, o.nodes[i])
  {
    var n := o.nodes[i];
    assert Climbs(o, idom, n) by { assert n != c.start; }
    forall d ensures OnChain(c, o, idom, d, n) <==> c.Dom(d, n) {
      if c.Dom(d, n) { DominatorsOnChain(c, o, idom, d, n); }
      if OnChain(c, o, idom, d, n) {
        if d == n {
          DomSelf(c, n);
        } else {
          forall p: nat | c.Arc(p, n) && !c.Dom(n, p) ensures c.Dom(d, p) {
            if c.Reachable(p) {
              HasIffReachable(c, o, p);
              assert o.index[p] < i && OnKnownChain(c, o, idom, idom[n], p);
              assert ExactAt(c, o, idom, o.nodes[o.index[p]]);
              ChainTransitive(c, o, idom, d, idom[n], p);
            }
          }
          DomJoin(c, d, n);
        }
      }
    }
  }
}
