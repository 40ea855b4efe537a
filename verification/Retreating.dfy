/** How many rounds the dominance iteration takes on any graph: after round r, no chain holds a node that some path
    with fewer than r retreating arcs avoids. */
module Retreating {
  import opened Dominators

  /** The arc does not go forward in the order. */
  predicate Retreats(o: Order, p: nat, n: nat) {
    p < |o.index| && n < |o.index| && o.index[p] >= o.index[n]
  }

  function RetreatsOn(o: Order, p: seq<nat>): nat {
    if |p| <= 1 then 0
    else RetreatsOn(o, p[..|p| - 1]) + if Retreats(o, p[|p| - 2], p[|p| - 1]) then 1 else 0
  }

  lemma {:induction false} PrefixRetreats(o: Order, p: seq<nat>, k: nat)
    requires 0 < k <= |p|
    ensures RetreatsOn(o, p[..k]) <= RetreatsOn(o, p)
  {
    if k < |p| {
      PrefixRetreats(o, p[..|p| - 1], k);
      assert p[..|p| - 1][..k] == p[..k];
    } else {
      assert p[..k] == p;
    }
  }

  /** The recorded immediate dominator of n lies on every path to n with at most b retreating arcs. */
  ghost predicate Meets(c: Cfg, o: Order, idom: seq<nat>, n: nat, b: int)
    requires n < |idom|
  {
    forall p {:trigger c.PathTo(p, n)} :: c.PathTo(p, n) && RetreatsOn(o, p) <= b ==> idom[n] in p
  }

  /** In the middle of a round: the first i nodes of the order meet one retreating arc more than the others. */
  ghost predicate MeetsTo(c: Cfg, o: Order, idom: seq<nat>, b: int, i: nat) {
    forall j {:trigger o.nodes[j]} :: 0 < j < |o.nodes| ==>
      o.nodes[j] < |idom| && Meets(c, o, idom, o.nodes[j], if j < i then b else b - 1)
  }

  lemma MeetsLess(c: Cfg, o: Order, idom: seq<nat>, n: nat, b: int)
    requires n < |idom| && Meets(c, o, idom, n, b)
    ensures Meets(c, o, idom, n, b - 1)
  {
  }

  /** So does the whole chain. */
  lemma {:induction false} ChainOnPath(c: Cfg, o: Order, idom: seq<nat>, x: nat, n: nat, b: int, p: seq<nat>)
    requires Tree(c, o, idom) && Known(idom, n) && OnChain(c, o, idom, x, n)
    requires forall j {:trigger o.nodes[j]} :: 0 < j <= o.index[n] && j < |o.nodes| ==> Meets(c, o, idom, o.nodes[j], b)
    requires c.PathTo(p, n) && RetreatsOn(o, p) <= b
    ensures x in p
    decreases o.index[n]
  {
    if x != n {
      assert Climbs(o, idom, n) && o.nodes[o.index[n]] == n;
      assert o.nodes[0] == c.start;
      assert Meets(c, o, idom, n, b);
      var k :| 0 <= k < |p| && p[k] == idom[n];
      PathPrefix(c, p, k + 1);
      PrefixRetreats(o, p, k + 1);
      ChainOnPath(c, o, idom, x, idom[n], b, p[..k + 1]);
    }
  }

  /** A node shared by the chains of all computed predecessors is met once more. */
  ghost predicate SharedByPreds(c: Cfg, o: Order, idom: seq<nat>, n: nat, r: nat)
    requires Tree(c, o, idom)
  {
    forall p: nat {:trigger c.Arc(p, n)} :: c.Arc(p, n) && Known(idom, p) ==> OnChain(c, o, idom, r, p)
  }

  lemma EntryMeetsPath(c: Cfg, o: Order, idom: seq<nat>, i: nat, r: nat, b: nat, p: seq<nat>)
    requires Tree(c, o, idom) && 0 < i < |o.nodes| && MeetsTo(c, o, idom, b, i)
        && SharedByPreds(c, o, idom, o.nodes[i], r)
    requires (forall j :: 0 <= j < i ==> Known(idom, o.nodes[j])) && (b > 0 ==> AllKnown(o, idom))
    requires c.PathTo(p, o.nodes[i]) && RetreatsOn(o, p) <= b
    ensures r in p
  {
    var n := o.nodes[i];
    assert o.index[c.start] == 0 && |p| > 1;
    var q, front := p[|p| - 2], p[..|p| - 1];
    PathPrefix(c, p, |p| - 1);
    PathInOrder(c, o, front);
    assert c.Arc(q, n) && o.nodes[o.index[q]] == q;
    if o.index[q] < i {
      ChainOnPath(c, o, idom, r, q, b, front);
    } else {
      assert Retreats(o, q, n) && b > 0;
      forall j | 0 < j <= o.index[q] && j < |o.nodes| ensures Meets(c, o, idom, o.nodes[j], b - 1) {
        if j < i { MeetsLess(c, o, idom, o.nodes[j], b); }
      }
      ChainOnPath(c, o, idom, r, q, b - 1, front);
    }
  }

  /** Recording such a node: the round has one entry more. */
  lemma EntryMeets(c: Cfg, o: Order, idom: seq<nat>, i: nat, r: nat, b: nat)
    requires Tree(c, o, idom) && 0 < i < |o.nodes| && MeetsTo(c, o, idom, b, i)
        && SharedByPreds(c, o, idom, o.nodes[i], r)
    requires (forall j :: 0 <= j < i ==> Known(idom, o.nodes[j])) && (b > 0 ==> AllKnown(o, idom))
    ensures MeetsTo(c, o, idom[o.nodes[i] := r], b, i + 1)
  {
    var after := idom[o.nodes[i] := r];
    forall j {:trigger o.nodes[j]} | 0 < j < |o.nodes|
        ensures Meets(c, o, after, o.nodes[j], if j < i + 1 then b else b - 1) {
      if j == i {
        forall p | c.PathTo(p, o.nodes[i]) && RetreatsOn(o, p) <= b ensures r in p {
          EntryMeetsPath(c, o, idom, i, r, b, p);
        }
      } else {
        assert o.index[o.nodes[j]] == j && o.nodes[j] != o.nodes[i];
        assert Meets(c, o, idom, o.nodes[j], if j < i then b else b - 1);
      }
    }
  }

  /** Before the first round nothing need be met. */
  lemma NothingMet(c: Cfg, o: Order, idom: seq<nat>)
    requires Tree(c, o, idom)
    ensures MeetsTo(c, o, idom, 0, 1)
  {
    forall j {:trigger o.nodes[j]} | 0 < j < |o.nodes| ensures Meets(c, o, idom, o.nodes[j], -1) {}
  }

  /** A finished round is the start of the next. */
  lemma NextRound(c: Cfg, o: Order, idom: seq<nat>, b: nat)
    requires MeetsTo(c, o, idom, b, |o.nodes|)
    ensures MeetsTo(c, o, idom, b + 1, 1)
  {
    forall j {:trigger o.nodes[j]} | 0 < j < |o.nodes| ensures Meets(c, o, idom, o.nodes[j], b) {}
  }

  // ----- how many rounds are enough -----

  ghost predicate Simple(p: seq<nat>) {
    forall i, j :: 0 <= i < j < |p| ==> p[i] != p[j]
  }

  /** No path without repeated nodes has more than d retreating arcs. */
  ghost predicate FewRetreats(c: Cfg, o: Order, d: nat) {
    forall p {:trigger c.Path(p)} :: c.Path(p) && Simple(p) ==> RetreatsOn(o, p) <= d
  }

  /** Without its cycles a path leads to the same node over some of the same nodes. */
  lemma {:induction false} Shortened(c: Cfg, p: seq<nat>) returns (s: seq<nat>)
    requires c.Path(p)
    ensures c.PathTo(s, p[|p| - 1]) && Simple(s) && forall x :: x in s ==> x in p
  {
    if |p| == 1 {
      s := p;
    } else {
      var front, n := p[..|p| - 1], p[|p| - 1];
      assert p == front + [n];
      PathPrefix(c, p, |p| - 1);
      var t := Shortened(c, front);
      if n in t {
        var k :| 0 <= k < |t| && t[k] == n;
        PathPrefix(c, t, k + 1);
        s := t[..k + 1];
        assert forall x :: x in s ==> x in t;
      } else {
        PathSnoc(c, t, n);
        s := t + [n];
      }
    }
  }

  /** With as many retreating arcs met as any path needs, the chains are exact. */
  lemma MetIsExact(c: Cfg, o: Order, idom: seq<nat>, d: nat, b: nat)
    requires Tree(c, o, idom) && Keeps(c, idom) && FewRetreats(c, o, d) && d <= b && MeetsTo(c, o, idom, b, |o.nodes|)
    ensures Exact(c, o, idom)
  {
    forall n, x | Known(idom, n) ensures OnChain(c, o, idom, x, n) <==> c.Dom(x, n) {
      if c.Dom(x, n) { DominatorsOnChain(c, o, idom, x, n); }
      if OnChain(c, o, idom, x, n) {
        forall p | c.PathTo(p, n) ensures x in p {
          var s := Shortened(c, p);
          ChainOnPath(c, o, idom, x, n, b, s);
        }
      }
    }
  }

  lemma {:induction false} RetreatsBound(o: Order, p: seq<nat>)
    ensures |p| > 0 ==> RetreatsOn(o, p) < |p|
  {
    if |p| > 1 { RetreatsBound(o, p[..|p| - 1]); }
  }

  lemma {:induction false} SimpleBound(q: seq<nat>, n: nat)
    requires Simple(q) && forall k :: 0 <= k < |q| ==> q[k] < n
    ensures |q| <= n
  {
    if |q| > 0 {
      assert q[0] < n;
      if k :| 0 <= k < |q| && q[k] == n - 1 {
        SimpleBound(q[..k] + q[k + 1..], n - 1);
      } else {
        SimpleBound(q, n - 1);
      }
    }
  }

  /** A graph with d + 1 reachable nodes is never too big. */
  lemma SmallGraph(c: Cfg, o: Order, d: nat)
    requires o.Valid(c) && |o.nodes| <= d + 1
    ensures FewRetreats(c, o, d)
  {
    forall p | c.Path(p) && Simple(p) ensures RetreatsOn(o, p) <= d {
      forall k | 0 <= k < |p| ensures o.Has(p[k]) {
        PathPrefix(c, p, k + 1);
        PathInOrder(c, o, p[..k + 1]);
      }
      var at := seq(|p|, k requires 0 <= k < |p| => o.index[p[k]]);
      forall i, j | 0 <= i < j < |p| ensures at[i] != at[j] {
        assert o.nodes[at[i]] == p[i] && o.nodes[at[j]] == p[j];
      }
      SimpleBound(at, |o.nodes|);
      RetreatsBound(o, p);
    }
  }
}
