/** A family of graphs on which the dominance iteration takes as many rounds as there are nodes: a ladder is climbed
    from both ends, and each round corrects one rung. */
module Ladders {
  import opened Dominators
  import opened Retreating

  /** The arcs into the k-th rung of the order: from the one before it, from the one behind it, and into the last one
      from Start as well. */
  predicate RungArc(o: Order, p: nat, k: nat)
    requires 0 < k < |o.nodes|
  {
    p == o.nodes[k - 1] || (k + 1 < |o.nodes| && p == o.nodes[k + 1]) || (k + 1 == |o.nodes| && p == o.nodes[0])
  }

  /** The graph is a ladder, and the order goes up it. */
  ghost predicate Ladder(c: Cfg, o: Order) {
    o.Valid(c) && forall k {:trigger RungAt(c, o, k)} :: 0 < k < |o.nodes| ==> RungAt(c, o, k)
  }

  ghost predicate RungAt(c: Cfg, o: Order, k: nat)
    requires 0 < k < |o.nodes|
  {
    forall p: nat :: c.Arc(p, o.nodes[k]) <==> RungArc(o, p, k)
  }

  /** What is recorded for the k-th rung after r rounds. */
  function RungEntry(o: Order, k: nat, r: nat): nat
    requires 0 < k < |o.nodes|
  {
    if r == 0 then 0 else if k + r >= |o.nodes| then o.nodes[0] else o.nodes[k - 1]
  }

  /** After b rounds and the first i nodes of the next. */
  ghost predicate Climbed(o: Order, idom: seq<nat>, b: nat, i: nat) {
    forall k {:trigger o.nodes[k]} :: 0 < k < |o.nodes| ==>
      o.nodes[k] < |idom| && idom[o.nodes[k]] == RungEntry(o, k, if k < i then b + 1 else b)
  }

  ghost predicate ClimbedIfLadder(c: Cfg, o: Order, idom: seq<nat>, b: nat, i: nat) {
    Ladder(c, o) ==> Climbed(o, idom, b, i)
  }

  /** The deepest node on the chains of all computed predecessors. */
  ghost predicate NearestShared(c: Cfg, o: Order, idom: seq<nat>, n: nat, r: nat)
    requires Tree(c, o, idom)
  {
    && Known(idom, r) && SharedByPreds(c, o, idom, n, r)
    && forall x: nat {:trigger SharedByPreds(c, o, idom, n, x)} ::
      SharedByPreds(c, o, idom, n, x) ==> OnChain(c, o, idom, x, r)
  }

  lemma StartChain(c: Cfg, o: Order, idom: seq<nat>, x: nat)
    requires Tree(c, o, idom) && OnChain(c, o, idom, x, c.start)
    ensures x == c.start
  {
  }

  lemma ChainsMeet(c: Cfg, o: Order, idom: seq<nat>, x: nat, y: nat)
    requires Tree(c, o, idom) && Known(idom, x) && Known(idom, y)
    requires OnChain(c, o, idom, x, y) && OnChain(c, o, idom, y, x)
    ensures x == y
  {
    ChainEarlier(c, o, idom, x, y);
    ChainEarlier(c, o, idom, y, x);
  }

  /** Next to Start: the first rung and the last. */
  lemma EndRung(c: Cfg, o: Order, idom: seq<nat>, k: nat, r: nat, b: nat)
    requires Tree(c, o, idom) && Ladder(c, o) && 0 < k < |o.nodes| && (k == 1 || k + 1 == |o.nodes|)
    requires NearestShared(c, o, idom, o.nodes[k], r)
    ensures r == RungEntry(o, k, b + 1)
  {
    assert RungAt(c, o, k) && RungArc(o, c.start, k);
    assert c.Arc(c.start, o.nodes[k]) && Known(idom, c.start);
    StartChain(c, o, idom, r);
  }

  /** The rung behind is not computed yet, or hangs on this one. */
  lemma LowerRung(c: Cfg, o: Order, idom: seq<nat>, k: nat, r: nat)
    requires Tree(c, o, idom) && Ladder(c, o) && 0 < k && k + 1 < |o.nodes| && NearestShared(c, o, idom, o.nodes[k], r)
    requires Known(idom, o.nodes[k - 1])
    requires !Known(idom, o.nodes[k + 1])
        || (OnChain(c, o, idom, o.nodes[k - 1], o.nodes[k + 1]))
    ensures r == o.nodes[k - 1]
  {
    var x := o.nodes[k - 1];
    assert RungAt(c, o, k) && RungArc(o, x, k);
    assert c.Arc(x, o.nodes[k]);
    assert SharedByPreds(c, o, idom, o.nodes[k], x);
    ChainsMeet(c, o, idom, x, r);
  }

  /** The rung behind hangs on Start already. */
  lemma UpperRung(c: Cfg, o: Order, idom: seq<nat>, k: nat, r: nat)
    requires Tree(c, o, idom) && Ladder(c, o) && 0 < k && k + 1 < |o.nodes| && NearestShared(c, o, idom, o.nodes[k], r)
    requires Known(idom, o.nodes[k - 1])
    requires o.nodes[k + 1] < |idom| && idom[o.nodes[k + 1]] == c.start
    ensures r == c.start
  {
    var x, y := o.nodes[k - 1], o.nodes[k + 1];
    assert RungAt(c, o, k) && RungArc(o, x, k) && RungArc(o, y, k);
    assert c.Arc(x, o.nodes[k]) && c.Arc(y, o.nodes[k]) && Known(idom, y);
    ChainEarlier(c, o, idom, r, x);
    assert r != y;
    StartChain(c, o, idom, r);
  }

  lemma MiddleRung(c: Cfg, o: Order, idom: seq<nat>, k: nat, r: nat, b: nat)
    requires Tree(c, o, idom) && Ladder(c, o) && 1 < k && k + 1 < |o.nodes| && Climbed(o, idom, b, k)
    requires NearestShared(c, o, idom, o.nodes[k], r)
    ensures r == RungEntry(o, k, b + 1)
  {
    var x, n, y := o.nodes[k - 1], o.nodes[k], o.nodes[k + 1];
    assert Known(idom, x) by { assert idom[x] == RungEntry(o, k - 1, b + 1); }
    assert idom[n] == RungEntry(o, k, b) && idom[y] == RungEntry(o, k + 1, b);
    if b > 0 && k + 1 + b >= |o.nodes| {
      UpperRung(c, o, idom, k, r);
    } else {
      if b > 0 {
        assert idom[y] == n && idom[n] == x && Climbs(o, idom, y) && Climbs(o, idom, n);
        assert OnChain(c, o, idom, x, n);
      }
      LowerRung(c, o, idom, k, r);
    }
  }

  /** Recording the nearest shared ancestor takes the round one rung further. */
  lemma RungClimbed(c: Cfg, o: Order, idom: seq<nat>, k: nat, r: nat, b: nat)
    requires Tree(c, o, idom) && 0 < k < |o.nodes| && ClimbedIfLadder(c, o, idom, b, k)
    requires NearestShared(c, o, idom, o.nodes[k], r)
    ensures ClimbedIfLadder(c, o, idom[o.nodes[k] := r], b, k + 1)
  {
    if Ladder(c, o) {
      if k == 1 || k + 1 == |o.nodes| { EndRung(c, o, idom, k, r, b); } else { MiddleRung(c, o, idom, k, r, b); }
      var after := idom[o.nodes[k] := r];
      forall j {:trigger o.nodes[j]} | 0 < j < |o.nodes|
        ensures o.nodes[j] < |after| && after[o.nodes[j]] == RungEntry(o, j, if j < k + 1 then b + 1 else b)
      {
        assert o.index[o.nodes[j]] == j && o.index[o.nodes[k]] == k;
        assert idom[o.nodes[j]] == RungEntry(o, j, if j < k then b + 1 else b);
      }
    }
  }

  lemma RoundClimbed(c: Cfg, o: Order, idom: seq<nat>, b: nat)
    requires ClimbedIfLadder(c, o, idom, b, |o.nodes|)
    ensures ClimbedIfLadder(c, o, idom, b + 1, 1)
  {
  }

  /** What a round has achieved on any graph, and on a ladder. */
  ghost predicate InRound(c: Cfg, o: Order, idom: seq<nat>, b: nat, i: nat) {
    MeetsTo(c, o, idom, b, i) && (b > 0 ==> AllKnown(o, idom)) && ClimbedIfLadder(c, o, idom, b, i)
  }

  lemma NextInRound(c: Cfg, o: Order, idom: seq<nat>, b: nat)
    requires InRound(c, o, idom, b, |o.nodes|) && AllKnown(o, idom)
    ensures InRound(c, o, idom, b + 1, 1)
  {
    NextRound(c, o, idom, b);
    RoundClimbed(c, o, idom, b);
  }

  /** Before the first round. */
  lemma NothingClimbed(c: Cfg, o: Order, idom: seq<nat>)
    requires Tree(c, o, idom) && forall n :: 0 <= n < |idom| && n != c.start ==> idom[n] == 0
    ensures ClimbedIfLadder(c, o, idom, 0, 1)
  {
    forall k {:trigger o.nodes[k]} | 0 < k < |o.nodes| ensures o.nodes[k] < |idom| && idom[o.nodes[k]] == 0 {
      assert o.index[o.nodes[k]] == k && o.index[o.nodes[0]] == 0;
    }
  }

  /** The way down from the last rung. */
  lemma {:induction false} WayDown(c: Cfg, o: Order, k: nat) returns (p: seq<nat>)
    requires Ladder(c, o) && 0 < k < |o.nodes|
    ensures c.PathTo(p, o.nodes[k]) && forall x :: x in p ==> x == c.start || (o.Has(x) && o.index[x] >= k)
    decreases |o.nodes| - k
  {
    assert RungAt(c, o, k);
    if k + 1 == |o.nodes| {
      assert RungArc(o, c.start, k);
      p := [c.start, o.nodes[k]];
    } else {
      var q := WayDown(c, o, k + 1);
      assert RungArc(o, o.nodes[k + 1], k);
      PathSnoc(c, q, o.nodes[k]);
      p := q + [o.nodes[k]];
    }
  }

  /** After fewer rounds than that, the first rung is still recorded for the second, which it does not dominate. */
  lemma TooFewRounds(c: Cfg, o: Order, idom: seq<nat>, b: nat)
    requires Tree(c, o, idom) && Ladder(c, o) && Climbed(o, idom, b, 1) && 0 < b && b + 2 < |o.nodes|
    ensures !Exact(c, o, idom)
  {
    var x, n := o.nodes[1], o.nodes[2];
    assert idom[n] == RungEntry(o, 2, b) == x && Climbs(o, idom, n);
    assert OnChain(c, o, idom, x, n);
    var p := WayDown(c, o, 2);
    assert o.index[x] == 1 && o.index[o.nodes[0]] == 0;
    assert !c.Dom(x, n);
    assert !ExactAt(c, o, idom, n);
  }

  /** After that many, Start is recorded for every rung. */
  lemma EnoughRounds(c: Cfg, o: Order, idom: seq<nat>, b: nat)
    requires Tree(c, o, idom) && Keeps(c, idom) && AllKnown(o, idom)
    requires Ladder(c, o) && Climbed(o, idom, b, 1) && 0 < b && |o.nodes| <= b + 2
    ensures Exact(c, o, idom)
  {
    forall i | 0 < i < |o.nodes| ensures StableAt(c, o, idom, o.nodes[i]) {
      assert idom[o.nodes[i]] == RungEntry(o, i, b) == c.start;
      forall p: nat | c.Arc(p, o.nodes[i]) && Known(idom, p) ensures OnChain(c, o, idom, c.start, p) {
        assert o.Has(p) && o.nodes[o.index[p]] == p;
        if p != c.start { assert Climbs(o, idom, p) && idom[p] == RungEntry(o, o.index[p], b); }
      }
    }
    StableIsExact(c, o, idom);
  }

  /** On a ladder, b rounds are enough exactly if it has at most b + 1 rungs. */
  lemma LadderExactIff(c: Cfg, o: Order, idom: seq<nat>, b: nat)
    requires Tree(c, o, idom) && Keeps(c, idom) && AllKnown(o, idom)
    requires Ladder(c, o) && ClimbedIfLadder(c, o, idom, b, 1) && 0 < b
    ensures Exact(c, o, idom) <==> |o.nodes| <= b + 2
  {
    if |o.nodes| <= b + 2 { EnoughRounds(c, o, idom, b); } else { TooFewRounds(c, o, idom, b); }
  }

  // ----- the order of a depth-first search -----

  /** Where an arc leads back, everything between its ends was found on the way from the one to the other. */
  ghost predicate Nested(c: Cfg, o: Order) {
    forall i, m {:trigger o.nodes[i], o.nodes[m]} :: 0 <= i < m < |o.nodes| && c.Arc(o.nodes[m], o.nodes[i]) ==>
      FoundBetween(c, o, i, m)
  }

  ghost predicate FoundBetween(c: Cfg, o: Order, i: nat, m: nat)
    requires i < m < |o.nodes|
  {
    forall l {:trigger FoundAfter(c, o, i, l)} :: i < l <= m ==> FoundAfter(c, o, i, l)
  }

  ghost predicate FoundAfter(c: Cfg, o: Order, i: nat, l: nat)
    requires i < l < |o.nodes|
  {
    exists j :: i <= j < l && c.Arc(o.nodes[j], o.nodes[l])
  }

  /** The arcs of a ladder with the rungs a. */
  predicate LadderArc(c: Cfg, a: seq<nat>, p: nat, n: nat) {
    exists k :: 0 <= k < |a| && n == a[k] && IntoRung(c, a, p, k)
  }

  predicate IntoRung(c: Cfg, a: seq<nat>, p: nat, k: nat)
    requires k < |a|
  {
    || (k > 0 && p == a[k - 1]) || (k + 1 < |a| && p == a[k + 1]) || ((k == 0 || k + 1 == |a|) && p == c.start)
  }

  ghost predicate LadderFlow(c: Cfg, a: seq<nat>) {
    && |a| > 0 && c.start !in a && (forall i, j :: 0 <= i < j < |a| ==> a[i] != a[j])
    && forall p: nat, n: nat :: c.Arc(p, n) <==> LadderArc(c, a, p, n)
  }

  function Mirrored(a: seq<nat>): (r: seq<nat>)
    ensures |r| == |a| && forall i :: 0 <= i < |a| ==> r[i] == a[|a| - 1 - i]
  {
    seq(|a|, i requires 0 <= i < |a| => a[|a| - 1 - i])
  }

  lemma MirrorFlow(c: Cfg, a: seq<nat>)
    requires LadderFlow(c, a)
    ensures LadderFlow(c, Mirrored(a))
  {
    var r := Mirrored(a);
    forall p: nat, n: nat ensures LadderArc(c, a, p, n) <==> LadderArc(c, r, p, n) {
      if LadderArc(c, a, p, n) {
        var k :| 0 <= k < |a| && n == a[k] && IntoRung(c, a, p, k);
        assert r[|a| - 1 - k] == n && IntoRung(c, r, p, |a| - 1 - k);
      }
      if LadderArc(c, r, p, n) {
        var k :| 0 <= k < |r| && n == r[k] && IntoRung(c, r, p, k);
        assert a[|a| - 1 - k] == n && IntoRung(c, a, p, |a| - 1 - k);
      }
    }
  }

  /** The first i rungs come first. */
  ghost predicate GoesUp(o: Order, a: seq<nat>, i: nat)
    requires i <= |a|
  {
    i < |o.nodes| && forall k :: 0 <= k < i ==> o.nodes[k + 1] == a[k]
  }

  lemma RungReached(c: Cfg, o: Order, a: seq<nat>, i: nat)
    requires o.Valid(c) && LadderFlow(c, a) && i < |a| && GoesUp(o, a, i)
    ensures o.Has(a[i]) && o.index[a[i]] > i
  {
    var p := if i == 0 then c.start else a[i - 1];
    assert IntoRung(c, a, p, i) && LadderArc(c, a, p, a[i]);
    assert o.nodes[i] == p && o.Has(p);
    assert c.Arc(p, a[i]);
    forall k | 0 <= k <= i ensures o.nodes[k] != a[i] {
      if k > 0 { assert o.nodes[k] == a[k - 1]; }
    }
    assert o.nodes[o.index[a[i]]] == a[i];
  }

  /** What comes next: the next rung, or the last one. */
  lemma NextOrLast(c: Cfg, o: Order, a: seq<nat>, i: nat)
    requires o.Valid(c) && LadderFlow(c, a) && i < |a| && GoesUp(o, a, i) && i + 1 < |o.nodes|
    ensures o.nodes[i + 1] == a[i] || o.nodes[i + 1] == a[|a| - 1]
  {
    assert o.EnteredEarlier(c, i + 1);
    var j :| 0 <= j < i + 1 && c.Arc(o.nodes[j], o.nodes[i + 1]);
    var p, n := o.nodes[j], o.nodes[i + 1];
    assert LadderArc(c, a, p, n);
    var k :| 0 <= k < |a| && n == a[k] && IntoRung(c, a, p, k);
    forall x | 0 <= x < i ensures n != a[x] { assert o.index[n] == i + 1 && o.index[o.nodes[x + 1]] == x + 1; }
    if j > 0 { assert p == a[j - 1]; }
  }

  lemma {:induction false} UpFromFirst(c: Cfg, o: Order, a: seq<nat>, i: nat)
    requires o.Valid(c) && Nested(c, o) && LadderFlow(c, a) && 1 < |o.nodes| && o.nodes[1] == a[0] && 0 < i <= |a|
    ensures GoesUp(o, a, i)
  {
    if i > 1 {
      UpFromFirst(c, o, a, i - 1);
      RungReached(c, o, a, i - 1);
      NextOrLast(c, o, a, i - 1);
      if o.nodes[i] != a[i - 1] { LastTooEarly(c, o, a, i - 1); }
    }
  }

  lemma IntoLast(c: Cfg, a: seq<nat>, i: nat)
    requires LadderFlow(c, a) && 0 < i < |a| && c.Arc(a[i - 1], a[|a| - 1])
    ensures i == |a| - 1
  {
    assert LadderArc(c, a, a[i - 1], a[|a| - 1]);
    var k :| 0 <= k < |a| && a[|a| - 1] == a[k] && IntoRung(c, a, a[i - 1], k);
    assert k == |a| - 1 && a[i - 1] == a[k - 1];
  }

  lemma Backwards(c: Cfg, o: Order, a: seq<nat>, i: nat, m: nat)
    requires Nested(c, o) && LadderFlow(c, a) && 0 < i < |a| && i + 1 <= m < |o.nodes|
    requires o.nodes[i] == a[i - 1] && o.nodes[m] == a[i]
    ensures c.Arc(o.nodes[i], o.nodes[i + 1])
  {
    assert IntoRung(c, a, a[i], i - 1) && LadderArc(c, a, a[i], a[i - 1]);
    assert c.Arc(o.nodes[m], o.nodes[i]);
    assert FoundBetween(c, o, i, m) && FoundAfter(c, o, i, i + 1);
  }

  /** The last rung does not come next, because the search would have had to turn back on the way. */
  lemma LastTooEarly(c: Cfg, o: Order, a: seq<nat>, i: nat)
    requires o.Valid(c) && Nested(c, o) && LadderFlow(c, a) && 0 < i < |a| && GoesUp(o, a, i) && i + 1 < |o.nodes|
    requires o.nodes[i + 1] == a[|a| - 1] && o.Has(a[i]) && o.index[a[i]] > i
    ensures o.nodes[i + 1] == a[i]
  {
    assert o.nodes[i] == a[i - 1];
    Backwards(c, o, a, i, o.index[a[i]]);
    IntoLast(c, a, i);
  }

  lemma OnlyRungs(c: Cfg, o: Order, a: seq<nat>, i: nat) returns (k: nat)
    requires o.Valid(c) && LadderFlow(c, a) && 0 < i < |o.nodes|
    ensures k < |a| && o.nodes[i] == a[k]
  {
    assert o.EnteredEarlier(c, i);
    var j :| 0 <= j < i && c.Arc(o.nodes[j], o.nodes[i]);
    assert LadderArc(c, a, o.nodes[j], o.nodes[i]);
    k :| 0 <= k < |a| && o.nodes[i] == a[k];
  }

  lemma OnePlace(c: Cfg, o: Order, i: nat, j: nat)
    requires o.Valid(c) && i < |o.nodes| && j < |o.nodes|
    ensures o.nodes[i] == o.nodes[j] ==> i == j
  {
    assert o.index[o.nodes[i]] == i && o.index[o.nodes[j]] == j;
  }

  /** All the way up the order is a ladder's. */
  lemma UpIsLadder(c: Cfg, o: Order, a: seq<nat>)
    requires o.Valid(c) && LadderFlow(c, a) && GoesUp(o, a, |a|)
    ensures |o.nodes| == |a| + 1 && Ladder(c, o)
  {
    if |o.nodes| > |a| + 1 {
      var k := OnlyRungs(c, o, a, |a| + 1);
      OnePlace(c, o, k + 1, |a| + 1);
    }
    forall k | 0 < k < |o.nodes| ensures RungAt(c, o, k) {
      forall p: nat ensures c.Arc(p, o.nodes[k]) <==> RungArc(o, p, k) {
        assert o.nodes[k] == a[k - 1];
        assert LadderArc(c, a, p, a[k - 1]) <==> IntoRung(c, a, p, k - 1);
      }
    }
  }

  /** A depth-first search climbs a ladder from one end or the other. */
  lemma SearchClimbs(c: Cfg, o: Order, a: seq<nat>)
    requires o.Valid(c) && Nested(c, o) && LadderFlow(c, a)
    ensures Ladder(c, o) && |o.nodes| == |a| + 1
  {
    assert GoesUp(o, a, 0);
    RungReached(c, o, a, 0);
    NextOrLast(c, o, a, 0);
    var b := a;
    if o.nodes[1] != a[0] {
      MirrorFlow(c, a);
      b := Mirrored(a);
    }
    UpFromFirst(c, o, b, |b|);
    UpIsLadder(c, o, b);
  }
}
