/** What the value-numbering scan makes of a graph, one merge after another: the same graph every time. */
module NumberingScans {
  import opened SeaOfNodes
  import opened Valuation
  import opened PassCore
  import opened DeadNodes
  import opened ValueNumbers

  /** A graph with the keys entered so far. */
  datatype Place = Place(s: Sea, seen: map<Key, nat>)

  ghost function NumberOne(p: Place, i: nat): Place
    requires p.s.HasSlice(i)
  {
    Place(Applied(p.s, i, MergePlan(p.s, p.seen, i)), SeenAfter(p.s, p.seen, i))
  }

  /** The (k+1)-st node is numbered as graph and keys were by then. */
  ghost predicate NumberMove(trace: seq<Place>, k: nat)
    requires k + 1 < |trace|
  {
    var p := trace[k];
    p.s.WellFormed() && k + 1 < |p.s.nodes| && trace[k + 1] == NumberOne(p, k + 1)
  }

  ghost predicate IsNumbering(trace: seq<Place>, s0: Sea, p: Place) {
    && |trace| > 0 && trace[0] == Place(s0, map[]) && trace[|trace| - 1] == p
    && forall k {:trigger NumberMove(trace, k)} :: 0 <= k < |trace| - 1 ==> NumberMove(trace, k)
  }

  /** The scan has numbered the nodes before i. */
  ghost predicate NumberedBefore(s0: Sea, s: Sea, seen: map<Key, nat>, i: nat) {
    exists trace :: IsNumbering(trace, s0, Place(s, seen)) && |trace| == i
  }

  /** All of them. */
  ghost predicate NumbersTo(s0: Sea, s: Sea) {
    exists seen :: NumberedBefore(s0, s, seen, |s.nodes|)
  }

  lemma NumberedFirst(s0: Sea)
    ensures NumberedBefore(s0, s0, map[], 1)
  {
    assert IsNumbering([Place(s0, map[])], s0, Place(s0, map[]));
  }

  lemma NumberedNext(s0: Sea, s: Sea, seen: map<Key, nat>, i: nat)
    requires s.WellFormed() && i < |s.nodes| && NumberedBefore(s0, s, seen, i)
    ensures NumberedBefore(s0, Applied(s, i, MergePlan(s, seen, i)), SeenAfter(s, seen, i), i + 1)
  {
    var p := Place(s, seen);
    var trace :| IsNumbering(trace, s0, p) && |trace| == i;
    var longer := trace + [NumberOne(p, i)];
    forall k | 0 <= k < |longer| - 1 ensures NumberMove(longer, k) {
      if k < |trace| - 1 { assert NumberMove(trace, k); }
    }
    assert IsNumbering(longer, s0, NumberOne(p, i)) && |longer| == i + 1;
  }

  lemma {:induction false} SamePlace(a: seq<Place>, b: seq<Place>, s0: Sea, p: Place, q: Place, k: nat)
    requires IsNumbering(a, s0, p) && IsNumbering(b, s0, q) && k < |a| && k < |b|
    ensures a[k] == b[k]
  {
    if k > 0 {
      SamePlace(a, b, s0, p, q, k - 1);
      assert NumberMove(a, k - 1) && NumberMove(b, k - 1);
    }
  }

  /** A scan that has come to the end cannot go on. */
  lemma NumberingEnds(a: seq<Place>, b: seq<Place>, s0: Sea, p: Place, q: Place)
    requires IsNumbering(a, s0, p) && IsNumbering(b, s0, q) && |a| == |p.s.nodes|
    ensures |b| <= |a|
  {
    if |a| < |b| {
      MoreNodes(b, s0, q, |a| - 1);
      SamePlace(a, b, s0, p, q, |a| - 1);
    }
  }

  lemma MoreNodes(trace: seq<Place>, s0: Sea, p: Place, k: nat)
    requires IsNumbering(trace, s0, p) && k + 1 < |trace|
    ensures k + 1 < |trace[k].s.nodes|
  {
    assert NumberMove(trace, k);
  }

  /** The scan is a function of the graph. */
  lemma NumbersOnce(s0: Sea, s: Sea, t: Sea)
    requires NumbersTo(s0, s) && NumbersTo(s0, t)
    ensures s == t
  {
    var x, y :| NumberedBefore(s0, s, x, |s.nodes|) && NumberedBefore(s0, t, y, |t.nodes|);
    var p, q := Place(s, x), Place(t, y);
    var a :| IsNumbering(a, s0, p) && |a| == |s.nodes|;
    var b :| IsNumbering(b, s0, q) && |b| == |t.nodes|;
    NumberingEnds(a, b, s0, p, q);
    NumberingEnds(b, a, s0, q, p);
    SamePlace(a, b, s0, p, q, |a| - 1);
  }

  /** Every entry is an earlier node under its present key. */
  ghost predicate Current(s: Sea, seen: map<Key, nat>, i: nat)
    requires s.WellFormed()
  {
    forall k :: k in seen ==> 0 < seen[k] < i && seen[k] < |s.nodes| && Numbered(s, seen[k]) && KeyOf(s, seen[k]) == k
  }

  lemma CurrentNext(s: Sea, seen: map<Key, nat>, i: nat)
    requires s.WellFormed() && NoDuplicates(s) && Current(s, seen, i) && 0 < i < |s.nodes|
    ensures MergePlan(s, seen, i).Keep? && Current(s, SeenAfter(s, seen, i), i + 1)
  {
  }

  lemma {:induction false} NothingMerged(trace: seq<Place>, s0: Sea, p: Place, k: nat)
    requires s0.WellFormed() && NoDuplicates(s0) && IsNumbering(trace, s0, p) && k < |trace|
    ensures trace[k].s == s0 && Current(s0, trace[k].seen, k + 1)
  {
    if k > 0 {
      NothingMerged(trace, s0, p, k - 1);
      assert NumberMove(trace, k - 1);
      CurrentNext(s0, trace[k - 1].seen, k);
    }
  }

  /** In a graph without duplicates it changes nothing. */
  lemma NumbersNothing(s0: Sea, s: Sea)
    requires s0.WellFormed() && NoDuplicates(s0) && NumbersTo(s0, s)
    ensures s == s0
  {
    var seen :| NumberedBefore(s0, s, seen, |s.nodes|);
    var trace :| IsNumbering(trace, s0, Place(s, seen)) && |trace| == |s.nodes|;
    NothingMerged(trace, s0, Place(s, seen), |trace| - 1);
  }

  /** The state of the scan when node i is next, with what it reports so far. */
  ghost predicate NumberingTo(ext: Ext, s0: Sea, s: Sea, rank: seq<nat>, seen: map<Key, nat>, i: nat, ctrl: set<nat>,
      r: PassResult) {
    && Numbering(ext, s0, s, rank, seen, i, ctrl) && s0.WellFormed() && Reported(s0, s, seen, i, r.changed)
    && NumberedBefore(s0, s, seen, i) && Tallies(s0, s, r)
  }
}
