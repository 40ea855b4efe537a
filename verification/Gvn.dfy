/** The value-numbering pass: one scan that merges each node into the first one with the same key. */
module Gvn {
  import opened SeaOfNodes
  import opened UsePool
  import opened UseLists
  import opened Int64
  import opened Valuation
  import opened Rewrites
  import opened PassCore
  import opened DeadNodes
  import opened Ascending
  import opened ValueNumbers
  import opened NumberingScans

  // ----- one merge -----

  /** The earlier node may rank as low as the one that is merged into it: it has the same operands. */
  function Lowered(rank: seq<nat>, c: nat, i: nat): seq<nat>
    requires c < |rank| && i < |rank|
  {
    rank[c := if rank[i] < rank[c] then rank[i] else rank[c]]
  }

  lemma LoweredSane(s: Sea, rank: seq<nat>, c: nat, i: nat, ctrl: set<nat>)
    requires Sane(s, rank) && c < |s.nodes| && i < |s.nodes|
    requires HonestAt(s, c, ctrl) && HonestAt(s, i, ctrl) && KeyOf(s, c) == KeyOf(s, i)
    ensures Sane(s, Lowered(rank, c, i))
  {
    var low := Lowered(rank, c, i);
    SameKeyData(s, c, i, ctrl);
    forall n | 0 <= n < |s.nodes| && IsValueKind(s.nodes[n].kind) ensures Above(s.Inputs(n), low, low[n]) {
      assert Above(s.Inputs(n), rank, rank[n]);
      if n == c { SameOperandsAbove(s, rank, c, i); }
    }
  }

  lemma SameOperandsAbove(s: Sea, rank: seq<nat>, c: nat, i: nat)
    requires Sane(s, rank) && c < |s.nodes| && i < |s.nodes| && IsValueKind(s.nodes[i].kind)
    requires multiset(DataOf(s, c)) == multiset(DataOf(s, i))
    ensures Above(s.Inputs(c), rank, rank[i])
  {
    var es := s.Inputs(c);
    assert Above(s.Inputs(i), rank, rank[i]);
    forall j | 0 <= j < |es| && es[j].kind == Data ensures es[j].target < |rank| && rank[es[j].target] < rank[i] {
      var x := es[j].target;
      OfKindMembers(es, Data, x);
      assert x in multiset(DataOf(s, c)) && x in DataOf(s, i);
      OfKindMembers(s.Inputs(i), Data, x);
    }
  }

  lemma MergeOk(ext: Ext, s: Sea, rank: seq<nat>, seen: map<Key, nat>, i: nat, ctrl: set<nat>) returns (low: seq<nat>)
    requires Sane(s, rank) && Honest(s, ctrl) && SeenOk(s, seen, i) && i < |s.nodes|
    ensures Sane(s, low) && PlanOk(ext, s, low, i, MergePlan(s, seen, i), [])
  {
    low := rank;
    var k := KeyOf(s, i);
    if Numbered(s, i) && k in seen {
      var c := seen[k];
      assert SeenAt(s, k, c, i);
      LiveKeyFresh(s, i);
      assert HonestAt(s, i, ctrl) && HonestAt(s, c, ctrl);
      low := Lowered(rank, c, i);
      LoweredSane(s, rank, c, i, ctrl);
      SameKeySameValue(ext, s, i, c, ctrl);
      assert low + [] == low;
      PlanIntro(ext, s, low, i, [], c, 0, [], s);
    }
  }

  lemma MergedSeen(s: Sea, rank: seq<nat>, seen: map<Key, nat>, i: nat)
    requires Sane(s, rank) && SeenOk(s, seen, i) && 0 < i < |s.nodes|
    ensures Applied(s, i, MergePlan(s, seen, i)).WellFormed()
    ensures SeenOk(Applied(s, i, MergePlan(s, seen, i)), SeenAfter(s, seen, i), i + 1)
  {
    var t := Applied(s, i, MergePlan(s, seen, i));
    if MergePlan(s, seen, i).Rewrite? {
      var c := seen[KeyOf(s, i)];
      assert SeenAt(s, KeyOf(s, i), c, i);
      ReplaceWired(s, i, c);
      SeenKept(s, seen, i, c);
      forall k | k in seen ensures SeenAt(t, k, seen[k], i + 1) { assert SeenAt(t, k, seen[k], i); }
    } else {
      var after := SeenAfter(s, seen, i);
      forall k | k in after ensures SeenAt(s, k, after[k], i + 1) {
        if k in seen { assert SeenAt(s, k, seen[k], i); }
      }
    }
  }

  lemma MergedHonest(s: Sea, i: nat, c: nat, ctrl: set<nat>)
    requires DataWired(s) && i < |s.nodes| && c < |s.nodes| && Honest(s, ctrl) && i !in ctrl && c !in ctrl
    ensures DataWired(Replaced(s, i, c)) && Honest(Replaced(s, i, c), ctrl)
  {
    var t := Replaced(s, i, c);
    ReplaceWired(s, i, c);
    forall n | 0 <= n < |t.nodes| && Numbered(t, n) ensures HonestAt(t, n, ctrl) {
      ReplacedInputs(s, i, c, n);
      assert HonestAt(s, n, ctrl);
      RedirectedCount(s.Inputs(n), i, c, Data);
    }
  }

  lemma {:induction false} RedirectedCount(es: seq<Edge>, a: nat, b: nat, kind: EdgeKind)
    ensures |OfKind(RedirectEdges(es, a, b), kind)| == |OfKind(es, kind)|
  {
    if |es| > 0 {
      assert RedirectEdges(es, a, b)[1..] == RedirectEdges(es[1..], a, b);
      RedirectedCount(es[1..], a, b, kind);
    }
  }

  lemma MergedEntered(s: Sea, rank: seq<nat>, seen: map<Key, nat>, i: nat)
    requires Sane(s, rank) && SeenOk(s, seen, i) && 0 < i < |s.nodes| && TopoSorted(s) && AllEntered(s, seen, i)
    ensures var t := Applied(s, i, MergePlan(s, seen, i));
      t.WellFormed() && TopoSorted(t) && AllEntered(t, SeenAfter(s, seen, i), i + 1)
  {
    var t, after := Applied(s, i, MergePlan(s, seen, i)), SeenAfter(s, seen, i);
    var merged := MergePlan(s, seen, i).Rewrite?;
    if merged {
      var c := seen[KeyOf(s, i)];
      assert SeenAt(s, KeyOf(s, i), c, i);
      ReplaceWired(s, i, c);
      TopoReplaced(s, i, c);
    }
    forall n | 0 < n < i + 1 && n < |t.nodes| && Numbered(t, n) ensures Entered(t, after, n) {
      if n < i {
        assert Entered(s, seen, n);
        if merged {
          assert InOrder(s, n);
          KeyKept(s, i, seen[KeyOf(s, i)], n);
        }
      }
    }
  }

  /** Merging leaves a calm graph calm: the other node comes first and is a constant if this one is. */
  lemma MergedCalm(s: Sea, seen: map<Key, nat>, i: nat)
    requires DataWired(s) && LiveInputs(s) && IsCalm(s) && SeenOk(s, seen, i) && 0 < i < |s.nodes|
    ensures IsCalm(Applied(s, i, MergePlan(s, seen, i)))
  {
    var plan := MergePlan(s, seen, i);
    if plan.Rewrite? {
      assert SeenAt(s, KeyOf(s, i), plan.to, i);
      LiveKeyFresh(s, i);
      assert KeyOf(s, plan.to) == KeyOf(s, i);
      assert IsConstant(s, plan.to) <==> IsConstant(s, i);
    }
    PlanCalm(s, i, plan);
  }

  lemma NumberingStep(ext: Ext, s0: Sea, s: Sea, rank: seq<nat>, seen: map<Key, nat>, i: nat, ctrl: set<nat>)
      returns (low: seq<nat>)
    requires Numbering(ext, s0, s, rank, seen, i, ctrl) && 0 < i < |s.nodes| < NO_NODE
    ensures PlanOk(ext, s, low, i, MergePlan(s, seen, i), [])
    ensures Numbering(ext, s0, Applied(s, i, MergePlan(s, seen, i)), low, SeenAfter(s, seen, i), i + 1, ctrl)
  {
    var plan := MergePlan(s, seen, i);
    low := MergeOk(ext, s, rank, seen, i, ctrl);
    PlanProgress(ext, s0, s, low, i, plan, []);
    assert low + [] == low;
    MergedSeen(s, rank, seen, i);
    if plan.Rewrite? {
      assert SeenAt(s, KeyOf(s, i), plan.to, i);
      assert HonestAt(s, i, ctrl) && HonestAt(s, plan.to, ctrl);
      MergedHonest(s, i, plan.to, ctrl);
    }
    if TopoSorted(s0) { MergedEntered(s, rank, seen, i); }
    if IsCalm(s0) { MergedCalm(s, seen, i); }
  }

  lemma NumberingStart(ext: Ext, s0: Sea, rank0: seq<nat>, ctrl: set<nat>)
    requires Sane(s0, rank0) && Honest(s0, ctrl)
    ensures Numbering(ext, s0, s0, rank0, map[], 1, ctrl)
  {
    RefinesSelf(ext, s0);
  }

  lemma MergeTallied(s0: Sea, s: Sea, seen: map<Key, nat>, i: nat, a: PassResult, b: PassResult)
    requires s.WellFormed() && i < |s.nodes| && Tallies(s0, s, a)
    requires b == if MergePlan(s, seen, i).Rewrite? then PassResult(true, a.removed + 1, a.added) else a
    ensures Tallies(s0, Applied(s, i, MergePlan(s, seen, i)), b)
  {
    AppliedTallied(s, i, MergePlan(s, seen, i));
    TallyNext(s0, s, Applied(s, i, MergePlan(s, seen, i)), a, b, MergePlan(s, seen, i));
  }

  method NumberAt(g: Graph, seen: map<Key, nat>, i: nat, r: PassResult, ghost ext: Ext, ghost s0: Sea,
                  ghost low: seq<nat>)
    returns (r': PassResult, after: map<Key, nat>)
    requires Tallies(s0, g.View(), r)
    requires g.Valid() && i < |g.nodes| && PlanOk(ext, g.View(), low, i, MergePlan(g.View(), seen, i), [])
    modifies g
    ensures g.Valid() && g.View() == Applied(old(g.View()), i, MergePlan(old(g.View()), seen, i))
    ensures r' == if MergePlan(old(g.View()), seen, i).Rewrite? then PassResult(true, r.removed + 1, r.added) else r
    ensures Tallies(s0, g.View(), r')
    ensures after == SeenAfter(old(g.View()), seen, i) && |g.uses| <= old(|g.uses|) && |g.edges| == old(|g.edges|)
  {
    var plan := MergePlan(g.View(), seen, i);
    PlanInGraph(ext, g.View(), low, i, plan, []);
    after := SeenAfter(g.View(), seen, i);
    r' := if plan.Rewrite? then PassResult(true, r.removed + 1, r.added) else r;
    MergeTallied(s0, g.View(), seen, i, r, r');
    Apply(g, i, plan);
  }

  method NumberNext(g: Graph, seen: map<Key, nat>, i: nat, r: PassResult,
                    ghost ext: Ext, ghost s0: Sea, ghost rank: seq<nat>, ghost ctrl: set<nat>)
    returns (ghost low: seq<nat>, after: map<Key, nat>, r': PassResult)
    requires g.Valid() && NumberingTo(ext, s0, g.View(), rank, seen, i, ctrl, r) && 0 < i < |g.nodes| < NO_NODE
    modifies g
    ensures g.Valid() && NumberingTo(ext, s0, g.View(), low, after, i + 1, ctrl, r')
    ensures |g.nodes| == old(|g.nodes|) && |g.uses| <= old(|g.uses|) && |g.edges| == old(|g.edges|)
  {
    low := NumberingStep(ext, s0, g.View(), rank, seen, i, ctrl);
    ReportNext(s0, g.View(), seen, i, r.changed);
    NumberedNext(s0, g.View(), seen, i);
    r', after := NumberAt(g, seen, i, r, ext, s0, low);
  }

  /** The scan, merging each node into an earlier one with its key. */
  method NumberAll(g: Graph, ghost ext: Ext, ghost s0: Sea, ghost rank0: seq<nat>, ghost ctrl: set<nat>)
    returns (r: PassResult, ghost rank: seq<nat>, ghost seen: map<Key, nat>)
    requires g.Valid() && |g.nodes| < NO_NODE
    requires NumberingTo(ext, s0, g.View(), rank0, map[], 1, ctrl, PassResult(false, 0, 0))
    modifies g
    ensures g.Valid() && NumberingTo(ext, s0, g.View(), rank, seen, |g.nodes|, ctrl, r)
    ensures |g.nodes| == old(|g.nodes|) && |g.uses| <= old(|g.uses|) && |g.edges| == old(|g.edges|)
  {
    rank := rank0;
    r := PassResult(false, 0, 0);
    var table: map<Key, nat> := map[];
    var i := 1;
    ghost var n := |g.nodes|;
    while i < |g.nodes|
      invariant g.Valid() && NumberingTo(ext, s0, g.View(), rank, table, i, ctrl, r) && 0 < i <= n
      invariant |g.nodes| == n && |g.uses| <= old(|g.uses|) && |g.edges| == old(|g.edges|)
      decreases n - i
    {
      rank, table, r := NumberNext(g, table, i, r, ext, s0, rank, ctrl);
      i := i + 1;
    }
    assert i == n;
    seen := table;
  }

  /** Merging keeps every value, whatever order the scan meets the nodes in. If inputs come before their users,
      one run reaches the normal form; a run on a graph in normal form changes nothing. */
  method NumberValues(g: Graph, ghost ext: Ext, ghost rank0: seq<nat>, ghost ctrl: set<nat>)
      returns (r: PassResult, ghost rank: seq<nat>)
    requires g.Valid() && |g.nodes| < NO_NODE && Sane(g.View(), rank0) && Honest(g.View(), ctrl)
    modifies g
    ensures g.Valid() && Progress(ext, old(g.View()), g.View(), rank) && Honest(g.View(), ctrl)
    ensures NumbersTo(old(g.View()), g.View())
    ensures |g.nodes| == old(|g.nodes|) && |g.uses| <= old(|g.uses|) && |g.edges| == old(|g.edges|)
    ensures r.changed <==> old(!NoDuplicates(g.View()))
    ensures !r.changed ==> g.View() == old(g.View())
    ensures Tallies(old(g.View()), g.View(), r)
    ensures old(TopoSorted(g.View())) ==> NoDuplicates(g.View())
    ensures old(IsCalm(g.View())) ==> IsCalm(g.View())
  {
    ghost var s0 := g.View();
    NumberingStart(ext, s0, rank0, ctrl);
    TallyStart(s0);
    NumberedFirst(s0);
    ghost var seen;
    r, rank, seen := NumberAll(g, ext, s0, rank0, ctrl);
    ReportEnd(s0, g.View(), seen, r.changed);
    assert NumberedBefore(s0, g.View(), seen, |g.View().nodes|);
    if TopoSorted(s0) { AllEnteredDistinct(g.View(), seen); }
  }
}
