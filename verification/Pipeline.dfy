/** The optimizing pipeline on straight-line integer code: each pass once, then again until nothing changes or
    the budget of rounds is spent. */
module Pipeline {
  import opened SeaOfNodes
  import opened UsePool
  import opened UseLists
  import opened Valuation
  import opened Rewrites
  import opened PassCore
  import opened DeadNodes
  import opened FoldPasses
  import opened StrengthReduction
  import opened ScanBudget
  import opened ScanPasses
  import opened ValueNumbers
  import opened NumberingScans
  import opened Gvn
  import opened CleanupPasses
  import opened Ascending

  /** Straight-line code that stays within the 32-bit tables and the 16-bit counters whatever the passes do:
      no run of the pipeline can exceed the potential of the graph it started from. */
  ghost predicate Ready(s: Sea, uses: nat, rank: seq<nat>) {
    && Sane(s, rank) && Tame(s) && (s.stop == NO_NODE || s.stop < |s.nodes|)
    && Potential(s) + 2 < NO_NODE
    && uses + 2 * Potential(s) - 2 * |s.nodes| + 4 < NIL
    && |s.edges| + 2 * Potential(s) - 2 * |s.nodes| < COUNT_MOD
  }

  ghost predicate PassOk(ext: Ext, s: Sea, uses: nat, t: Sea, uses': nat, rank: seq<nat>) {
    && Advances(ext, s, t, rank) && Potential(t) <= Potential(s) && (IsCalm(s) ==> IsCalm(t))
    && uses' - 2 * |t.nodes| <= uses - 2 * |s.nodes| && |t.edges| - 2 * |t.nodes| <= |s.edges| - 2 * |s.nodes|
  }

  lemma PassKeepsReady(ext: Ext, s: Sea, uses: nat, rank: seq<nat>, t: Sea, uses': nat, rank': seq<nat>)
    requires Ready(s, uses, rank) && PassOk(ext, s, uses, t, uses', rank')
    ensures Ready(t, uses', rank')
  {
  }

  lemma PassOkTransitive(ext: Ext, s: Sea, u: nat, t: Sea, u': nat, r: Sea, u'': nat, rank': seq<nat>, rank'': seq<nat>)
    requires PassOk(ext, s, u, t, u', rank') && PassOk(ext, t, u', r, u'', rank'')
    ensures PassOk(ext, s, u, r, u'', rank'')
  {
    AdvancesTransitive(ext, s, t, r, rank', rank'');
  }

  lemma PassOkSelf(ext: Ext, s: Sea, u: nat, rank: seq<nat>)
    requires Sane(s, rank)
    ensures PassOk(ext, s, u, s, u, rank)
  {
    RefinesSelf(ext, s);
  }

  // ----- straight-line code meets the passes' preconditions -----

  lemma TameHonest(s: Sea)
    requires s.WellFormed() && Tame(s)
    ensures Honest(s, {})
  {
    forall n | 0 <= n < |s.nodes| && Numbered(s, n) ensures HonestAt(s, n, {}) {
      assert TameAt(s, n);
      AllData(s.Inputs(n));
    }
  }

  lemma TameExact(ext: Ext, s: Sea)
    requires DataWired(s) && Tame(s)
    ensures ExactDivs(ext, s)
  {
    forall n | 0 <= n < |s.nodes| ensures ExactDivAt(ext, s, n) { assert TameAt(s, n); }
  }

  lemma FewEdges(s: Sea)
    requires |s.edges| < COUNT_MOD
    ensures NoneWrapped(s)
  {
    forall n: nat | EdgeCount(s.edges, n) > 0 ensures EdgeCount(s.edges, n) % 0x1_0000 != 0 {
      EdgeCountBound(s.edges, n);
    }
  }

  /** A pass that only marks nodes dead or redirects edges does not raise the potential. */
  lemma SameSizePassOk(ext: Ext, s: Sea, u: nat, t: Sea, rank: seq<nat>)
    requires Advances(ext, s, t, rank) && |t.nodes| == |s.nodes| && |t.edges| == |s.edges| && (IsCalm(s) ==> IsCalm(t))
    ensures PassOk(ext, s, u, t, u, rank)
  {
    CostKilled(s.nodes, t.nodes);
  }

  // ----- the passes -----

  datatype PassId = Numbering | Folding(rule: Rule) | Pruning | DeadCode

  /** The order of the passes that can change straight-line code. */
  const PASSES: seq<PassId> := [Numbering, Folding(FoldConstants), Folding(SimplifyAlgebra), Folding(FoldComparisons),
                                Folding(ReduceStrength), Pruning, DeadCode]

  /** The pass finds nothing to do. */
  ghost predicate Idle(pass: PassId, s: Sea)
    requires s.WellFormed()
  {
    match pass
    case Numbering => NoDuplicates(s)
    case Folding(rule) => !Fires(rule, s)
    case Pruning => s.start == NO_NODE || Pruned(s) == {}
    case DeadCode => Unused(s) == {}
  }

  /** What the pass makes of s. */
  ghost predicate PassDoes(pass: PassId, s: Sea, t: Sea)
    requires s.WellFormed() && t.WellFormed()
  {
    match pass
    case Numbering => NumbersTo(s, t) && (TopoSorted(s) ==> NoDuplicates(t))
    case Folding(rule) => ScansTo(rule, s, t)
    case Pruning => t == if s.start == NO_NODE then s else Swept(s, Pruned(s))
    case DeadCode => t == Swept(s, Unused(s))
  }

  /** One pass on s: sound, effective, and reporting a change exactly if there was something to do. */
  ghost predicate PassRun(ext: Ext, pass: PassId, s: Sea, uses: nat, t: Sea, uses': nat, rank: seq<nat>,
      changed: bool) {
    && PassOk(ext, s, uses, t, uses', rank) && s.WellFormed() && t.WellFormed() && PassDoes(pass, s, t)
    && (changed <==> !Idle(pass, s)) && (!changed ==> t == s)
  }

  method RunPass(g: Graph, pass: PassId, ghost ext: Ext, ghost rank0: seq<nat>)
      returns (r: PassResult, ghost rank: seq<nat>)
    requires g.Valid() && Ready(g.View(), |g.uses|, rank0)
    modifies g
    ensures g.Valid() && PassRun(ext, pass, old(g.View()), old(|g.uses|), g.View(), |g.uses|, rank, r.changed)
    ensures Tallies(old(g.View()), g.View(), r)
  {
    match pass
    case Numbering => r, rank := RunNumbering(g, ext, rank0);
    case Folding(rule) => r, rank := RunFolding(g, rule, ext, rank0);
    case Pruning => r, rank := RunPruning(g, ext, rank0);
    case DeadCode => r, rank := RunDeadCode(g, ext, rank0);
  }

  lemma NumberingRun(ext: Ext, s: Sea, u: nat, t: Sea, u': nat, rank: seq<nat>, changed: bool)
    requires Advances(ext, s, t, rank) && |t.nodes| == |s.nodes| && |t.edges| == |s.edges| && u' <= u
    requires s.WellFormed() && t.WellFormed() && (changed <==> !NoDuplicates(s)) && (!changed ==> t == s)
    requires NumbersTo(s, t) && (TopoSorted(s) ==> NoDuplicates(t)) && (IsCalm(s) ==> IsCalm(t))
    ensures PassRun(ext, Numbering, s, u, t, u', rank, changed)
  {
    SameSizePassOk(ext, s, u, t, rank);
  }

  lemma FoldingRun(ext: Ext, rule: Rule, s: Sea, u: nat, t: Sea, u': nat, rank: seq<nat>, changed: bool)
    requires Advances(ext, s, t, rank) && ScansTo(rule, s, t) && Potential(t) <= Potential(s)
    requires u' - 2 * |t.nodes| <= u - 2 * |s.nodes| && |t.edges| - 2 * |t.nodes| <= |s.edges| - 2 * |s.nodes|
    requires s.WellFormed() && t.WellFormed() && (changed <==> Fires(rule, s)) && (!changed ==> t == s)
    ensures PassRun(ext, Folding(rule), s, u, t, u', rank, changed)
  {
    if IsCalm(s) { ScannedCalm(rule, s, t); }
  }

  method RunNumbering(g: Graph, ghost ext: Ext, ghost rank0: seq<nat>) returns (r: PassResult, ghost rank: seq<nat>)
    requires g.Valid() && Ready(g.View(), |g.uses|, rank0)
    modifies g
    ensures g.Valid() && PassRun(ext, Numbering, old(g.View()), old(|g.uses|), g.View(), |g.uses|, rank, r.changed)
    ensures Tallies(old(g.View()), g.View(), r)
  {
    ghost var s, u := g.View(), |g.uses|;
    TameHonest(s);
    PotentialBound(s);
    r, rank := NumberValues(g, ext, rank0, {});
    NumberingRun(ext, s, u, g.View(), |g.uses|, rank, r.changed);
  }

  method RunFolding(g: Graph, rule: Rule, ghost ext: Ext, ghost rank0: seq<nat>)
      returns (r: PassResult, ghost rank: seq<nat>)
    requires g.Valid() && Ready(g.View(), |g.uses|, rank0)
    modifies g
    ensures g.Valid() && PassRun(ext, Folding(rule), old(g.View()), old(|g.uses|), g.View(), |g.uses|, rank, r.changed)
    ensures Tallies(old(g.View()), g.View(), r)
  {
    ghost var s, u := g.View(), |g.uses|;
    TameExact(ext, s);
    r, rank := Scan(g, rule, ext, rank0);
    FoldingRun(ext, rule, s, u, g.View(), |g.uses|, rank, r.changed);
  }

  method RunPruning(g: Graph, ghost ext: Ext, ghost rank0: seq<nat>) returns (r: PassResult, ghost rank: seq<nat>)
    requires g.Valid() && Ready(g.View(), |g.uses|, rank0)
    modifies g
    ensures g.Valid() && PassRun(ext, Pruning, old(g.View()), old(|g.uses|), g.View(), |g.uses|, rank, r.changed)
    ensures Tallies(old(g.View()), g.View(), r)
  {
    ghost var s, u := g.View(), |g.uses|;
    PotentialBound(s);
    PruneAdvances(ext, s, rank0);
    r := PruneUnreachable(g);
    rank := rank0;
    if IsCalm(s) { SweptCalm(s, Pruned(s)); }
    SameSizePassOk(ext, s, u, g.View(), rank);
    if !r.changed { SweptNothing(s); }
    if g.start != NO_NODE { SweptTallied(s, Pruned(s)); }
  }

  lemma SweptNothing(s: Sea)
    ensures Swept(s, {}) == s
  {
    assert Swept(s, {}).nodes == s.nodes;
  }

  method RunDeadCode(g: Graph, ghost ext: Ext, ghost rank0: seq<nat>) returns (r: PassResult, ghost rank: seq<nat>)
    requires g.Valid() && Ready(g.View(), |g.uses|, rank0)
    modifies g
    ensures g.Valid() && PassRun(ext, DeadCode, old(g.View()), old(|g.uses|), g.View(), |g.uses|, rank, r.changed)
    ensures Tallies(old(g.View()), g.View(), r)
  {
    ghost var s, u := g.View(), |g.uses|;
    PotentialBound(s);
    FewEdges(s);
    DeadCodeAdvances(ext, s, rank0);
    r := EliminateDeadCode(g);
    rank := rank0;
    if IsCalm(s) { SweptCalm(s, Unused(s)); }
    SameSizePassOk(ext, s, u, g.View(), rank);
    if !r.changed { SweptNothing(s); }
    SweptTallied(s, Unused(s));
  }

  function Joined(a: PassResult, b: PassResult): PassResult {
    PassResult(a.changed || b.changed, a.removed + b.removed, a.added + b.added)
  }

  // ----- rounds of passes -----

  ghost predicate IdleAt(passes: seq<PassId>, s: Sea, k: nat)
    requires s.WellFormed() && k < |passes|
  {
    Idle(passes[k], s)
  }

  /** None of the passes finds anything to do. */
  ghost predicate AllIdle(passes: seq<PassId>, s: Sea)
    requires s.WellFormed()
  {
    forall k {:trigger IdleAt(passes, s, k)} :: 0 <= k < |passes| ==> IdleAt(passes, s, k)
  }

  ghost predicate RoundMove(passes: seq<PassId>, trace: seq<Sea>, k: nat)
    requires k + 1 < |trace| && k < |passes|
  {
    trace[k].WellFormed() && trace[k + 1].WellFormed() && PassDoes(passes[k], trace[k], trace[k + 1])
  }

  /** The graphs between the first |trace| - 1 passes of a round. */
  ghost predicate IsRound(passes: seq<PassId>, trace: seq<Sea>, s: Sea, t: Sea) {
    && 0 < |trace| <= |passes| + 1 && trace[0] == s && trace[|trace| - 1] == t
    && forall k {:trigger RoundMove(passes, trace, k)} :: 0 <= k < |trace| - 1 ==> RoundMove(passes, trace, k)
  }

  /** After the first k passes of a round that started from s. */
  ghost predicate MidRound(ext: Ext, passes: seq<PassId>, s: Sea, uses0: nat, t: Sea, uses: nat, rank: seq<nat>,
      trace: seq<Sea>,
                           k: nat, changed: bool) {
    && PassOk(ext, s, uses0, t, uses, rank) && s.WellFormed()
    && IsRound(passes, trace, s, t) && |trace| == k + 1
    && (changed ==> !AllIdle(passes, s))
    && (!changed ==> t == s && forall j {:trigger IdleAt(passes, s, j)} :: 0 <= j < k && j < |passes| ==>
        IdleAt(passes, s, j))
  }

  lemma RoundStart(ext: Ext, passes: seq<PassId>, s: Sea, uses: nat, rank: seq<nat>)
    requires Sane(s, rank)
    ensures MidRound(ext, passes, s, uses, s, uses, rank, [s], 0, false)
  {
    PassOkSelf(ext, s, uses, rank);
  }

  lemma MoveIs(passes: seq<PassId>, trace: seq<Sea>, k: nat, t: Sea, u: Sea)
    requires k + 1 < |trace| && k < |passes| && trace[k] == t && trace[k + 1] == u
    requires t.WellFormed() && u.WellFormed() && PassDoes(passes[k], t, u)
    ensures RoundMove(passes, trace, k)
  {
  }

  lemma SameMove(passes: seq<PassId>, a: seq<Sea>, b: seq<Sea>, k: nat)
    requires k + 1 < |a| <= |b| && k < |passes| && a[k] == b[k] && a[k + 1] == b[k + 1] && RoundMove(passes, a, k)
    ensures RoundMove(passes, b, k)
  {
    MoveIs(passes, b, k, a[k], a[k + 1]);
  }

  lemma MoveExtends(passes: seq<PassId>, trace: seq<Sea>, u: Sea, k: nat)
    requires 0 < |trace| <= |passes| && k < |trace| && (k < |trace| - 1 ==> RoundMove(passes, trace, k))
    requires trace[|trace| - 1].WellFormed() && u.WellFormed() && PassDoes(passes[|trace| - 1], trace[|trace| - 1], u)
    ensures RoundMove(passes, trace + [u], k)
  {
    var longer := trace + [u];
    assert longer[k] == trace[k];
    if k < |trace| - 1 {
      SameMove(passes, trace, longer, k);
    } else {
      MoveIs(passes, longer, k, trace[k], u);
    }
  }

  lemma RoundExtends(passes: seq<PassId>, trace: seq<Sea>, s: Sea, t: Sea, u: Sea)
    requires IsRound(passes, trace, s, t) && |trace| <= |passes|
    requires t.WellFormed() && u.WellFormed() && PassDoes(passes[|trace| - 1], t, u)
    ensures IsRound(passes, trace + [u], s, u)
  {
    var longer := trace + [u];
    assert longer[0] == s && longer[|longer| - 1] == u;
    forall k | 0 <= k < |longer| - 1 ensures RoundMove(passes, longer, k) {
      if k < |trace| - 1 { assert RoundMove(passes, trace, k); }
      MoveExtends(passes, trace, u, k);
    }
  }

  lemma RoundNext(ext: Ext, passes: seq<PassId>, s: Sea, uses0: nat, t: Sea, uses: nat, rank: seq<nat>,
      trace: seq<Sea>, k: nat,
                  changed: bool, u: Sea, uses': nat, rank': seq<nat>, now: bool)
    requires MidRound(ext, passes, s, uses0, t, uses, rank, trace, k, changed) && k < |passes|
    requires PassRun(ext, passes[k], t, uses, u, uses', rank', now)
    ensures MidRound(ext, passes, s, uses0, u, uses', rank', trace + [u], k + 1, changed || now)
  {
    PassOkTransitive(ext, s, uses0, t, uses, u, uses', rank, rank');
    RoundExtends(passes, trace, s, t, u);
    if !changed && now { assert !IdleAt(passes, s, k); }
  }

  /** Runs the given passes once, each on what the one before it left. A change is reported exactly if some pass
      had something to do at the start. */
  method RunOnce(g: Graph, passes: seq<PassId>, ghost ext: Ext, ghost rank0: seq<nat>)
    returns (total: PassResult, ghost rank: seq<nat>, ghost trace: seq<Sea>)
    requires g.Valid() && Ready(g.View(), |g.uses|, rank0)
    modifies g
    ensures g.Valid() && PassOk(ext, old(g.View()), old(|g.uses|), g.View(), |g.uses|, rank)
    ensures IsRound(passes, trace, old(g.View()), g.View()) && |trace| == |passes| + 1
    ensures total.changed <==> !AllIdle(passes, old(g.View()))
    ensures Tallies(old(g.View()), g.View(), total)
    ensures !total.changed ==> g.View() == old(g.View())
  {
    ghost var s, u := g.View(), |g.uses|;
    total, rank, trace := PassResult(false, 0, 0), rank0, [s];
    RoundStart(ext, passes, s, u, rank0);
    TallyStart(s);
    var k := 0;
    while k < |passes|
      invariant g.Valid() && 0 <= k <= |passes| && MidRound(ext, passes, s, u, g.View(), |g.uses|, rank, trace, k,
          total.changed)
      invariant Tallies(s, g.View(), total)
    {
      PassKeepsReady(ext, s, u, rank0, g.View(), |g.uses|, rank);
      ghost var t, v, rankT := g.View(), |g.uses|, rank;
      var r;
      r, rank := RunPass(g, passes[k], ext, rank);
      RoundNext(ext, passes, s, u, t, v, rankT, trace, k, total.changed, g.View(), |g.uses|, rank, r.changed);
      trace := trace + [g.View()];
      TallyJoins(s, t, g.View(), total, r, Joined(total, r));
      total := Joined(total, r);
      k := k + 1;
    }
    assert k == |passes|;
  }

  /** One round leads from s to t. */
  ghost predicate RoundTo(passes: seq<PassId>, s: Sea, t: Sea) {
    exists trace :: IsRound(passes, trace, s, t) && |trace| == |passes| + 1
  }

  ghost predicate Repeats(passes: seq<PassId>, trace: seq<Sea>, k: nat)
    requires k + 1 < |trace|
  {
    trace[k].WellFormed() && !AllIdle(passes, trace[k]) && RoundTo(passes, trace[k], trace[k + 1])
  }

  /** The graphs between rounds, each of which had something to do. */
  ghost predicate AreRounds(passes: seq<PassId>, trace: seq<Sea>, s: Sea, t: Sea) {
    && |trace| > 0 && trace[0] == s && trace[|trace| - 1] == t
    && forall k {:trigger Repeats(passes, trace, k)} :: 0 <= k < |trace| - 1 ==> Repeats(passes, trace, k)
  }

  /** Rounds lead from s to t, where nothing is left to do or the budget is spent. */
  ghost predicate Settles(passes: seq<PassId>, budget: nat, s: Sea, t: Sea) {
    exists trace :: AreRounds(passes, trace, s, t) && |trace| <= budget + 1
      && (|trace| <= budget ==> t.WellFormed() && AllIdle(passes, t))
  }

  lemma RoundsExtend(passes: seq<PassId>, trace: seq<Sea>, s: Sea, t: Sea, u: Sea, round: seq<Sea>)
    requires AreRounds(passes, trace, s, t) && t.WellFormed() && !AllIdle(passes, t)
    requires IsRound(passes, round, t, u) && |round| == |passes| + 1
    ensures AreRounds(passes, trace + [u], s, u)
  {
    var longer := trace + [u];
    forall k | 0 <= k < |longer| - 1 ensures Repeats(passes, longer, k) {
      if k < |trace| - 1 { assert Repeats(passes, trace, k); }
    }
  }

  /** The budget of rounds. */
  const ROUNDS: nat := 8

  /** Repeats the rounds until one changes nothing, at most maxIter times. However many rounds and passes run,
      the graph computes what it did and has at most two new nodes for each original one. If the budget is not
      spent, no pass finds anything more to do. */
  method RunToFixpoint(g: Graph, passes: seq<PassId>, maxIter: nat, ghost ext: Ext, ghost rank0: seq<nat>)
    returns (total: PassResult, ghost rank: seq<nat>, ghost graphs: seq<Sea>)
    requires g.Valid() && Ready(g.View(), |g.uses|, rank0)
    modifies g
    ensures g.Valid() && Advances(ext, old(g.View()), g.View(), rank) && |g.nodes| <= 3 * old(|g.nodes|)
    ensures old(IsCalm(g.View())) ==> IsCalm(g.View())
    ensures AreRounds(passes, graphs, old(g.View()), g.View()) && |graphs| <= maxIter + 1
    ensures |graphs| <= maxIter ==> g.View().WellFormed() && AllIdle(passes, g.View())
    ensures total.changed <==> |graphs| > 1
    ensures Tallies(old(g.View()), g.View(), total)
    ensures !total.changed ==> g.View() == old(g.View())
    ensures total.changed ==> !AllIdle(passes, old(g.View()))
  {
    ghost var s, u := g.View(), |g.uses|;
    total, rank, graphs := PassResult(false, 0, 0), rank0, [s];
    PassOkSelf(ext, s, u, rank0);
    TallyStart(s);
    var i := 0;
    while i < maxIter
      invariant g.Valid() && PassOk(ext, s, u, g.View(), |g.uses|, rank) && i <= maxIter
      invariant AreRounds(passes, graphs, s, g.View()) && |graphs| == i + 1 && Tallies(s, g.View(), total)
      invariant (total.changed <==> i > 0) && (i == 0 ==> g.View() == s) && (i > 0 ==> !AllIdle(passes, s))
    {
      PassKeepsReady(ext, s, u, rank0, g.View(), |g.uses|, rank);
      ghost var t, v, rankT, trace := g.View(), |g.uses|, rank, [];
      var r;
      r, rank, trace := RunOnce(g, passes, ext, rank);
      PassOkTransitive(ext, s, u, t, v, g.View(), |g.uses|, rankT, rank);
      TallyJoins(s, t, g.View(), total, r, Joined(total, r));
      total := Joined(total, r);
      if !r.changed { break; }
      RoundsExtend(passes, graphs, s, t, g.View(), trace);
      graphs := graphs + [g.View()];
      i := i + 1;
    }
    PotentialBound(s);
    PotentialBound(g.View());
  }
}
