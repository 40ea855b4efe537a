/** local0 * 8 + 1 through the whole pipeline, and what it is compiled to. */
module LatePipeline {
  import opened SeaOfNodes
  import opened UsePool
  import opened Int64
  import opened Valuation
  import opened Rewrites
  import opened PassCore
  import opened FoldPasses
  import opened StrengthReduction
  import opened ScanBudget
  import opened ValueNumbers
  import opened CleanupPasses
  import opened Pipeline
  import opened Settling
  import opened StraightLine
  import opened Emission
  import opened GraphLowering
  import opened SonRaising
  import opened Counterexamples
  import opened LateCounterexample
  import opened Tier2
  import T = Tier1

  // ----- the passes that find nothing to do -----

  /** Only these kinds are ever rewritten. */
  lemma OthersKept(rule: Rule, s: Sea, i: nat)
    requires s.WellFormed() && i < |s.nodes| && s.nodes[i].kind !in {Add, Sub, Mul, Div, Eq, Ne, Not}
    ensures PlanFor(rule, s, i).Keep?
  {
  }

  lemma LoweredInputs(s: Sea)
    requires TimesLowered(s)
    ensures s.WellFormed() && DataOf(s, 4) == [2, 3] && DataOf(s, 6) == [4, 5]
  {
    assert s.Inputs(4) == [Edge(2, Data), Edge(3, Data)] && s.Inputs(6) == [Edge(4, Data), Edge(5, Data)];
    TwoData(2, 3);
    TwoData(4, 5);
  }

  lemma LoweredKept(rule: Rule, s: Sea, i: nat)
    requires TimesLowered(s) && s.WellFormed() && i < |s.nodes| && (i == 4 ==> rule != ReduceStrength)
    ensures PlanFor(rule, s, i).Keep?
  {
    LoweredInputs(s);
    if i !in {4, 6} { OthersKept(rule, s, i); }
    assert Wrap(8) == 8 && Wrap(1) == 1;
  }

  lemma LoweredDistinct(s: Sea)
    requires TimesLowered(s) && s.WellFormed()
    ensures NoDuplicates(s)
  {
    forall m: nat, n: nat | 0 < m < n < |s.nodes| && Numbered(s, m) && Numbered(s, n)
      ensures KeyOf(s, m) != KeyOf(s, n)
    {
      assert m in {3, 4, 5, 6} && n in {3, 4, 5, 6};
    }
  }

  lemma ReducedKept(rule: Rule, s: Sea, i: nat)
    requires TimesReduced(s) && s.WellFormed() && i < |s.nodes|
    ensures PlanFor(rule, s, i).Keep?
  {
    TimesOperands(s);
    if i !in {4, 6} { OthersKept(rule, s, i); }
    assert Wrap(1) == 1;
  }

  lemma ReducedDistinct(s: Sea)
    requires TimesReduced(s) && s.WellFormed()
    ensures NoDuplicates(s)
  {
    forall m: nat, n: nat | 0 < m < n < |s.nodes| && Numbered(s, m) && Numbered(s, n)
      ensures KeyOf(s, m) != KeyOf(s, n)
    {
      assert m in {3, 5, 6, 8, 9} && n in {3, 5, 6, 8, 9};
    }
  }

  // ----- strength reduction -----

  lemma ProductRewritten(s: Sea)
    requires TimesLowered(s) && s.WellFormed()
    ensures TimesReduced(Applied(s, 4, PlanFor(ReduceStrength, s, 4)))
  {
    TimesReduces(s);
    assert PlanFor(ReduceStrength, s, 4) == ReduceStrengthPlan(s, 4);
  }

  /** The scan passes over the nodes before the product, rewrites it, and passes over the rest, new ones included. */
  lemma TimesFiresOnce(s: Sea, u: Sea)
    requires TimesLowered(s) && s.WellFormed() && u == Applied(s, 4, PlanFor(ReduceStrength, s, 4))
    ensures FiresOnce(ReduceStrength, s, 4, u)
  {
    ProductRewritten(s);
    TimesOperands(u);
    forall i | 0 <= i < 4 ensures LeftAlone(ReduceStrength, s, i) { LoweredKept(ReduceStrength, s, i); }
    forall i | 4 < i < |u.nodes| ensures LeftAlone(ReduceStrength, u, i) { ReducedKept(ReduceStrength, u, i); }
  }

  lemma TimesStrengthened(s: Sea, t: Sea)
    requires TimesLowered(s) && s.WellFormed() && ScansTo(ReduceStrength, s, t)
    ensures TimesReduced(t)
  {
    var u := Applied(s, 4, PlanFor(ReduceStrength, s, 4));
    ProductRewritten(s);
    TimesFiresOnce(s, u);
    ScansToOnce(ReduceStrength, s, t, 4, u);
  }

  lemma TimesFires(s: Sea)
    requires TimesLowered(s) && s.WellFormed()
    ensures Fires(ReduceStrength, s)
  {
    TimesShiftable(s);
    ReduceStrengthFires(s, 4);
    assert FiresAt(ReduceStrength, s, 4);
  }

  // ----- pruning and dead code -----

  lemma OnceUsed(s: Sea, n: nat, e: nat)
    requires |s.edges| < 0x1_0000 && e < |s.edges| && s.edges[e].target == n
    ensures Low16(EdgeCount(s.edges, n)) != 0
  {
    EdgeCountZero(s.edges, n);
    EdgeCountBound(s.edges, n);
    Low16IsMod(EdgeCount(s.edges, n));
  }

  lemma ReducedUsed(s: Sea, n: nat)
    requires TimesReduced(s)
    ensures n !in Unused(s)
  {
    if n in {3, 5, 6, 8, 9} {
      OnceUsed(s, n, match n case 3 => 3 case 5 => 5 case 6 => 6 case 8 => 10 case _ => 4);
    }
  }

  lemma ReducedPruned(s: Sea)
    requires TimesReduced(s)
    ensures TimesReduced(Swept(s, Pruned(s)))
  {
    if s.Live(3) {
      TimesPruned(s);
    } else {
      assert Pruned(s) == {} by {
        forall n: nat ensures n !in Pruned(s) { TimesPrunesNoMore(s, n); }
      }
      SweptNothing(s);
    }
  }

  lemma TimesPrunesNoMore(s: Sea, n: nat)
    requires TimesReduced(s) && !s.Live(3)
    ensures n !in Pruned(s)
  {
    TimesExecuted(s);
    TimesNeeds(s, n);
  }

  // ----- one pass, one round, all rounds -----

  lemma LoweredIdle(pass: PassId, s: Sea)
    requires TimesLowered(s) && s.WellFormed()
    requires pass == Numbering || (pass.Folding? && pass.rule != ReduceStrength)
    ensures Idle(pass, s)
  {
    if pass == Numbering {
      LoweredDistinct(s);
    } else {
      forall i: nat ensures !FiresAt(pass.rule, s, i) {
        if 0 < i < |s.nodes| { LoweredKept(pass.rule, s, i); }
      }
    }
  }

  lemma ReducedStays(pass: PassId, s: Sea, t: Sea)
    requires TimesReduced(s) && s.WellFormed() && t.WellFormed() && PassDoes(pass, s, t)
    ensures TimesReduced(t)
  {
    match pass
    case Numbering =>
      ReducedDistinct(s);
      IdleKeeps(pass, s, t);
    case Folding(rule) =>
      forall i: nat ensures !FiresAt(rule, s, i) {
        if 0 < i < |s.nodes| { ReducedKept(rule, s, i); }
      }
      IdleKeeps(pass, s, t);
    case Pruning => ReducedPruned(s);
    case DeadCode =>
      assert Unused(s) == {} by {
        forall n: nat ensures n !in Unused(s) { ReducedUsed(s, n); }
      }
      SweptNothing(s);
  }

  /** The graph before the k-th pass of the first round. */
  ghost predicate OnTheWay(s: Sea, p: Sea, k: nat) {
    if k <= 4 then p == s else TimesReduced(p)
  }

  lemma FirstMove(s: Sea, p: Sea, q: Sea, k: nat)
    requires TimesLowered(s) && s.WellFormed() && k < |PASSES| && OnTheWay(s, p, k)
    requires p.WellFormed() && q.WellFormed() && PassDoes(PASSES[k], p, q)
    ensures OnTheWay(s, q, k + 1)
  {
    if k < 4 {
      LoweredIdle(PASSES[k], s);
      IdleKeeps(PASSES[k], s, q);
    } else if k == 4 {
      TimesStrengthened(s, q);
    } else {
      ReducedStays(PASSES[k], p, q);
    }
  }

  lemma {:induction false} FirstRound(trace: seq<Sea>, s: Sea, t: Sea, k: nat)
    requires TimesLowered(s) && s.WellFormed() && IsRound(PASSES, trace, s, t) && k < |trace|
    ensures OnTheWay(s, trace[k], k)
  {
    if k > 0 {
      FirstRound(trace, s, t, k - 1);
      assert RoundMove(PASSES, trace, k - 1);
      FirstMove(s, trace[k - 1], trace[k], k - 1);
    }
  }

  lemma {:induction false} LaterRound(trace: seq<Sea>, s: Sea, t: Sea, k: nat)
    requires TimesReduced(s) && IsRound(PASSES, trace, s, t) && k < |trace|
    ensures TimesReduced(trace[k])
  {
    if k > 0 {
      LaterRound(trace, s, t, k - 1);
      assert RoundMove(PASSES, trace, k - 1);
      ReducedStays(PASSES[k - 1], trace[k - 1], trace[k]);
    }
  }

  lemma TimesRound(s: Sea, t: Sea)
    requires (TimesLowered(s) && s.WellFormed()) || TimesReduced(s)
    requires RoundTo(PASSES, s, t)
    ensures TimesReduced(t)
  {
    var trace :| IsRound(PASSES, trace, s, t) && |trace| == |PASSES| + 1;
    if TimesReduced(s) { LaterRound(trace, s, t, 7); } else { FirstRound(trace, s, t, 7); }
  }

  lemma {:induction false} TimesRounds(trace: seq<Sea>, s: Sea, t: Sea, k: nat)
    requires TimesLowered(s) && s.WellFormed() && AreRounds(PASSES, trace, s, t) && 0 < k < |trace|
    ensures TimesReduced(trace[k])
  {
    if k > 1 { TimesRounds(trace, s, t, k - 1); }
    assert Repeats(PASSES, trace, k - 1);
    TimesRound(trace[k - 1], trace[k]);
  }

  lemma TimesBusy(s: Sea)
    requires TimesLowered(s) && s.WellFormed()
    ensures !AllIdle(PASSES, s)
  {
    TimesFires(s);
    assert !IdleAt(PASSES, s, 4);
  }

  lemma TimesSettles(s: Sea, t: Sea)
    requires TimesLowered(s) && s.WellFormed() && Settles(PASSES, ROUNDS, s, t)
    ensures TimesReduced(t)
  {
    var trace :| AreRounds(PASSES, trace, s, t) && |trace| <= ROUNDS + 1
      && (|trace| <= ROUNDS ==> t.WellFormed() && AllIdle(PASSES, t));
    TimesBusy(s);
    TimesRounds(trace, s, t, |trace| - 1);
  }

  /** The pipeline leaves the sum before the shift that it adds up. */
  lemma TimesOptimized(f: T.Function, t: Sea)
    requires TimesFunction(f) && IsStraightLine(f) && Optimized(f, t)
    ensures TimesReduced(t)
  {
    var s :| IsGraphOf(f, s) && Settles(PASSES, ROUNDS, s, t);
    TimesIsLowered(f, s);
    LoweredInputs(s);
    TimesSettles(s, t);
  }

  lemma TimesNotOrdered(f: T.Function, t: Sea, rank: seq<nat>)
    requires TimesFunction(f) && IsStraightLine(f) && Optimized(f, t)
    ensures !Ordered(t, rank)
  {
    TimesOptimized(f, t);
    TimesOutOfOrder(t);
    if Ordered(t, rank) { SameIdOrder(t, rank, TIMES_RANKS); }
  }

  /** So the order is not kept. */
  lemma TimesNotKept(f: T.Function)
    requires TimesFunction(f) && IsStraightLine(f)
    ensures !OrderKept(f)
  {
    forall t, rank | Optimized(f, t) ensures !Ordered(t, rank) { TimesNotOrdered(f, t, rank); }
  }

  /** return local0 * 8 + 1 is compiled to return 1. */
  method CompileTimes(f: T.Function, ghost ext: Ext) returns (r: T.Function)
    requires TimesFunction(f) && IsStraightLine(f)
    ensures forall locals: seq<i64> :: |locals| > 0 ==>
      && T.Answers(T.Meaning(ext), f, locals, T.Answer(Binary(Add, Binary(Mul, locals[0], 8), 1), locals))
      && T.Answers(T.Meaning(ext), r, locals, T.Answer(1, locals))
  {
    ghost var t, rank, st, labels;
    r, t, rank, st, labels := CompileAtTier2(f, ext);
    TimesOptimized(f, t);
    forall locals: seq<i64> | |locals| > 0
      ensures T.Answers(T.Meaning(ext), f, locals, T.Answer(Binary(Add, Binary(Mul, locals[0], 8), 1), locals))
      ensures T.Answers(T.Meaning(ext), r, locals, T.Answer(1, locals))
    {
      TimesAnswers(ext, f, locals);
      TimesReturnsOne(ext, t, rank, st, labels, r, locals);
    }
  }
}
