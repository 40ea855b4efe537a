/** The optimizing tier end to end, on straight-line integer functions that read locals: lowered to a graph, optimized,
    raised again, the function returns what it returned. */
module Tier2 {
  import opened SeaOfNodes
  import opened UsePool
  import opened UseLists
  import opened Int64
  import opened Valuation
  import opened Rewrites
  import opened PassCore
  import opened Ascending
  import opened ScanBudget
  import opened Pipeline
  import opened Settling
  import opened Finished
  import opened GraphBuilding
  import opened StraightLine
  import opened GraphLowering
  import opened SonLowering
  import opened Emission
  import opened LateEmission
  import opened SonRaising
  import T = Tier1
  import Machines
  import LinearScan
  import RegisterMachine
  import Liveness
  import LiveRanges

  /** Whatever the pipeline does to a graph, the value that reaches Stop stays, for all locals. */
  lemma AdvancesReturns(ext: Ext, s: Sea, t: Sea, rs: seq<nat>, rt: seq<nat>, locals: seq<i64>, x: i64)
    requires Sane(s, rs) && Advances(ext, s, t, rt) && GraphReturns(ext, s, locals, x)
    ensures GraphReturns(ext, t, locals, x)
  {
    var n := s.stop;
    assert SameNode(s.nodes[n], t.nodes[n]);
    var e := s.nodes[n].firstInput;
    assert s.Inputs(n)[0] == s.edges[e] && t.Inputs(n)[0] == t.edges[e];
    forall w | Models(ext, t, w) && Reads(t, locals, w)
      ensures t.edges[e].target < |w| && w[t.edges[e].target] == x
    {
      RefinesBothWays(ext, s, t, rs, rt, w);
      ReadsBack(s, t, locals, w);
      assert s.edges[e].target < |s.nodes|;
    }
    OperandInGraph(t, n);
  }

  lemma ReadsBack(s: Sea, t: Sea, locals: seq<i64>, w: seq<i64>)
    requires Extends(s, t) && |s.nodes| <= |w| && Reads(t, locals, w)
    ensures Reads(s, locals, w[..|s.nodes|])
  {
    forall n | 0 <= n < |s.nodes| ensures LoadReads(s, locals, w[..|s.nodes|], n) {
      assert SameNode(s.nodes[n], t.nodes[n]) && LoadReads(t, locals, w, n);
    }
  }

  /** The passes add no loads. */
  lemma LoadsStay(s: Sea, t: Sea, n: nat)
    requires Extends(s, t) && IsLoad(t, n)
    ensures IsLoad(s, n) && s.nodes[n].payload == t.nodes[n].payload
  {
    if n < |s.nodes| { assert SameNode(s.nodes[n], t.nodes[n]); }
  }

  lemma RangeStays(s: Sea, t: Sea, locals: seq<i64>)
    requires Extends(s, t) && InRange(s, locals)
    ensures InRange(t, locals)
  {
    forall n | 0 <= n < |t.nodes| && t.nodes[n].kind == LoadLocal ensures 0 <= t.nodes[n].payload < |locals| {
      LoadsStay(s, t, n);
    }
  }

  lemma OperandInGraph(t: Sea, n: nat)
    requires DataWired(t) && t.HasSlice(n) && |t.Inputs(n)| > 0 && t.Inputs(n)[0].kind == Data
    ensures t.Inputs(n)[0].target < |t.nodes|
  {
    InputsWired(t, n);
  }

  lemma LoweredReady(s: Sea, uses: nat, rank: seq<nat>, f: T.Function)
    requires Sane(s, rank) && Tame(s) && s.stop < |s.nodes| && Room(f)
    requires |s.nodes| <= 3 * |f.insts| + 1 && uses <= 2 * |f.insts| + 1 && |s.edges| <= 2 * |f.insts| + 1
    ensures Ready(s, uses, rank)
  {
    PotentialBound(s);
  }

  lemma StopStays(ext: Ext, s: Sea, t: Sea, rank: seq<nat>)
    requires Advances(ext, s, t, rank) && s.stop < |s.nodes| && s.nodes[s.stop].kind == Stop
    ensures t.stop < |t.nodes| && t.nodes[t.stop].kind == Stop
  {
    assert SameNode(s.nodes[s.stop], t.nodes[s.stop]);
  }

  predicate ReadsNothing(f: T.Function) { forall j :: 0 <= j < |f.insts| ==> f.insts[j].op != T.LoadLocal }

  /** What the pipeline makes of the function's graph. */
  ghost predicate Optimized(f: T.Function, t: Sea) {
    exists s :: IsGraphOf(f, s) && Settles(PASSES, ROUNDS, s, t)
  }

  /** That is determined by the function. */
  lemma OptimizedOnce(f: T.Function, t: Sea, u: Sea)
    requires Optimized(f, t) && Optimized(f, u)
    ensures t == u
  {
    var a, b :| IsGraphOf(f, a) && Settles(PASSES, ROUNDS, a, t) && IsGraphOf(f, b) && Settles(PASSES, ROUNDS, b, u);
    GraphOnce(f, a, b);
    SettlesOnce(PASSES, ROUNDS, a, t, u);
  }

  /** All eight rounds had something to do. */
  ghost predicate SpendsBudget(f: T.Function, t: Sea) {
    exists s, graphs :: IsGraphOf(f, s) && AreRounds(PASSES, graphs, s, t) && |graphs| == 9
  }

  /** The graph of the function after the pipeline, where nothing is left to do unless the budget was spent. */
  method LowerAndOptimize(f: T.Function, ghost ext: Ext) returns (g: Graph, ghost s: Sea, ghost rank: seq<nat>)
    requires IsStraightLine(f) && Room(f)
    ensures fresh(g) && g.Valid() && IsGraphOf(f, s) && Advances(ext, s, g.View(), rank) && Tame(g.View())
    ensures |g.nodes| < NO_NODE && |g.nodes| <= 9 * |f.insts| + 3
    ensures g.stop < |g.nodes| && g.nodes[g.stop].kind == Stop
    ensures Optimized(f, g.View()) && (IsCalm(s) ==> IsCalm(g.View()))
    ensures SpendsBudget(f, g.View()) || NothingLeft(g.View())
  {
    g := LowerToGraph(f);
    s := g.View();
    ghost var rank0 := Ident(|g.nodes|);
    GraphBuilt(f, s);
    LoweredReady(s, |g.uses|, rank0, f);
    var total;
    ghost var rounds;
    total, rank, rounds := RunTier2Pipeline(g, ext, rank0);
    StopStays(ext, s, g.View(), rank);
    assert Optimized(f, g.View());
  }

  ghost predicate Ordered(t: Sea, rank: seq<nat>) {
    Sane(t, rank) && InIdOrder(t, rank)
  }

  /** In the optimized graph what depends on a load comes after those of its operands that do. */
  ghost predicate OrderKept(f: T.Function) {
    exists t, rank :: Optimized(f, t) && Ordered(t, rank)
  }

  lemma OrderKeptIff(f: T.Function, t: Sea, rank: seq<nat>)
    requires Optimized(f, t) && Sane(t, rank)
    ensures OrderKept(f) <==> InIdOrder(t, rank)
  {
    if OrderKept(f) {
      var u, other :| Optimized(f, u) && Ordered(u, other);
      OptimizedOnce(f, t, u);
      SameIdOrder(t, other, rank);
    }
    if InIdOrder(t, rank) { assert Ordered(t, rank); }
  }

  /** The straight-line path of the optimizing compiler, with the optimized graph t and the state st before the last
      phase: if the order is kept, then for every locals and every answer, if the function gives the answer, the
      compiled function gives it too. Otherwise, and only then, the last phase misses an operand. Functions that read
      no locals and functions without products and negations always keep the order. */
  method CompileAtTier2(f: T.Function, ghost ext: Ext)
    returns (r: T.Function, ghost t: Sea, ghost rank: seq<nat>, ghost st: Raised, ghost labels: nat)
    requires IsStraightLine(f) && Room(f)
    ensures Optimized(f, t) && Sane(t, rank) && Tame(t) && t.HasSlice(t.stop) && RaisedFrom(ext, t, rank, st, labels, r)
    ensures OrderKept(f) ==>
      forall locals, a :: T.Answers(T.Meaning(ext), f, locals, a) ==> T.Answers(T.Meaning(ext), r, locals, a)
    ensures OrderKept(f) <==> forall n {:trigger Misses(t, st, n)} :: 0 <= n < |t.nodes| ==> !Misses(t, st, n)
    ensures ReadsNothing(f) || IsPlainFunction(f) ==> OrderKept(f)
    ensures SpendsBudget(f, t) || NothingLeft(t)
    ensures T.WellFormed(r) && LiveRanges.ForwardOnly(r) && |r.insts| < Liveness.NEVER
  {
    var g;
    ghost var s;
    g, s, rank := LowerAndOptimize(f, ext);
    t := g.View();
    r, st, labels := RaiseGraph(g, ext, rank);
    OrderKeptIff(f, t, rank);
    OutOfOrderMisses(ext, t, rank, st);
    if ReadsNothing(f) { NothingRead(f, s, t, rank); }
    if IsPlainFunction(f) {
      GraphCalm(f, s);
      CalmInOrder(t, rank);
    }
    if OrderKept(f) {
      forall locals, a | T.Answers(T.Meaning(ext), f, locals, a) ensures T.Answers(T.Meaning(ext), r, locals, a) {
        AnswerReaches(ext, f, s, t, rank, locals, a);
      }
    }
  }

  /** The answer of the function is what reaches Stop in the optimized graph. */
  lemma AnswerReaches(ext: Ext, f: T.Function, s: Sea, t: Sea, rank: seq<nat>, locals: seq<i64>, a: T.Answer)
    requires IsStraightLine(f) && Room(f) && IsGraphOf(f, s) && Advances(ext, s, t, rank)
    requires T.Answers(T.Meaning(ext), f, locals, a)
    ensures GraphReturns(ext, t, locals, a.value) && InRange(t, locals) && a.locals == locals
  {
    AnswerIsReturnValue(T.Meaning(ext), f, locals, a);
    GraphBuilt(f, s);
    GraphReturnsIt(ext, f, s, locals);
    GraphInRange(T.Meaning(ext), f, s, locals);
    AdvancesReturns(ext, s, t, Ident(|s.nodes|), rank, locals, a.value);
    RangeStays(s, t, locals);
  }

  lemma NothingRead(f: T.Function, s: Sea, t: Sea, rank: seq<nat>)
    requires IsStraightLine(f) && IsGraphOf(f, s) && ReadsNothing(f) && Extends(s, t) && Sane(t, rank)
    ensures InIdOrder(t, rank)
  {
    GraphWithoutLoads(f, s);
    forall n: nat ensures !IsLoad(t, n) {
      if IsLoad(t, n) { LoadsStay(s, t, n); }
    }
    NoLoadsInOrder(t, rank);
  }

  /** And then on ten machine registers and spill slots: whatever they hold at first, the machine returns what the
      function returns. */
  method CompileToRegisters(f: T.Function, ghost ext: Ext) returns (r: T.Function, ra: LinearScan.Allocated)
    requires IsStraightLine(f) && Room(f)
    ensures ReadsNothing(f) || IsPlainFunction(f) ==> OrderKept(f)
    ensures OrderKept(f) ==>
      forall locals, a, file: RegisterMachine.File :: T.Answers(T.Meaning(ext), f, locals, a) ==>
        Machines.Ends(RegisterMachine.PSteps(T.Meaning(ext), r, ra), RegisterMachine.PState(0, file, locals), a)
  {
    ghost var t, rank, st, labels;
    r, t, rank, st, labels := CompileAtTier2(f, ext);
    ra := LinearScan.Allocate(r);
    forall locals, a, file: RegisterMachine.File | OrderKept(f) && T.Answers(T.Meaning(ext), f, locals, a)
      ensures Machines.Ends(RegisterMachine.PSteps(T.Meaning(ext), r, ra), RegisterMachine.PState(0, file, locals), a)
    {
      RegisterMachine.AllocationPreservesForward(T.Meaning(ext), r, ra, locals, file, a);
    }
  }
}
