/** A product that strength reduction turns into a shift with a larger id than its user: late emission gets it wrong. */
module LateCounterexample {
  import opened SeaOfNodes
  import opened Int64
  import opened Valuation
  import opened PassCore
  import opened Rewrites
  import opened FoldPasses
  import opened StrengthReduction
  import opened GraphBuilding
  import opened StraightLine
  import opened Emission
  import opened LateEmission
  import opened GraphLowering
  import opened SonRaising
  import opened Reachability
  import opened CleanupPasses
  import opened Counterexamples
  import T = Tier1

  /** local0 * 8 + 1, as it is lowered. */
  predicate TimesLowered(s: Sea) {
    && |s.nodes| == 8 && s.start == 1 && s.stop == 7
    && s.edges == [Edge(1, Control), Edge(1, Effect), Edge(2, Data), Edge(3, Data), Edge(4, Data), Edge(5, Data),
                   Edge(6, Data), Edge(1, Control), Edge(2, Effect)]
    && s.nodes[0] == Node(Start, {}, Top, 0, 0, 0) && s.nodes[1] == Node(Start, {IsControl, NoDeopt}, Bottom, 0, 0, 0)
    && s.nodes[2] == Node(LoadLocal, {IsEffect, NoDeopt}, TInt, 0, 0, 2)
    && s.nodes[3] == Node(ConstInt, {Pure, CSEable, GVNable, NoDeopt}, TInt, 8, 2, 0)
    && s.nodes[4] == Node(Mul, {Pure, GVNable, Commutative}, TInt, 0, 2, 2)
    && s.nodes[5] == Node(ConstInt, {Pure, CSEable, GVNable, NoDeopt}, TInt, 1, 4, 0)
    && s.nodes[6] == Node(Add, {Pure, GVNable, Commutative}, TInt, 0, 4, 2)
    && s.nodes[7] == Node(Stop, {IsControl, NoDeopt}, Bottom, 0, 6, 3)
  }

  /** return local0 * 8 + 1 */
  predicate TimesFunction(f: T.Function) {
    f.insts == [T.Inst(T.LoadLocal, 1, 0, 0, 0), T.Inst(T.LoadConstImm, 2, 0, 0, 8), T.Inst(T.Mul, 3, 1, 2, 0),
                T.Inst(T.LoadConstImm, 4, 0, 0, 1), T.Inst(T.Add, 5, 3, 4, 0), T.Inst(T.Return, 0, 5, 0, 0)]
  }

  /** Its graph after the first two and after all instructions of the body. */
  lemma TimesBodyStarts(f: T.Function, trace: seq<Build>)
    requires TimesFunction(f) && IsBody(f, trace) && |trace| == 6
    ensures trace[2].nodeOf == map[1 := 2, 2 := 3] && trace[2].effect == 2 && trace[2].s.start == 1
    ensures trace[2].s.stop == NO_NODE && trace[2].s.edges == [Edge(1, Control), Edge(1, Effect)]
    ensures trace[2].s.nodes ==
      [Node(Start, {}, Top, 0, 0, 0), Node(Start, {IsControl, NoDeopt}, Bottom, 0, 0, 0),
       Node(LoadLocal, {IsEffect, NoDeopt}, TInt, 0, 0, 2),
       Node(ConstInt, {Pure, CSEable, GVNable, NoDeopt}, TInt, 8, 2, 0)]
  {
    assert Follows(f, trace, 0) && Follows(f, trace, 1);
  }

  lemma TimesBodyMiddle(f: T.Function, trace: seq<Build>)
    requires TimesFunction(f) && IsBody(f, trace) && |trace| == 6
    ensures trace[3].nodeOf == map[1 := 2, 2 := 3, 3 := 4] && trace[3].effect == 2 && trace[3].s.start == 1
    ensures trace[3].s.stop == NO_NODE && trace[3].s.edges == trace[2].s.edges + [Edge(2, Data), Edge(3, Data)]
    ensures trace[3].s.nodes == trace[2].s.nodes + [Node(Mul, {Pure, GVNable, Commutative}, TInt, 0, 2, 2)]
  {
    TimesBodyStarts(f, trace);
    assert Follows(f, trace, 2);
  }

  lemma TimesBodyEnds(f: T.Function, trace: seq<Build>)
    requires TimesFunction(f) && IsBody(f, trace) && |trace| == 6
    ensures var b := trace[5];
      5 in b.nodeOf && b.nodeOf[5] == 6 && b.effect == 2 && b.s.start == 1 && b.s.stop == NO_NODE
      && b.s.edges == trace[2].s.edges + [Edge(2, Data), Edge(3, Data), Edge(4, Data), Edge(5, Data)]
      && b.s.nodes == trace[2].s.nodes + [Node(Mul, {Pure, GVNable, Commutative}, TInt, 0, 2, 2),
           Node(ConstInt, {Pure, CSEable, GVNable, NoDeopt}, TInt, 1, 4, 0),
           Node(Add, {Pure, GVNable, Commutative}, TInt, 0, 4, 2)]
  {
    TimesBodyStarts(f, trace);
    TimesBodyMiddle(f, trace);
    assert Follows(f, trace, 3) && Follows(f, trace, 4);
  }

  /** Lowering gives that graph. */
  lemma TimesIsLowered(f: T.Function, s: Sea)
    requires TimesFunction(f) && IsStraightLine(f) && IsGraphOf(f, s)
    ensures TimesLowered(s)
  {
    var trace :| IsWhole(f, trace, s);
    TimesBodyStarts(f, trace);
    TimesBodyEnds(f, trace);
  }

  lemma TimesFirst(ext: Ext, f: T.Function, locals: seq<i64>, x: i64, y: i64)
    requires TimesFunction(f) && |locals| > 0 && x == locals[0] && y == Binary(Mul, x, 8)
    ensures Leaves(T.Meaning(ext), f.insts[..3], locals, map[1 := x, 2 := 8, 3 := y])
  {
    var alu, code := T.Meaning(ext), f.insts;
    assert Wrap(8) == 8;
    LeavesNothing(alu, locals);
    LeavesMore(alu, [], locals, map[], code[0]);
    LeavesMore(alu, [code[0]], locals, map[1 := x], code[1]);
    assert [code[0]] + [code[1]] == code[..2];
    assert T.Result(ext, code[2], x, 8) == y;
    LeavesMore(alu, code[..2], locals, map[1 := x, 2 := 8], code[2]);
    assert code[..2] + [code[2]] == code[..3];
  }

  /** What the function returns. */
  lemma TimesAnswers(ext: Ext, f: T.Function, locals: seq<i64>)
    requires TimesFunction(f) && |locals| > 0
    ensures T.Answers(T.Meaning(ext), f, locals, T.Answer(Binary(Add, Binary(Mul, locals[0], 8), 1), locals))
  {
    var alu, code := T.Meaning(ext), f.insts;
    var x, y := locals[0], Binary(Mul, locals[0], 8);
    var z := Binary(Add, y, 1);
    TimesFirst(ext, f, locals, x, y);
    assert Wrap(1) == 1;
    LeavesMore(alu, code[..3], locals, map[1 := x, 2 := 8, 3 := y], code[3]);
    assert code[..3] + [code[3]] == code[..4];
    assert T.Result(ext, code[4], y, 1) == z;
    LeavesMore(alu, code[..4], locals, map[1 := x, 2 := 8, 3 := y, 4 := 1], code[4]);
    assert code[..4] + [code[4]] == code[..5];
    LeavesReturn(alu, f, map[1 := x, 2 := 8, 3 := y, 4 := 1, 5 := z], 5, locals);
  }

  /** After strength reduction: node 6 adds the shift 9 instead of the dead product. The constant 8 has no live user
      left, and may be dead too. */
  predicate TimesReduced(s: Sea) {
    && |s.nodes| == 10 && s.start == 1 && s.stop == 7
    && s.edges == [Edge(1, Control), Edge(1, Effect), Edge(2, Data), Edge(3, Data), Edge(9, Data), Edge(5, Data),
                   Edge(6, Data), Edge(1, Control), Edge(2, Effect), Edge(2, Data), Edge(8, Data)]
    && s.nodes[0] == Node(Start, {}, Top, 0, 0, 0) && s.nodes[1] == Node(Start, {IsControl, NoDeopt}, Bottom, 0, 0, 0)
    && s.nodes[2] == Node(LoadLocal, {IsEffect, NoDeopt}, TInt, 0, 0, 2)
    && (s.nodes[3] == Node(ConstInt, {Pure, CSEable, GVNable, NoDeopt}, TInt, 8, 2, 0)
        || s.nodes[3] == Node(ConstInt, {Pure, CSEable, GVNable, NoDeopt, IsDead}, TInt, 8, 2, 0))
    && s.nodes[4] == Node(Mul, {Pure, GVNable, Commutative, IsDead}, TInt, 0, 2, 2)
    && s.nodes[5] == Node(ConstInt, {Pure, CSEable, GVNable, NoDeopt}, TInt, 1, 4, 0)
    && s.nodes[6] == Node(Add, {Pure, GVNable, Commutative}, TInt, 0, 4, 2)
    && s.nodes[7] == Node(Stop, {IsControl, NoDeopt}, Bottom, 0, 6, 3)
    && s.nodes[8] == Node(ConstInt, {Pure, GVNable}, TInt, 3, 9, 0)
    && s.nodes[9] == Node(Shl, {Pure, GVNable}, TInt, 0, 9, 2)
  }

  lemma TimesShiftable(s: Sea)
    requires TimesLowered(s)
    ensures s.WellFormed() && Shiftable(s, 4, 2, 3)
  {
    assert s.Inputs(4) == [Edge(2, Data), Edge(3, Data)];
    TwoData(2, 3);
    assert Wrap(8) == 8 && Pow2(3) == 2 * Pow2(2) && Pow2(2) == 2 * Pow2(1) && Pow2(1) == 2 * Pow2(0);
  }

  lemma TimesReduces(s: Sea)
    requires TimesLowered(s)
    ensures s.WellFormed()
    ensures var t := Applied(s, 4, ReduceStrengthPlan(s, 4)); TimesReduced(t) && t.Live(3)
  {
    TimesShiftable(s);
    ShiftPlan(s, 4, 2, 3);
    var n := ShiftNodes(s, Mul, 2, 3);
    AppendTwo(s, n.0, n.1);
    var u := Appended(Appended(s, n.0), n.1);
    var t := Replaced(u, 4, 9);
    assert u.edges == s.edges + [] + [Edge(2, Data), Edge(8, Data)];
    assert t.edges == [Edge(1, Control), Edge(1, Effect), Edge(2, Data), Edge(3, Data), Edge(9, Data), Edge(5, Data),
                       Edge(6, Data), Edge(1, Control), Edge(2, Effect), Edge(2, Data), Edge(8, Data)];
    assert {Pure, GVNable, Commutative} + {IsDead} == {Pure, GVNable, Commutative, IsDead};
    forall n | 0 <= n < 8 && n != 4 ensures t.nodes[n] == s.nodes[n] {}
  }

  lemma TimesOperands(s: Sea)
    requires TimesReduced(s)
    ensures s.WellFormed() && DataWired(s) && DataOf(s, 6) == [9, 5] && DataOf(s, 9) == [2, 8]
    ensures DataOf(s, 3) == [] && DataOf(s, 5) == [] && DataOf(s, 8) == []
  {
    assert s.Inputs(6) == [Edge(9, Data), Edge(5, Data)] && s.Inputs(9) == [Edge(2, Data), Edge(8, Data)];
    TwoData(9, 5);
    TwoData(2, 8);
    assert s.Inputs(3) == [] && s.Inputs(5) == [] && s.Inputs(8) == [];
  }

  // ----- pruning -----

  lemma TimesInputs(s: Sea)
    requires TimesReduced(s)
    ensures s.WellFormed() && s.Inputs(1) == [] && s.Inputs(2) == [Edge(1, Control), Edge(1, Effect)]
    ensures s.Inputs(5) == [] && s.Inputs(6) == [Edge(9, Data), Edge(5, Data)] && s.Inputs(8) == []
    ensures s.Inputs(9) == [Edge(2, Data), Edge(8, Data)]
    ensures s.Inputs(7) == [Edge(6, Data), Edge(1, Control), Edge(2, Effect)]
  {
  }

  /** What Stop depends on. */
  const NEEDED: set<nat> := {1, 2, 5, 6, 8, 9}

  /** The producers of a node with two data inputs. */
  lemma FeedsTwo(s: Sea, n: nat, a: nat, b: nat, y: nat)
    requires s.HasSlice(n) && s.Inputs(n) == [Edge(a, Data), Edge(b, Data)] && a != NO_NODE && b != NO_NODE
    ensures FeedStep(s)(n, y) <==> y == a || y == b
  {
    assert Edge(a, Data) == s.Inputs(n)[0] && Edge(b, Data) == s.Inputs(n)[1];
  }

  lemma TimesFeeds(s: Sea, x: nat, y: nat)
    requires TimesReduced(s) && x in {1, 2, 5, 6, 8, 9}
    ensures FeedStep(s)(x, y) <==> TimesStep(x, y)
  {
    TimesInputs(s);
    if x == 6 {
      FeedsTwo(s, 6, 9, 5, y);
    } else if x == 9 {
      FeedsTwo(s, 9, 2, 8, y);
    } else if x == 2 {
      assert Edge(1, Effect) == s.Inputs(2)[1];
    }
  }

  lemma TimesRoots(s: Sea)
    requires TimesReduced(s)
    ensures s.HasSlice(7) && Feeds(s, 7) == {2, 6}
  {
    TimesInputs(s);
    var es := s.Inputs(7);
    assert es[0] == Edge(6, Data) && es[2] == Edge(2, Effect);
    assert FeedStep(s)(7, 6) && FeedStep(s)(7, 2);
    forall e | e in es && FeedStep(s)(7, e.target) ensures e.target in {2, 6} {}
    assert 6 in Feeds(s, 7) by { assert es[0] in es; }
    assert 2 in Feeds(s, 7) by { assert es[2] in es; }
  }

  lemma TimesClosed(s: Sea)
    requires TimesReduced(s)
    ensures s.HasSlice(s.stop) && Frontier(FeedStep(s), Feeds(s, s.stop), NEEDED, [])
  {
    TimesRoots(s);
    TimesFrontier(s, FeedStep(s), NEEDED);
  }

  lemma TimesNeeds(s: Sea, n: nat)
    requires TimesReduced(s)
    ensures Contributes(s, n) <==> n in NEEDED
  {
    TimesClosed(s);
    ContributesIff(s, NEEDED, n);
  }

  lemma ContributesIff(s: Sea, marked: set<nat>, n: nat)
    requires s.HasSlice(s.stop) && Frontier(FeedStep(s), Feeds(s, s.stop), marked, [])
    ensures Contributes(s, n) <==> n in marked
  {
    FrontierDone(FeedStep(s), Feeds(s, s.stop), marked);
  }

  lemma TimesFrontier(s: Sea, step: Step, needed: set<nat>)
    requires TimesReduced(s) && step == FeedStep(s) && needed == NEEDED
    ensures Frontier(step, {2, 6}, needed, [])
  {
    forall x: nat, y: nat | x in needed ensures step(x, y) <==> TimesStep(x, y) { TimesFeeds(s, x, y); }
    StepsMark(step, needed);
    NothingQueued(step, {2, 6}, needed);
  }

  predicate TimesStep(x: nat, y: nat) { (x == 2 && y == 1) || (x == 6 && y in {5, 9}) || (x == 9 && y in {2, 8}) }

  lemma StepsMark(step: Step, needed: set<nat>)
    requires needed == NEEDED
    requires forall x, y :: x in needed ==> (step(x, y) <==> TimesStep(x, y))
    ensures forall x :: x in needed ==> Reached(step, {2, 6}, x)
    ensures forall x, y :: x in needed && step(x, y) ==> y in needed
  {
    ReachedRoot(step, {2, 6}, 2);
    ReachedRoot(step, {2, 6}, 6);
    assert step(2, 1) && step(6, 5) && step(6, 9) && step(9, 8);
    ReachedStep(step, {2, 6}, 2, 1);
    ReachedStep(step, {2, 6}, 6, 5);
    ReachedStep(step, {2, 6}, 6, 9);
    ReachedStep(step, {2, 6}, 9, 8);
  }

  lemma TimesExecuted(s: Sea)
    requires TimesReduced(s)
    ensures Executed(s, 2)
  {
    ReachedRoot(ControlStep(s), {1}, 1);
    assert s.Inputs(2) == [Edge(1, Control), Edge(1, Effect)];
    ReachedStep(ControlStep(s), {1}, 1, 2);
  }

  lemma TimesPrunes(s: Sea, n: nat)
    requires TimesReduced(s) && s.Live(3)
    ensures n in Pruned(s) <==> n == 3
  {
    TimesExecuted(s);
    TimesNeeds(s, n);
  }

  lemma TimesWithoutEight(s: Sea)
    requires TimesReduced(s) && s.Live(3)
    ensures TimesReduced(Swept(s, {3}))
  {
    var t := Swept(s, {3});
    forall n | 0 <= n < 10 && n != 3 ensures t.nodes[n] == s.nodes[n] {}
    assert {Pure, CSEable, GVNable, NoDeopt} + {IsDead} == {Pure, CSEable, GVNable, NoDeopt, IsDead};
  }

  /** Pruning removes the constant 8, and nothing else. */
  lemma TimesPruned(s: Sea)
    requires TimesReduced(s) && s.Live(3)
    ensures Pruned(s) == {3} && TimesReduced(Swept(s, Pruned(s)))
  {
    assert Pruned(s) == {3} by {
      forall n: nat ensures n in Pruned(s) <==> n == 3 { TimesPrunes(s, n); }
    }
    TimesWithoutEight(s);
  }

  // ----- the rounds and the block -----

  lemma TimesPure(s: Sea, n: nat)
    requires TimesReduced(s)
    ensures IsPure(s, n) <==> n in {5, 6, 8, 9} || (n == 3 && s.Live(3))
  {
  }

  /** The reduced graph is straight-line code still, with these ranks. */
  const TIMES_RANKS: seq<nat> := [0, 0, 0, 0, 1, 0, 2, 0, 0, 1]

  lemma TimesLeaves(s: Sea, n: nat)
    requires TimesReduced(s) && n in {0, 1, 3, 5, 8}
    ensures s.HasSlice(n) && TameAt(s, n)
  {
    assert s.Inputs(n) == [];
  }

  lemma TimesComputes(s: Sea, n: nat)
    requires TimesReduced(s) && n in {4, 6, 9}
    ensures s.HasSlice(n) && TameAt(s, n)
  {
    TimesInputs(s);
    assert s.Inputs(4) == [Edge(2, Data), Edge(3, Data)];
  }

  lemma TimesEffects(s: Sea, n: nat)
    requires TimesReduced(s) && n in {2, 7}
    ensures s.HasSlice(n) && TameAt(s, n)
  {
    TimesInputs(s);
  }

  lemma TimesTameAt(s: Sea, n: nat)
    requires TimesReduced(s) && n < 10
    ensures s.HasSlice(n) && TameAt(s, n)
  {
    if n in {2, 7} { TimesEffects(s, n); } else if n in {4, 6, 9} { TimesComputes(s, n); } else { TimesLeaves(s, n); }
  }

  lemma TimesTame(s: Sea)
    requires TimesReduced(s)
    ensures s.WellFormed() && Tame(s)
  {
    TimesInputs(s);
    forall n | 0 <= n < |s.nodes| ensures TameAt(s, n) { TimesTameAt(s, n); }
  }

  lemma TimesSane(s: Sea)
    requires TimesReduced(s)
    ensures Sane(s, TIMES_RANKS)
  {
    TimesInputs(s);
    TimesOperands(s);
    forall n | 0 <= n < |s.nodes| && IsValueKind(s.nodes[n].kind)
      ensures Above(s.Inputs(n), TIMES_RANKS, TIMES_RANKS[n])
    {
      assert n in {3, 4, 5, 6, 8, 9};
    }
    forall n | 0 <= n < |s.nodes| && s.Live(n) ensures InputsAlive(s, n) {
      assert n in {0, 1, 2, 3, 5, 6, 7, 8, 9};
    }
  }

  /** The shift waits for the load, and the sum for the shift; the live constants do not. */
  lemma TimesOnLoad(s: Sea, rank: seq<nat>, n: nat)
    requires TimesReduced(s) && DataWired(s) && Ranked(s, rank) && n in {3, 5, 6, 8, 9}
    ensures OnLoad(s, rank, n) <==> n in {6, 9}
  {
    TimesInputs(s);
    TimesOperands(s);
    assert OnLoad(s, rank, 2);
    assert s.Inputs(9)[0] == Edge(2, Data) && s.Inputs(6)[0] == Edge(9, Data);
    assert OnLoad(s, rank, 9);
    assert s.Inputs(3) == [];
  }

  // ----- the last phase -----

  /** The sum of a synthesized 0 and the constant 1 in register r, after v registers. */
  function TimesCode(v: nat, r: nat): seq<T.Inst> {
    [T.Inst(T.LoadConstImm, v + 2, 0, 0, 0), T.Inst(T.Add, v + 1, v + 2, r, 0)]
  }

  /** The constants and the load have registers; the shift and the sum do not. */
  ghost predicate TimesStart(s: Sea, st: Raised) {
    && Bounded(st) && (s.Live(3) ==> 3 in st.vregOf)
    && 5 in st.vregOf && 8 in st.vregOf && 2 in st.vregOf && 6 !in st.vregOf && 9 !in st.vregOf
  }

  /** So do the phases before the last one leave them. */
  lemma TimesStarts(s: Sea, rank: seq<nat>, st: Raised)
    requires TimesReduced(s) && DataWired(s) && Ranked(s, rank) && BlockDone(s, rank, st.vregOf)
        && Shapely(st, |s.nodes|, 1)
    ensures TimesStart(s, st)
  {
    TimesOnLoad(s, rank, 3);
    TimesOnLoad(s, rank, 5);
    TimesOnLoad(s, rank, 6);
    TimesOnLoad(s, rank, 8);
    TimesOnLoad(s, rank, 9);
    assert Usable(s, 2) && Usable(s, 5) && Usable(s, 8) && (s.Live(3) ==> Usable(s, 3));
  }

  /** A node that is not pure or has a register is passed over. */
  lemma PassedOver(s: Sea, st: Raised, t: Raised, i: nat)
    requires s.WellFormed() && 0 < i <= |s.nodes| && EmitTo(s, st, i - 1) == t
    requires !IsPure(s, i - 1) || i - 1 in t.vregOf
    ensures EmitTo(s, st, i) == t
  {
  }

  lemma {:induction false} TimesBefore(s: Sea, st: Raised, i: nat)
    requires TimesReduced(s) && s.WellFormed() && i <= 6 && TimesStart(s, st)
    ensures EmitTo(s, st, i) == st
  {
    if i > 0 {
      TimesBefore(s, st, i - 1);
      TimesPure(s, i - 1);
      PassedOver(s, st, st, i);
    }
  }

  lemma FetchTimes(st: Raised)
    requires 5 in st.vregOf && 9 !in st.vregOf
    ensures WithVregs(st, [9, 5]) ==
      Raised(st.code + [T.Inst(T.LoadConstImm, st.vregs + 1, 0, 0, 0)], st.vregs + 1, st.vregOf[9 := st.vregs + 1])
  {
    WithVregsSteps(st, [9, 5]);
  }

  lemma SumPlaced(s: Sea, st: Raised, t: Raised, v: nat, r: nat)
    requires s.HasSlice(6) && s.nodes[6].kind == Add && DataOf(s, 6) == [9, 5]
    requires st.vregs == v && 5 in st.vregOf && st.vregOf[5] == r
    requires t == WithVregs(st.(vregs := v + 1), [9, 5])
    requires t == Raised(st.code + [T.Inst(T.LoadConstImm, v + 2, 0, 0, 0)], v + 2, st.vregOf[9 := v + 2])
    ensures Emit(s, st, 6) == Raised(st.code + TimesCode(v, r), v + 2, t.vregOf[6 := v + 1])
  {
    InstParts(s, 6, t.vregOf, v + 1, v + 2, r);
    assert t.code + [T.Inst(T.Add, v + 1, v + 2, r, 0)] == st.code + TimesCode(v, r);
  }

  /** The sum with its first operand missing. */
  lemma SumEmitted(s: Sea, st: Raised)
    requires s.HasSlice(6) && s.nodes[6].kind == Add && DataOf(s, 6) == [9, 5]
    requires 5 in st.vregOf && 9 !in st.vregOf
    ensures Emit(s, st, 6) == Raised(st.code + TimesCode(st.vregs, st.vregOf[5]), st.vregs + 2,
        st.vregOf[9 := st.vregs + 2][6 := st.vregs + 1])
  {
    var v, r := st.vregs, st.vregOf[5];
    var low := Raised(st.code, v + 1, st.vregOf);
    assert st.(vregs := v + 1) == low;
    FetchTimes(low);
    SumPlaced(s, st, WithVregs(low, [9, 5]), v, r);
  }

  lemma TimesAfter(s: Sea, st: Raised, t: Raised)
    requires TimesReduced(s) && s.WellFormed() && TimesStart(s, st)
    requires t == Emit(s, st, 6) && 8 in t.vregOf && 9 in t.vregOf
    ensures EmitTo(s, st, 10) == t
  {
    TimesBefore(s, st, 6);
    TimesPure(s, 6);
    assert EmitTo(s, st, 7) == t;
    TimesPure(s, 7);
    PassedOver(s, st, t, 8);
    PassedOver(s, st, t, 9);
    PassedOver(s, st, t, 10);
  }

  /** The sum is emitted before the shift, which is missing then: a synthesized 0 stands for it. */
  lemma TimesEmitted(s: Sea, st: Raised)
    requires TimesReduced(s) && s.WellFormed() && TimesStart(s, st)
    ensures EmitTo(s, st, 10) == Raised(st.code + TimesCode(st.vregs, st.vregOf[5]), st.vregs + 2,
        st.vregOf[9 := st.vregs + 2][6 := st.vregs + 1])
  {
    TimesOperands(s);
    SumEmitted(s, st);
    TimesAfter(s, st, Emit(s, st, 6));
  }

  /** 0 + 1, after whatever came before. */
  lemma TimesRun(ext: Ext, code: seq<T.Inst>, v: nat, r: nat, locals: seq<i64>, regs: map<nat, i64>)
    requires r <= v && r in regs && regs[r] == 1 && Leaves(T.Meaning(ext), code, locals, regs)
    ensures Leaves(T.Meaning(ext), code + TimesCode(v, r), locals, regs[v + 2 := 0][v + 1 := 1])
  {
    var alu, sum := T.Meaning(ext), TimesCode(v, r);
    LeavesMore(alu, code, locals, regs, sum[0]);
    assert T.Result(ext, sum[1], 0, 1) == Binary(Add, 0, 1) == 1;
    LeavesMore(alu, code + [sum[0]], locals, regs[v + 2 := 0], sum[1]);
    assert code + [sum[0]] + [sum[1]] == code + sum;
  }

  /** The constant 1 has its register. */
  lemma OneHeld(ext: Ext, s: Sea, rank: seq<nat>, st: Raised, locals: seq<i64>) returns (regs: map<nat, i64>)
    requires TimesReduced(s) && Sane(s, rank) && Right(ext, s, st) && InRange(s, locals) && 5 in st.vregOf
    ensures Leaves(T.Meaning(ext), st.code, locals, regs) && st.vregOf[5] in regs && regs[st.vregOf[5]] == 1
  {
    var v := ReadingModel(ext, s, rank, locals);
    assert RightFor(ext, st, locals, v);
    regs :| LeavesRight(ext, st, locals, v, regs);
    assert Holds(v, st.vregOf, regs, 5);
    ConstValue(ext, s, v, 5);
    assert Wrap(1) == 1;
  }

  lemma TimesStops(s: Sea)
    requires TimesReduced(s)
    ensures s.WellFormed() && |s.nodes| == 10 && s.Inputs(s.stop)[0] == Edge(6, Data)
    ensures s.stop < |s.nodes| && s.nodes[s.stop].kind == Stop
  {
    TimesInputs(s);
  }

  lemma TimesInRange(s: Sea, locals: seq<i64>)
    requires TimesReduced(s) && |locals| > 0
    ensures InRange(s, locals)
  {
  }

  lemma SumReturned(ext: Ext, st: Raised, t: Raised, labels: nat, f: T.Function, locals: seq<i64>, regs: map<nat, i64>)
    requires 5 in st.vregOf && st.vregOf[5] <= st.vregs && st.vregOf[5] in regs && regs[st.vregOf[5]] == 1
    requires Leaves(T.Meaning(ext), st.code, locals, regs)
    requires t == Raised(st.code + TimesCode(st.vregs, st.vregOf[5]), st.vregs + 2,
        st.vregOf[9 := st.vregs + 2][6 := st.vregs + 1])
    requires f == Returning(t, 6, labels)
    ensures T.Answers(T.Meaning(ext), f, locals, T.Answer(1, locals))
  {
    TimesRun(ext, st.code, st.vregs, st.vregOf[5], locals, regs);
    assert f.insts[..|f.insts| - 1] == t.code;
    LeavesReturn(T.Meaning(ext), f, regs[st.vregs + 2 := 0][st.vregs + 1 := 1], st.vregs + 1, locals);
  }

  /** Whatever is raised from the reduced graph, its constant 8 dead or not, returns 1, whatever the local holds. */
  lemma TimesReturnsOne(ext: Ext, s: Sea, rank: seq<nat>, st: Raised, labels: nat, f: T.Function, locals: seq<i64>)
    requires TimesReduced(s) && Sane(s, rank) && s.HasSlice(s.stop) && RaisedFrom(ext, s, rank, st, labels, f)
    requires |locals| > 0
    ensures T.Answers(T.Meaning(ext), f, locals, T.Answer(1, locals))
  {
    TimesStarts(s, rank, st);
    TimesEmitted(s, st);
    TimesInRange(s, locals);
    TimesTame(s);
    TimesStops(s);
    StopOperand(s, rank);
    var regs := OneHeld(ext, s, rank, st, locals);
    SumReturned(ext, st, EmitTo(s, st, 10), labels, f, locals, regs);
  }

  /** Raising accepts that graph, and its ids are out of order. */
  lemma TimesOutOfOrder(s: Sea)
    requires TimesReduced(s)
    ensures Sane(s, TIMES_RANKS) && Tame(s) && !InIdOrder(s, TIMES_RANKS)
  {
    TimesSane(s);
    TimesTame(s);
    TimesOnLoad(s, TIMES_RANKS, 6);
    TimesOnLoad(s, TIMES_RANKS, 9);
    TimesPure(s, 6);
    TimesOperands(s);
    assert 9 in DataOf(s, 6);
    assert !IdOrderAt(s, TIMES_RANKS, 6);
  }
}
