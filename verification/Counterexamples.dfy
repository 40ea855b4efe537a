/** Inputs that show what the preconditions of the theorems are for. */
module Counterexamples {
  import opened SeaOfNodes
  import opened UsePool
  import opened Int64
  import opened Valuation
  import opened Rewrites
  import opened PassCore
  import opened FoldPasses
  import opened StrengthReduction
  import opened ValueNumbers
  import opened Gvn
  import opened CleanupPasses
  import opened Reachability

  // ----- a commutative flag on an operation that is not -----

  /** The constants x and y, and nodes that combine them in either order, both flagged commutative. */
  function SwapGraph(k: NodeKind, x: i64, y: i64): Sea {
    var flags := {Pure, GVNable, Commutative};
    Sea([Node(Start, {}, Top, 0, 0, 0), Node(ConstInt, {Pure}, TInt, x, 0, 0), Node(ConstInt, {Pure}, TInt, y, 0, 0),
         Node(k, flags, TInt, 0, 0, 2), Node(k, flags, TInt, 0, 2, 2)],
        [Edge(1, Data), Edge(2, Data), Edge(2, Data), Edge(1, Data)], 0, NO_NODE)
  }

  lemma SwapInputs(k: NodeKind, x: i64, y: i64)
    ensures var s := SwapGraph(k, x, y);
      DataWired(s) && s.Inputs(3) == [Edge(1, Data), Edge(2, Data)] && s.Inputs(4) == [Edge(2, Data), Edge(1, Data)]
      && s.Inputs(1) == s.Inputs(2) == []
  {
  }

  lemma TwoIds(a: nat, b: nat)
    ensures IdsOf([Edge(a, Data), Edge(b, Data)]) == [a, b]
  {
    assert [Edge(b, Data)][1..] == [];
    assert IdsOf([Edge(b, Data)]) == [b] + IdsOf([]);
    assert [Edge(a, Data), Edge(b, Data)][1..] == [Edge(b, Data)];
  }

  lemma SwapKeys(k: NodeKind, x: i64, y: i64)
    ensures SwapGraph(k, x, y).HasSlice(3) && SwapGraph(k, x, y).HasSlice(4)
    ensures KeyOf(SwapGraph(k, x, y), 3) == KeyOf(SwapGraph(k, x, y), 4)
  {
    var s := SwapGraph(k, x, y);
    SwapInputs(k, x, y);
    TwoIds(1, 2);
    TwoIds(2, 1);
    assert multiset([1, 2]) == multiset([2, 1]);
    CommutativeKeys(s, 3, 4);
  }

  lemma ConstantOk(ext: Ext, s: Sea, v: seq<i64>, n: nat, x: i64)
    requires DataWired(s) && |v| == |s.nodes| && n < |s.nodes|
    requires s.nodes[n].kind == ConstInt && s.nodes[n].payload == x
    ensures ValueOk(ext, s, v, n) <==> v[n] == x
  {
    WrapInRange(x);
  }

  lemma CombinedOk(ext: Ext, s: Sea, v: seq<i64>, n: nat, a: nat, b: nat)
    requires DataWired(s) && |v| == |s.nodes| && n < |s.nodes| && IsBinary(s.nodes[n].kind)
    requires a < |v| && b < |v| && s.Inputs(n) == [Edge(a, Data), Edge(b, Data)]
    ensures ValueOk(ext, s, v, n) <==> v[n] == Binary(s.nodes[n].kind, v[a], v[b])
  {
    TwoArgs(a, b, v);
  }

  lemma FiveModel(ext: Ext, s: Sea, v: seq<i64>)
    requires DataWired(s) && |v| == |s.nodes| == 5 && !IsValueKind(s.nodes[0].kind)
    ensures Models(ext, s, v) <==>
      ValueOk(ext, s, v, 1) && ValueOk(ext, s, v, 2) && ValueOk(ext, s, v, 3) && ValueOk(ext, s, v, 4)
  {
    assert ValueOk(ext, s, v, 0);
  }

  lemma SwapValues(ext: Ext, k: NodeKind, x: i64, y: i64, v: seq<i64>)
    requires IsBinary(k) && DataWired(SwapGraph(k, x, y)) && |v| == 5
    ensures Models(ext, SwapGraph(k, x, y), v) <==>
        v[1] == x && v[2] == y && v[3] == Binary(k, x, y)
        && v[4] == Binary(k, y, x)
  {
    var s := SwapGraph(k, x, y);
    SwapInputs(k, x, y);
    FiveModel(ext, s, v);
    ConstantOk(ext, s, v, 1, x);
    ConstantOk(ext, s, v, 2, y);
    CombinedOk(ext, s, v, 3, 1, 2);
    CombinedOk(ext, s, v, 4, 2, 1);
  }

  lemma SwapMerges(s: Sea, k: NodeKind, x: i64, y: i64)
    requires IsBinary(k) && s == SwapGraph(k, x, y)
    ensures s.WellFormed() && MergePlan(s, SeenAfter(s, map[], 3), 4) == Rewrite([], 3, 0)
  {
    SwapInputs(k, x, y);
    SwapKeys(k, x, y);
  }

  lemma SwapEqual(ext: Ext, s: Sea, k: NodeKind, x: i64, y: i64)
    requires IsBinary(k) && s == SwapGraph(k, x, y)
    ensures DataWired(s) && (EqualValues(ext, s, 3, 4) <==> Binary(k, x, y) == Binary(k, y, x))
  {
    SwapInputs(k, x, y);
    SwapValues(ext, k, x, y, [0, x, y, Binary(k, x, y), Binary(k, y, x)]);
    forall w | Models(ext, s, w)
      ensures w[3] == Binary(k, x, y) && w[4] == Binary(k, y, x)
    {
      SwapValues(ext, k, x, y, w);
    }
  }

  /** Value numbering gives both nodes one key and merges them, whatever the operation; their values are the same
      exactly if the operation does not care about the order here. */
  lemma MergeIff(ext: Ext, k: NodeKind, x: i64, y: i64)
    requires IsBinary(k)
    ensures var s := SwapGraph(k, x, y);
      DataWired(s) && MergePlan(s, SeenAfter(s, map[], 3), 4) == Rewrite([], 3, 0)
      && (EqualValues(ext, s, 3, 4) <==> Binary(k, x, y) == Binary(k, y, x))
  {
    SwapMerges(SwapGraph(k, x, y), k, x, y);
    SwapEqual(ext, SwapGraph(k, x, y), k, x, y);
  }

  /** So the flag is safe on a binary operation if and only if it is one of the symmetric ones. */
  lemma FlagHonestIff(ext: Ext, k: NodeKind)
    requires IsBinary(k)
    ensures (forall x: i64, y: i64 ::
        DataWired(SwapGraph(k, x, y)) && EqualValues(ext, SwapGraph(k, x, y), 3, 4)) <==> k in SYMMETRIC
  {
    forall x: i64, y: i64
      ensures DataWired(SwapGraph(k, x, y)) && (EqualValues(ext, SwapGraph(k, x, y), 3, 4) <==>
          Binary(k, x, y) == Binary(k, y, x))
    {
      MergeIff(ext, k, x, y);
    }
    SymmetricIff(k);
  }

  // ----- a division that the shift rounds down -----

  /** -1 / 2 */
  predicate HalfGraph(s: Sea) {
    && |s.nodes| == 4 && s.start == 0 && s.stop == NO_NODE && s.edges == [Edge(1, Data), Edge(2, Data)]
    && s.nodes[0] == Node(Start, {}, Top, 0, 0, 0)
    && s.nodes[1] == Node(ConstInt, {Pure}, TInt, -1, 0, 0) && s.nodes[2] == Node(ConstInt, {Pure}, TInt, 2, 0, 0)
    && s.nodes[3] == Node(Div, {Pure}, TInt, 0, 0, 2)
  }

  lemma HalfShiftable(s: Sea)
    requires HalfGraph(s)
    ensures DataWired(s) && Sane(s, [0, 0, 0, 1]) && Shiftable(s, 3, 1, 1)
  {
    assert s.Inputs(3) == [Edge(1, Data), Edge(2, Data)];
    assert s.Inputs(0) == s.Inputs(1) == s.Inputs(2) == [];
    TwoData(1, 2);
    assert Wrap(2) == 2 && Pow2(1) == 2 * Pow2(0);
  }

  lemma HalfQuotients()
    ensures Binary(Div, -1, 2) == 0 && Binary(Shr, -1, 1) == -1
  {
    assert Quotient(-1, 2) == -(1 / 2);
    assert ShiftCount(1) == 1 && Pow2(1) == 2 * Pow2(0);
    assert ShiftRight(-1, 1) == -1;
  }

  lemma HalfValues(ext: Ext, s: Sea, t: Sea, f: NewNode, g: NewNode, w: seq<i64>)
    requires HalfGraph(s) && (f, g) == ShiftNodes(s, Div, 1, 1) && t == Appended(s, f)
    requires DataWired(s) && DataWired(t) && DataWired(Appended(t, g)) && Models(ext, Appended(t, g), w)
    ensures |w| == 6 && w[3] == 0 && w[5] == -1
  {
    HalfShiftable(s);
    HalfQuotients();
    AppendPrefix(ext, t, g, w);
    AppendPrefix(ext, s, f, w[..5]);
    assert w[..5][..4] == w[..4];
    ShiftedValue(ext, s, 3, 1, 1, w[..4]);
    ConstValue(ext, s, w[..4], 1);
    ConstValue(ext, t, w[..5], 4);
    ShiftNodeValue(ext, t, g, 1, 4, w);
    assert Pow2(1) == 2 * Pow2(0) && Wrap(-1) == -1 && Wrap(1) == 1;
  }

  /** The rule fires, and turns the quotient 0 into -1. */
  lemma DivisionRounds(ext: Ext, s: Sea)
    requires HalfGraph(s)
    ensures DataWired(s) && ReduceStrengthPlan(s, 3).Rewrite? && ReduceStrengthPlan(s, 3).to == 5
    ensures var t := AppendAll(s, ReduceStrengthPlan(s, 3).extra);
      DataWired(t) && !EqualValues(ext, t, 3, 5) && forall w :: Models(ext, t, w) ==>
          |w| == 6 && w[3] == 0 && w[5] == -1
  {
    HalfShiftable(s);
    var n := ShiftNodes(s, Div, 1, 1);
    ShiftPlan(s, 3, 1, 1);
    ShiftNodesWired(s, Div, 1, 1);
    var v := ModelExists(ext, s, [0, 0, 0, 1], [0, 0, 0, 0]);
    var w := ExtendTwice(ext, s, n.0, n.1, v);
    forall w | Models(ext, Appended(Appended(s, n.0), n.1), w) ensures |w| == 6 && w[3] == 0 && w[5] == -1 {
      HalfValues(ext, s, Appended(s, n.0), n.0, n.1, w);
    }
  }

  // ----- a counter that wraps around -----

  /** A constant, and two nodes that use it 2^15 times each. */
  ghost function WrapGraph(): Sea {
    Sea([Node(Start, {}, Top, 0, 0, 0), Node(ConstInt, {Pure}, TInt, 0, 0, 0),
         Node(Call, {}, TInt, 0, 0, 0x8000), Node(Call, {}, TInt, 0, 0x8000, 0x8000)],
        seq(0x1_0000, _ => Edge(1, Data)), 0, NO_NODE)
  }

  lemma {:induction false} AllToOne(es: seq<Edge>)
    requires forall i :: 0 <= i < |es| ==> es[i].target == 1
    ensures EdgeCount(es, 1) == |es|
  {
    if |es| > 0 { AllToOne(es[..|es| - 1]); }
  }

  /** Dead code elimination takes the constant for unused, and leaves 2^16 edges to a dead node. */
  lemma CounterWraps()
    ensures var s := WrapGraph();
      s.WellFormed() && DeadUnused(s) && 1 in Unused(s) && EdgeCount(s.edges, 1) == 0x1_0000
          && !DeadUnused(Swept(s, Unused(s)))
  {
    var s := WrapGraph();
    AllToOne(s.edges);
    Low16IsMod(0x1_0000);
    DeadCodeIff(s);
  }

  // ----- pruning after folding -----

  /** return 1 + 2, as it is lowered. */
  predicate SumLowered(s: Sea) {
    && |s.nodes| == 6 && s.start == 1 && s.stop == 5
    && s.edges == [Edge(2, Data), Edge(3, Data), Edge(4, Data), Edge(1, Control), Edge(1, Effect)]
    && s.nodes[0] == Node(Start, {}, Top, 0, 0, 0) && s.nodes[1] == Node(Start, {IsControl, NoDeopt}, Top, 0, 0, 0)
    && s.nodes[2] == Node(ConstInt, {Pure, CSEable, GVNable, NoDeopt}, TInt, 1, 0, 0)
    && s.nodes[3] == Node(ConstInt, {Pure, CSEable, GVNable, NoDeopt}, TInt, 2, 0, 0)
    && s.nodes[4] == Node(Add, {Pure, GVNable, Commutative}, TInt, 0, 0, 2)
    && s.nodes[5] == Node(Stop, {IsControl, NoDeopt}, Bottom, 0, 2, 3)
  }

  /** The sum is folded: node 4 is dead and keeps its operands, Stop has a new constant. */
  predicate SumFolded(s: Sea) {
    && |s.nodes| == 7 && s.start == 1 && s.stop == 5
    && s.edges == [Edge(2, Data), Edge(3, Data), Edge(6, Data), Edge(1, Control), Edge(1, Effect)]
    && s.nodes[0] == Node(Start, {}, Top, 0, 0, 0) && s.nodes[1] == Node(Start, {IsControl, NoDeopt}, Top, 0, 0, 0)
    && s.nodes[2] == Node(ConstInt, {Pure, CSEable, GVNable, NoDeopt}, TInt, 1, 0, 0)
    && s.nodes[3] == Node(ConstInt, {Pure, CSEable, GVNable, NoDeopt}, TInt, 2, 0, 0)
    && s.nodes[4] == Node(Add, {Pure, GVNable, Commutative, IsDead}, TInt, 0, 0, 2)
    && s.nodes[5] == Node(Stop, {IsControl, NoDeopt}, Bottom, 0, 2, 3)
    && s.nodes[6] == Node(ConstInt, {Pure, CSEable, GVNable}, TInt, 3, 5, 0)
  }

  lemma TwoData(a: nat, b: nat)
    ensures OfKind([Edge(a, Data), Edge(b, Data)], Data) == [a, b]
  {
    assert [Edge(b, Data)][1..] == [];
    assert OfKind([Edge(b, Data)], Data) == [b] + OfKind([], Data);
    assert [Edge(a, Data), Edge(b, Data)][1..] == [Edge(b, Data)];
  }

  lemma SumPlan(s: Sea)
    requires SumLowered(s)
    ensures s.HasSlice(4)
    ensures FoldConstantsPlan(s, 4) == Rewrite([NewNode(ConstInt, {Pure, CSEable, GVNable}, TInt, 3, [])], 6, 1)
  {
    assert s.Inputs(4) == [Edge(2, Data), Edge(3, Data)];
    TwoData(2, 3);
    assert Wrap(1) == 1 && Wrap(2) == 2 && Wrap(3) == 3;
  }

  lemma SumFolds(s: Sea)
    requires SumLowered(s)
    ensures s.HasSlice(4) && SumFolded(Applied(s, 4, FoldConstantsPlan(s, 4)))
  {
    SumPlan(s);
    var f := NewNode(ConstInt, {Pure, CSEable, GVNable}, TInt, 3, []);
    AppendOne(s, f);
    assert s.edges + [] == s.edges;
    var t := Applied(s, 4, FoldConstantsPlan(s, 4));
    assert t.edges == RedirectEdges(s.edges, 4, 6);
    var nodes := s.nodes + [Node(ConstInt, f.flags, TInt, 3, 5, 0)];
    assert t.nodes == nodes[4 := nodes[4].(flags := nodes[4].flags + {IsDead})];
    assert {Pure, GVNable, Commutative} + {IsDead} == {Pure, GVNable, Commutative, IsDead};
    assert t.edges == [Edge(2, Data), Edge(3, Data), Edge(6, Data), Edge(1, Control), Edge(1, Effect)];
    forall n | 0 <= n < 6 && n != 4 ensures t.nodes[n] == s.nodes[n] {}
  }

  lemma SumInputs(s: Sea)
    requires SumFolded(s)
    ensures s.WellFormed() && DataWired(s) && DeadUnused(s)
    ensures s.Inputs(0) == [] && s.Inputs(1) == [] && s.Inputs(2) == [] && s.Inputs(3) == [] && s.Inputs(6) == []
    ensures s.Inputs(4) == [Edge(2, Data), Edge(3, Data)]
        && s.Inputs(5) == [Edge(6, Data), Edge(1, Control), Edge(1, Effect)]
  {
  }

  lemma SumLeafTame(s: Sea, n: nat)
    requires SumFolded(s) && n < 7 && n != 4 && n != 5
    ensures s.HasSlice(n) && TameAt(s, n)
  {
    SumInputs(s);
  }

  lemma SumUsersTame(s: Sea)
    requires SumFolded(s)
    ensures s.HasSlice(4) && TameAt(s, 4) && s.HasSlice(5) && TameAt(s, 5)
  {
    SumInputs(s);
  }

  lemma SumTame(s: Sea)
    requires SumFolded(s)
    ensures s.WellFormed() && Tame(s)
  {
    SumInputs(s);
    SumUsersTame(s);
    forall n | 0 <= n < |s.nodes| ensures TameAt(s, n) {
      if n != 4 && n != 5 { SumLeafTame(s, n); }
    }
  }

  lemma SumFeeds(s: Sea)
    requires SumFolded(s)
    ensures s.HasSlice(5) && Feeds(s, 5) == {1, 6}
    ensures forall x, y :: x in {1, 6} ==> !FeedStep(s)(x, y)
  {
    SumInputs(s);
    assert Edge(1, Effect) in s.Inputs(5) && Edge(6, Data) in s.Inputs(5);
    assert FeedStep(s)(5, 1) && FeedStep(s)(5, 6);
  }

  lemma OnlyRoots(step: Step, roots: set<nat>, x: nat)
    requires (forall y, z :: y in roots ==> !step(y, z)) && x !in roots
    ensures !Reached(step, roots, x)
  {
    forall y | y in roots ensures Reached(step, roots, y) { ReachedRoot(step, roots, y); }
    FrontierDone(step, roots, roots);
  }

  lemma SumNeeds(s: Sea)
    requires SumFolded(s)
    ensures !Contributes(s, 2)
  {
    SumFeeds(s);
    OnlyRoots(FeedStep(s), Feeds(s, 5), 2);
  }

  /** After constant folding of 1 + 2, pruning kills the operands although the dead sum still counts as their user. */
  lemma PruningLeavesUses(s: Sea)
    requires SumLowered(s)
    ensures s.HasSlice(4)
    ensures var t := Applied(s, 4, FoldConstantsPlan(s, 4));
      DataWired(t) && Tame(t) && DeadUnused(t) && !DeadUnused(Swept(t, Pruned(t)))
  {
    SumFolds(s);
    var t := Applied(s, 4, FoldConstantsPlan(s, 4));
    SumInputs(t);
    SumTame(t);
    SumNeeds(t);
    PruneTameIff(t);
    assert t.edges[0].target == 2;
  }

  /** There is such a graph. */
  lemma SumExists()
    ensures exists s :: SumLowered(s)
  {
    var constant := {Pure, CSEable, GVNable, NoDeopt};
    assert SumLowered(
      Sea([Node(Start, {}, Top, 0, 0, 0), Node(Start, {IsControl, NoDeopt}, Top, 0, 0, 0),
           Node(ConstInt, constant, TInt, 1, 0, 0), Node(ConstInt, constant, TInt, 2, 0, 0),
           Node(Add, {Pure, GVNable, Commutative}, TInt, 0, 0, 2), Node(Stop, {IsControl, NoDeopt}, Bottom, 0, 2, 3)],
          [Edge(2, Data), Edge(3, Data), Edge(4, Data), Edge(1, Control), Edge(1, Effect)], 1, 5));
  }
}
