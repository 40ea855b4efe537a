/** Strength reduction: multiplications and divisions by powers of two become shifts. Exact for multiplication,
    and for division just where nothing is rounded. */
module StrengthReduction {
  import opened SeaOfNodes
  import opened Int64
  import opened Powers
  import opened Valuation
  import opened Rewrites
  import opened PassCore
  import opened FoldPasses

  /** Node id is a multiplication or division by the constant c = 2^k of operand x. */
  ghost predicate Shiftable(s: Sea, id: nat, x: nat, k: nat)
    requires s.WellFormed() && id < |s.nodes|
  {
    && k < 63 && s.nodes[id].kind in {Mul, Div} && TwoOperands(s, id) && DataOf(s, id)[0] == x
    && IsConst(s, DataOf(s, id)[1], Pow2(k))
  }

  function ShiftNodes(s: Sea, kind: NodeKind, x: nat, k: nat): (NewNode, NewNode) {
    (ConstNode(k, {Pure, GVNable}),
     NewNode(if kind == Mul then Shl else Shr, {Pure, GVNable}, TInt, 0, [Edge(x, Data), Edge(|s.nodes|, Data)]))
  }

  lemma ShiftableFires(s: Sea, id: nat, x: nat, k: nat)
    requires s.WellFormed() && id < |s.nodes| && Shiftable(s, id, x, k)
    ensures var n := ShiftNodes(s, s.nodes[id].kind, x, k);
      ReduceStrengthPlan(s, id) == Rewrite([n.0, n.1], |s.nodes| + 1, 2)
  {
    Log2OfPow2(k);
    ClearLowestBit(Pow2(k));
  }

  lemma FiresShiftable(s: Sea, id: nat) returns (x: nat, k: nat)
    requires s.WellFormed() && id < |s.nodes| && ReduceStrengthPlan(s, id).Rewrite?
    ensures Shiftable(s, id, x, k)
  {
    var c := Wrap(s.nodes[DataOf(s, id)[1]].payload);
    ClearLowestBit(c);
    ExponentFits(c);
    x, k := DataOf(s, id)[0], Log2(c);
  }

  /** The rule fires exactly for positive powers of two. */
  lemma ReduceStrengthFires(s: Sea, id: nat)
    requires s.WellFormed() && id < |s.nodes|
    ensures ReduceStrengthPlan(s, id).Keep? <==> forall x, k :: !Shiftable(s, id, x, k)
    ensures forall x, k :: Shiftable(s, id, x, k) ==>
      var n := ShiftNodes(s, s.nodes[id].kind, x, k);
      ReduceStrengthPlan(s, id) == Rewrite([n.0, n.1], |s.nodes| + 1, 2)
  {
    forall x, k | Shiftable(s, id, x, k)
      ensures var n := ShiftNodes(s, s.nodes[id].kind, x, k);
              ReduceStrengthPlan(s, id) == Rewrite([n.0, n.1], |s.nodes| + 1, 2)
    {
      ShiftableFires(s, id, x, k);
    }
    if ReduceStrengthPlan(s, id).Rewrite? { var x, k := FiresShiftable(s, id); }
  }

  predicate Unrounded(x: int, c: int)
    requires c > 0
  {
    x >= 0 || x % c == 0
  }

  lemma CountFits(k: nat)
    requires k < 63
    ensures ShiftCount(k) == k && IsI64(k)
  {
  }

  lemma LeftShiftValue(x: i64, k: nat)
    requires k < 63 && Pow2(k) < TWO_63
    ensures Binary(Shl, x, k) == Binary(Mul, x, Pow2(k))
  {
    CountFits(k);
  }

  lemma RightShiftValue(x: i64, k: nat)
    requires k < 63 && Pow2(k) < TWO_63
    ensures Binary(Shr, x, k) == Binary(Div, x, Pow2(k)) <==> Unrounded(x, Pow2(k))
  {
    CountFits(k);
    ShiftIsQuotient(x, k);
  }

  lemma ShiftValue(kind: NodeKind, x: i64, k: nat)
    requires k < 63 && kind in {Mul, Div}
    ensures Pow2(k) < TWO_63
    ensures Binary(if kind == Mul then Shl else Shr, x, k) == Binary(kind, x, Pow2(k)) <==>
        kind == Mul || Unrounded(x, Pow2(k))
  {
    Pow2Fits(k);
    if kind == Div { RightShiftValue(x, k); } else { LeftShiftValue(x, k); }
  }

  lemma ShiftedValue(ext: Ext, s: Sea, id: nat, x: nat, k: nat, v: seq<i64>)
    requires DataWired(s) && id < |s.nodes| && Shiftable(s, id, x, k) && Models(ext, s, v)
    ensures Pow2(k) < TWO_63 && x < |v| && v[id] == Binary(s.nodes[id].kind, v[x], Pow2(k))
  {
    Pow2Fits(k);
    BinaryValue(ext, s, v, id);
    ConstValue(ext, s, v, DataOf(s, id)[1]);
  }

  lemma ShiftNodeValue(ext: Ext, t: Sea, f: NewNode, x: nat, c: nat, v: seq<i64>)
    requires DataWired(t) && t.Live(x) && t.Live(c) && f.kind in {Shl, Shr}
        && f.inputs == [Edge(x, Data), Edge(c, Data)]
    requires DataWired(Appended(t, f)) && Models(ext, Appended(t, f), v)
    ensures |v| == |t.nodes| + 1 && v[|t.nodes|] == Binary(f.kind, v[x], v[c])
  {
    assert f.inputs[0].target == x && f.inputs[1].target == c;
    AppendedValue(ext, t, f, v);
    TwoArgs(x, c, v[..|t.nodes|]);
  }

  /** In the extended graph the shift has the value of the multiplication or division just in the unrounded case. */
  lemma ShiftEqual(ext: Ext, s: Sea, id: nat, x: nat, k: nat, v: seq<i64>)
    requires DataWired(s) && id < |s.nodes| && Shiftable(s, id, x, k) && s.Live(x)
    requires var n := ShiftNodes(s, s.nodes[id].kind, x, k);
             DataWired(Appended(s, n.0)) && DataWired(Appended(Appended(s, n.0), n.1))
             && Models(ext, Appended(Appended(s, n.0), n.1), v)
    ensures |v| == |s.nodes| + 2 && Models(ext, s, v[..|s.nodes|])
    ensures v[id] == v[|s.nodes| + 1] <==> s.nodes[id].kind == Mul || Unrounded(v[x], Pow2(k))
  {
    var n := ShiftNodes(s, s.nodes[id].kind, x, k);
    var t := Appended(s, n.0);
    AppendPrefix(ext, t, n.1, v);
    AppendPrefix(ext, s, n.0, v[..|t.nodes|]);
    assert v[..|t.nodes|][..|s.nodes|] == v[..|s.nodes|];
    ShiftedValue(ext, s, id, x, k, v[..|s.nodes|]);
    ConstValue(ext, t, v[..|t.nodes|], |s.nodes|);
    WrapInRange(k);
    ShiftNodeValue(ext, t, n.1, x, |s.nodes|, v);
    ShiftValue(s.nodes[id].kind, v[x], k);
  }

  lemma ShiftNodesWired(s: Sea, kind: NodeKind, x: nat, k: nat)
    requires DataWired(s) && s.Live(x)
    ensures var n := ShiftNodes(s, kind, x, k);
            && AppendAll(s, [n.0, n.1]) == Appended(Appended(s, n.0), n.1)
            && DataWired(Appended(s, n.0)) && GoodInputs(Appended(s, n.0), n.1.inputs)
            && DataWired(Appended(Appended(s, n.0), n.1))
  {
    var n := ShiftNodes(s, kind, x, k);
    AppendTwo(s, n.0, n.1);
    AppendWired(s, ConstInt, n.0.flags, TInt, k, []);
    AppendWired(Appended(s, n.0), n.1.kind, n.1.flags, TInt, 0, n.1.inputs);
  }

  lemma ShiftIff(ext: Ext, s: Sea, id: nat, x: nat, k: nat)
    requires DataWired(s) && id < |s.nodes| && Shiftable(s, id, x, k) && s.Live(x)
    requires var n := ShiftNodes(s, s.nodes[id].kind, x, k);
             DataWired(Appended(s, n.0)) && DataWired(Appended(Appended(s, n.0), n.1))
                 && GoodInputs(Appended(s, n.0), n.1.inputs)
    ensures var n := ShiftNodes(s, s.nodes[id].kind, x, k);
      EqualValues(ext, Appended(Appended(s, n.0), n.1), id, |s.nodes| + 1)
      <==> s.nodes[id].kind == Mul || forall v :: Models(ext, s, v) ==> x < |v| && Unrounded(v[x], Pow2(k))
  {
    var n := ShiftNodes(s, s.nodes[id].kind, x, k);
    var u := Appended(Appended(s, n.0), n.1);
    forall v | Models(ext, u, v)
      ensures |v| == |s.nodes| + 2 && Models(ext, s, v[..|s.nodes|])
      ensures v[id] == v[|s.nodes| + 1] <==> s.nodes[id].kind == Mul || Unrounded(v[..|s.nodes|][x], Pow2(k))
    {
      ShiftEqual(ext, s, id, x, k, v);
    }
    if EqualValues(ext, u, id, |s.nodes| + 1) && s.nodes[id].kind == Div {
      forall v | Models(ext, s, v) ensures x < |v| && Unrounded(v[x], Pow2(k)) {
        var w := ExtendTwice(ext, s, n.0, n.1, v);
        assert w[id] == w[|s.nodes| + 1];
      }
    }
  }

  /** Strength reduction keeps the value of a multiplication always, and that of a division if and only if
      the dividend is non-negative or divisible in every valuation. */
  lemma ReduceStrengthIff(ext: Ext, s: Sea, rank: seq<nat>, id: nat, x: nat, k: nat)
    requires Sane(s, rank) && id < |s.nodes| && s.Live(id) && Shiftable(s, id, x, k)
    ensures ReduceStrengthPlan(s, id).Rewrite?
    ensures var t := AppendAll(s, ReduceStrengthPlan(s, id).extra);
            && DataWired(t)
            && (EqualValues(ext, t, id, |s.nodes| + 1)
                <==> s.nodes[id].kind == Mul || forall v :: Models(ext, s, v) ==> x < |v| && Unrounded(v[x], Pow2(k)))
  {
    ReduceStrengthFires(s, id);
    OperandFacts(s, rank, id, 0);
    ShiftNodesWired(s, s.nodes[id].kind, x, k);
    ShiftIff(ext, s, id, x, k);
  }

  // ----- when divisions may be shifted -----

  ghost predicate DivisorIs(ext: Ext, s: Sea, n: nat, c: int)
    requires DataWired(s) && n < |s.nodes|
  {
    forall v :: Models(ext, s, v) ==> |Operands(s, n, v)| == 2 && Operands(s, n, v)[1] == c
  }

  ghost predicate DividendsExact(ext: Ext, s: Sea, n: nat, c: int)
    requires DataWired(s) && n < |s.nodes| && c > 0
  {
    forall v :: Models(ext, s, v) ==> |Operands(s, n, v)| == 2 && Unrounded(Operands(s, n, v)[0], c)
  }

  /** The values of node n's data inputs. */
  ghost function Operands(s: Sea, n: nat, v: seq<i64>): seq<i64>
    requires DataWired(s) && n < |s.nodes| && |v| == |s.nodes|
  {
    InputsWired(s, n);
    Args(s.Inputs(n), v)
  }

  /** A division whose divisor is always the same power of two has dividends that divide without rounding down. */
  ghost predicate ExactDivAt(ext: Ext, s: Sea, n: nat)
    requires DataWired(s) && n < |s.nodes|
  {
    s.nodes[n].kind == Div ==>
      forall k: nat {:trigger DivisorIs(ext, s, n, Pow2(k))} ::
        DivisorIs(ext, s, n, Pow2(k)) ==> DividendsExact(ext, s, n, Pow2(k))
  }

  ghost predicate ExactDivs(ext: Ext, s: Sea)
    requires DataWired(s)
  {
    forall n {:trigger ExactDivAt(ext, s, n)} :: 0 <= n < |s.nodes| ==> ExactDivAt(ext, s, n)
  }

  lemma OperandsCarried(ext: Ext, s: Sea, t: Sea, n: nat, v: seq<i64>, w: seq<i64>)
    requires DataWired(s) && DataWired(t) && n < |s.nodes| && Extends(s, t) && |v| == |s.nodes| && |w| == |t.nodes|
    requires OperandsKept(s, t, v, w)
    ensures Operands(s, n, v) == Operands(t, n, w)
  {
    InputsWired(s, n);
    InputsWired(t, n);
    assert SameNode(s.nodes[n], t.nodes[n]);
    var es, fs := s.Inputs(n), t.Inputs(n);
    forall i | 0 <= i < |es|
      ensures es[i].kind == fs[i].kind && (es[i].kind == Data ==> v[es[i].target] == w[fs[i].target])
    {
      var e := s.nodes[n].firstInput + i;
      assert es[i] == s.edges[e] && fs[i] == t.edges[e];
    }
    ArgsCongruent(es, fs, v, w);
  }

  /** Progress that adds no divisions keeps the divisions exact. */
  lemma ExactDivKept(ext: Ext, s0: Sea, s: Sea, rank0: seq<nat>, rank: seq<nat>, n: nat)
    requires Sane(s0, rank0) && Progress(ext, s0, s, rank) && ExactDivs(ext, s0)
    requires n < |s.nodes| && (n >= |s0.nodes| ==> s.nodes[n].kind != Div)
    ensures ExactDivAt(ext, s, n)
  {
    if s.nodes[n].kind == Div {
      assert ExactDivAt(ext, s0, n) && SameNode(s0.nodes[n], s.nodes[n]);
      forall k: nat | DivisorIs(ext, s, n, Pow2(k)) ensures DividendsExact(ext, s, n, Pow2(k)) {
        forall v | Models(ext, s0, v) ensures |Operands(s0, n, v)| == 2 && Operands(s0, n, v)[1] == Pow2(k) {
          var w :| Carries(ext, s0, s, v, w);
          OperandsCarried(ext, s0, s, n, v, w);
        }
        assert DivisorIs(ext, s0, n, Pow2(k));
        forall w | Models(ext, s, w) ensures |Operands(s, n, w)| == 2 && Unrounded(Operands(s, n, w)[0], Pow2(k)) {
          RefinesBothWays(ext, s0, s, rank0, rank, w);
          OperandsCarried(ext, s0, s, n, w[..|s0.nodes|], w);
        }
      }
    }
  }

  lemma ShiftableExact(ext: Ext, s: Sea, id: nat, x: nat, k: nat)
    requires DataWired(s) && id < |s.nodes| && ExactDivAt(ext, s, id) && Shiftable(s, id, x, k)
        && s.nodes[id].kind == Div
    ensures forall v :: Models(ext, s, v) ==> x < |v| && Unrounded(v[x], Pow2(k))
  {
    forall v | Models(ext, s, v)
      ensures x < |v| && |Operands(s, id, v)| == 2 && Operands(s, id, v)[0] == v[x] && Operands(s, id, v)[1] == Pow2(k)
    {
      ConstValue(ext, s, v, DataOf(s, id)[1]);
      InputsWired(s, id);
      ArgsAre(s.Inputs(id), v);
    }
    assert DivisorIs(ext, s, id, Pow2(k));
    assert DividendsExact(ext, s, id, Pow2(k));
  }

  lemma ShiftNodeOk(t: Sea, rank: seq<nat>, f: NewNode, x: nat, c: nat, r: nat)
    requires t.Live(x) && t.Live(c) && |rank| == |t.nodes| && rank[x] < r && rank[c] < r
    requires t.WellFormed() && Tame(t) ==> ValueNodes(t, c, x)
    requires f.kind in {Shl, Shr} && f.flags == {Pure, GVNable} && f.inputs == [Edge(x, Data), Edge(c, Data)]
    ensures NodeOk(t, rank, f, r)
  {
  }

  /** After the count is appended, the operand and the count compute. */
  lemma ShiftOperandsCompute(s: Sea, f: NewNode, id: nat, x: nat)
    requires s.WellFormed() && f.kind == ConstInt && f.inputs == [] && id < |s.nodes| && x in DataOf(s, id)
    requires IsValueKind(s.nodes[id].kind) && Appended(s, f).WellFormed() && Tame(Appended(s, f))
    ensures ValueNodes(Appended(s, f), |s.nodes|, x)
  {
    AppendKeepsOperands(s, f.kind, f.flags, f.ty, f.payload, f.inputs, id);
    var i :| 0 <= i < |DataOf(s, id)| && DataOf(s, id)[i] == x;
    TameOperand(Appended(s, f), id, i);
  }

  lemma CountNodeOk(s: Sea, rank: seq<nat>, k: nat)
    ensures NodeOk(s, rank, ConstNode(k, {Pure, GVNable}), 0)
  {
  }

  lemma FreshTwo(s: Sea, rank: seq<nat>, f: NewNode, g: NewNode, p: nat, q: nat)
    requires NodeOk(s, rank, f, p) && FreshOk(Appended(s, f), rank + [p], [g], [q])
    ensures FreshOk(s, rank, [f, g], [p, q])
  {
    assert [f, g][1..] == [g] && [p, q][1..] == [q];
  }

  lemma ShiftsFresh(s: Sea, rank: seq<nat>, id: nat, x: nat, k: nat)
    requires DataWired(s) && id < |s.nodes| == |rank| && s.Live(x) && rank[x] < rank[id]
    requires IsValueKind(s.nodes[id].kind) && x in DataOf(s, id)
    ensures var n := ShiftNodes(s, s.nodes[id].kind, x, k);
            FreshOk(s, rank, [n.0, n.1], [0, rank[id]]) && AppendAll(s, [n.0, n.1]).Live(|s.nodes| + 1)
  {
    var n := ShiftNodes(s, s.nodes[id].kind, x, k);
    var t := Appended(s, n.0);
    ShiftNodesWired(s, s.nodes[id].kind, x, k);
    if Tame(t) { ShiftOperandsCompute(s, n.0, id, x); }
    ShiftNodeOk(t, rank + [0], n.1, x, |s.nodes|, rank[id]);
    FreshPlanOk(t, rank + [0], n.1, rank[id]);
    CountNodeOk(s, rank, k);
    FreshTwo(s, rank, n.0, n.1, 0, rank[id]);
  }

  lemma ShiftPlan(s: Sea, id: nat, x: nat, k: nat)
    requires s.WellFormed() && id < |s.nodes| && Shiftable(s, id, x, k)
    ensures var n := ShiftNodes(s, s.nodes[id].kind, x, k);
      ReduceStrengthPlan(s, id) == Rewrite([n.0, n.1], |s.nodes| + 1, 2)
  {
    ReduceStrengthFires(s, id);
  }

  lemma ShiftValues(u: Sea, id: nat, to: nat)
    requires id < |u.nodes| && to < |u.nodes| && u.nodes[id].kind in {Mul, Div} && u.nodes[to].kind in {Shl, Shr}
    ensures ValueNodes(u, id, to)
  {
  }

  lemma LastRank(rank: seq<nat>, ranks: seq<nat>, n: nat)
    requires |ranks| == 2 && n == |rank| + 1
    ensures n < |rank + ranks| && (rank + ranks)[n] == ranks[1]
  {
  }

  lemma ShiftRewriteOk(ext: Ext, s: Sea, rank: seq<nat>, id: nat, extra: seq<NewNode>, plan: Plan, ranks: seq<nat>,
      u: Sea)
    requires id < |s.nodes| == |rank| && u == AppendAll(s, extra) && FreshOk(s, rank, extra, ranks)
    requires |s.nodes| + 1 < |rank + ranks| && (rank + ranks)[|s.nodes| + 1] == rank[id]
    requires |u.nodes| == |s.nodes| + 2 && ValueNodes(u, id, |s.nodes| + 1)
    requires plan == Rewrite(extra, |s.nodes| + 1, 2)
    requires DataWired(u) && EqualValues(ext, u, id, |s.nodes| + 1) && u.Live(|s.nodes| + 1)
    ensures PlanOk(ext, s, rank, id, plan, ranks)
  {
    PlanIntro(ext, s, rank, id, extra, |s.nodes| + 1, 2, ranks, u);
  }

  lemma ShiftPlanOk(ext: Ext, s: Sea, rank: seq<nat>, id: nat, x: nat, k: nat)
    requires DataWired(s) && id < |s.nodes| == |rank| && Shiftable(s, id, x, k) && s.Live(x) && rank[x] < rank[id]
    requires s.nodes[id].kind == Mul || forall v :: Models(ext, s, v) ==> x < |v| && Unrounded(v[x], Pow2(k))
    ensures PlanOk(ext, s, rank, id, ReduceStrengthPlan(s, id), [0, rank[id]])
  {
    var n := ShiftNodes(s, s.nodes[id].kind, x, k);
    ShiftNodesWired(s, s.nodes[id].kind, x, k);
    var u := Appended(Appended(s, n.0), n.1);
    assert DataWired(u) && EqualValues(ext, u, id, |s.nodes| + 1) by { ShiftIff(ext, s, id, x, k); }
    ShiftsFresh(s, rank, id, x, k);
    var plan := ReduceStrengthPlan(s, id);
    ShiftPlan(s, id, x, k);
    ShiftValues(u, id, |s.nodes| + 1);
    LastRank(rank, [0, rank[id]], |s.nodes| + 1);
    ShiftRewriteOk(ext, s, rank, id, [n.0, n.1], plan, [0, rank[id]], u);
  }

  lemma ReduceStrengthOk(ext: Ext, s: Sea, rank: seq<nat>, id: nat) returns (ranks: seq<nat>)
    requires Sane(s, rank) && id < |s.nodes| && s.Live(id) && ExactDivAt(ext, s, id)
    ensures PlanOk(ext, s, rank, id, ReduceStrengthPlan(s, id), ranks)
  {
    ranks := [0, rank[id]];
    if ReduceStrengthPlan(s, id).Rewrite? {
      ReduceStrengthFires(s, id);
      var x, k :| Shiftable(s, id, x, k);
      if s.nodes[id].kind == Div { ShiftableExact(ext, s, id, x, k); }
      OperandFacts(s, rank, id, 0);
      ShiftPlanOk(ext, s, rank, id, x, k);
    }
  }
}
