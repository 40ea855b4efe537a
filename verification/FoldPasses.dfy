/** Constant folding, algebraic simplification, comparison folding and strength reduction: passes that scan a
    graph which they extend at the end while they scan it. Each is a rule that proposes a plan for one node. */
module FoldPasses {
  import opened SeaOfNodes
  import opened UsePool
  import opened UseLists
  import opened Int64
  import opened Powers
  import opened Valuation
  import opened Rewrites
  import opened PassCore

  datatype Rule = FoldConstants | SimplifyAlgebra | FoldComparisons | ReduceStrength

  // ----- the rules -----

  /** The node computes on exactly two data inputs, both of which are nodes. */
  predicate TwoOperands(s: Sea, id: nat)
    requires s.HasSlice(id)
  {
    |DataOf(s, id)| == 2 && DataOf(s, id)[0] < |s.nodes| && DataOf(s, id)[1] < |s.nodes|
  }

  function ConstNode(c: int, flags: set<Flag>): NewNode {
    NewNode(ConstInt, flags, TInt, c, [])
  }

  function ConstPlan(s: Sea, c: int, flags: set<Flag>, reported: nat): Plan {
    Rewrite([ConstNode(c, flags)], |s.nodes|, reported)
  }

  function FoldConstantsPlan(s: Sea, id: nat): Plan
    requires s.HasSlice(id)
  {
    if !TwoOperands(s, id) then Keep
    else
      var a, b := s.nodes[DataOf(s, id)[0]], s.nodes[DataOf(s, id)[1]];
      if a.kind != ConstInt || b.kind != ConstInt then Keep
      else
        var av, bv := Wrap(a.payload), Wrap(b.payload);
        match s.nodes[id].kind
        case Add => ConstPlan(s, Wrap(av + bv), {Pure, CSEable, GVNable}, 1)
        case Sub => ConstPlan(s, Wrap(av - bv), {Pure, CSEable, GVNable}, 1)
        case Mul => ConstPlan(s, Wrap(av * bv), {Pure, CSEable, GVNable}, 1)
        case _ => Keep
  }

  function SimplifyAlgebraPlan(s: Sea, id: nat): Plan
    requires s.HasSlice(id)
  {
    if !TwoOperands(s, id) then Keep
    else
      var x, y := DataOf(s, id)[0], DataOf(s, id)[1];
      match s.nodes[id].kind
      case Add =>
        if IsConst(s, y, 0) then Rewrite([], x, 0) else if IsConst(s, x, 0) then Rewrite([], y, 0) else Keep
      case Sub =>
        if IsConst(s, y, 0) then Rewrite([], x, 0) else if x == y then ConstPlan(s, 0, {Pure, GVNable}, 0) else Keep
      case Mul =>
        if IsConst(s, x, 0) || IsConst(s, y, 0) then ConstPlan(s, 0, {Pure, GVNable}, 0)
        else if IsConst(s, y, 1) then Rewrite([], x, 0)
        else if IsConst(s, x, 1) then Rewrite([], y, 0)
        else Keep
      case Div => if IsConst(s, y, 1) then Rewrite([], x, 0) else Keep
      case _ => Keep
  }

  predicate IsComparison(k: NodeKind) { k in {Eq, Ne, Lt, Gt, Lte, Gte} }

  function Inverted(k: NodeKind): NodeKind
    requires IsComparison(k)
  {
    match k
    case Eq => Ne
    case Ne => Eq
    case Lt => Gte
    case Gt => Lte
    case Lte => Gt
    case _ => Lt
  }

  function FoldComparisonsPlan(s: Sea, id: nat): Plan
    requires s.WellFormed() && s.HasSlice(id)
  {
    var kind, data := s.nodes[id].kind, DataOf(s, id);
    if |data| == 2 && data[0] == data[1] && kind == Eq then ConstPlan(s, 1, {Pure, GVNable}, 0)
    else if |data| == 2 && data[0] == data[1] && kind == Ne then ConstPlan(s, 0, {Pure, GVNable}, 0)
    else if kind == Not && |data| == 1 && data[0] < |s.nodes| && IsComparison(s.nodes[data[0]].kind)
        && |DataOf(s, data[0])| == 2 then
      var inner := DataOf(s, data[0]);
      Rewrite([NewNode(Inverted(s.nodes[data[0]].kind), {Pure, GVNable, Commutative}, TBool, 0,
                       [Edge(inner[0], Data), Edge(inner[1], Data)])], |s.nodes|, 1)
    else Keep
  }

  function ReduceStrengthPlan(s: Sea, id: nat): Plan
    requires s.HasSlice(id)
  {
    if !TwoOperands(s, id) || s.nodes[id].kind !in {Mul, Div} then Keep
    else
      var x, b := DataOf(s, id)[0], s.nodes[DataOf(s, id)[1]];
      if b.kind != ConstInt || Wrap(b.payload) <= 0 || BitAnd(Wrap(b.payload), Wrap(b.payload) - 1) != 0 then Keep
      else
        Rewrite([ConstNode(Log2(Wrap(b.payload)), {Pure, GVNable}),
                 NewNode(if s.nodes[id].kind == Mul then Shl else Shr, {Pure, GVNable}, TInt, 0,
                         [Edge(x, Data), Edge(|s.nodes|, Data)])], |s.nodes| + 1, 2)
  }

  function PlanFor(rule: Rule, s: Sea, id: nat): Plan
    requires s.WellFormed() && id < |s.nodes|
  {
    if s.Dead(id) then Keep
    else match rule
      case FoldConstants => FoldConstantsPlan(s, id)
      case SimplifyAlgebra => SimplifyAlgebraPlan(s, id)
      case FoldComparisons => FoldComparisonsPlan(s, id)
      case ReduceStrength => ReduceStrengthPlan(s, id)
  }

  // ----- every plan is sound -----

  /** A plan whose only fresh node is a constant is sound if the constant is the node's value. */
  lemma ConstPlanOk(ext: Ext, s: Sea, rank: seq<nat>, id: nat, c: i64, flags: set<Flag>, reported: nat)
    requires Sane(s, rank) && id < |s.nodes| && IsValueKind(s.nodes[id].kind)
    requires Pure in flags && flags <= {Pure, CSEable, GVNable}
    requires forall v :: Models(ext, s, v) ==> v[id] == c
    ensures PlanOk(ext, s, rank, id, ConstPlan(s, c, flags, reported), [0])
  {
    var f := ConstNode(c, flags);
    var t := AppendAll(s, [f]);
    AppendOne(s, f);
    AppendWired(s, ConstInt, flags, TInt, c, []);
    forall v | Models(ext, t, v) ensures v[id] == v[|s.nodes|] {
      AppendPrefix(ext, s, f, v);
      ConstValue(ext, t, v, |s.nodes|);
      WrapInRange(c);
    }
    FreshPlanOk(s, rank, f, 0);
    PlanIntro(ext, s, rank, id, [f], |s.nodes|, reported, [0], t);
  }

  /** A plan without fresh nodes is sound if its target is an operand with the node's value. */
  lemma OperandPlanOk(ext: Ext, s: Sea, rank: seq<nat>, id: nat, i: nat)
    requires Sane(s, rank) && id < |s.nodes| && s.Live(id) && IsValueKind(s.nodes[id].kind) && i < |DataOf(s, id)|
    requires forall v :: Models(ext, s, v) ==> DataOf(s, id)[i] < |v| && v[id] == v[DataOf(s, id)[i]]
    ensures PlanOk(ext, s, rank, id, Rewrite([], DataOf(s, id)[i], 0), [])
  {
    OperandFacts(s, rank, id, i);
    if Tame(s) { TameOperand(s, id, i); }
    assert rank + [] == rank;
  }

  lemma FoldConstantsOk(ext: Ext, s: Sea, rank: seq<nat>, id: nat) returns (ranks: seq<nat>)
    requires Sane(s, rank) && id < |s.nodes|
    ensures PlanOk(ext, s, rank, id, FoldConstantsPlan(s, id), ranks)
  {
    ranks := [0];
    var plan := FoldConstantsPlan(s, id);
    if plan.Rewrite? {
      var c := plan.extra[0].payload;
      forall v | Models(ext, s, v) ensures v[id] == c {
        BinaryValue(ext, s, v, id);
        ConstValue(ext, s, v, DataOf(s, id)[0]);
        ConstValue(ext, s, v, DataOf(s, id)[1]);
      }
      ConstPlanOk(ext, s, rank, id, c, {Pure, CSEable, GVNable}, 1);
    }
  }

  lemma SimplifyAlgebraValue(ext: Ext, s: Sea, id: nat, v: seq<i64>)
    requires DataWired(s) && id < |s.nodes| && Models(ext, s, v) && SimplifyAlgebraPlan(s, id).Rewrite?
    ensures var plan := SimplifyAlgebraPlan(s, id);
            if plan.extra == [] then plan.to < |v| && v[id] == v[plan.to] else v[id] == 0
  {
    var x, y := DataOf(s, id)[0], DataOf(s, id)[1];
    BinaryValue(ext, s, v, id);
    if s.nodes[x].kind == ConstInt { ConstValue(ext, s, v, x); }
    if s.nodes[y].kind == ConstInt { ConstValue(ext, s, v, y); }
    NeutralElements(v[x], v[y]);
  }

  lemma SimplifyAlgebraOk(ext: Ext, s: Sea, rank: seq<nat>, id: nat) returns (ranks: seq<nat>)
    requires Sane(s, rank) && id < |s.nodes| && s.Live(id)
    ensures PlanOk(ext, s, rank, id, SimplifyAlgebraPlan(s, id), ranks)
  {
    var plan := SimplifyAlgebraPlan(s, id);
    ranks := [];
    if plan.Rewrite? {
      var x, y := DataOf(s, id)[0], DataOf(s, id)[1];
      forall v | Models(ext, s, v)
        ensures plan.extra == [] ==> plan.to < |v| && v[id] == v[plan.to]
        ensures plan.extra != [] ==> v[id] == 0
      {
        SimplifyAlgebraValue(ext, s, id, v);
      }
      if plan.extra == [] {
        var i := if plan.to == x then 0 else 1;
        assert plan == Rewrite([], DataOf(s, id)[i], 0);
        OperandPlanOk(ext, s, rank, id, i);
      } else {
        ranks := [0];
        assert plan == ConstPlan(s, 0, {Pure, GVNable}, 0);
        ConstPlanOk(ext, s, rank, id, 0, {Pure, GVNable}, 0);
      }
    }
  }

  lemma NeutralElements(x: i64, y: i64)
    ensures y == 0 ==> Binary(Add, x, y) == x && Binary(Sub, x, y) == x && Binary(Mul, x, y) == 0
    ensures x == 0 ==> Binary(Add, x, y) == y && Binary(Mul, x, y) == 0
    ensures y == 1 ==> Binary(Mul, x, y) == x && Binary(Div, x, y) == x
    ensures x == 1 ==> Binary(Mul, x, y) == y
    ensures x == y ==> Binary(Sub, x, y) == 0
  {
    WrapInRange(x);
    WrapInRange(y);
  }

  /** A comparison node with the value of the negated one takes the place of a negation. */
  lemma InvertedValue(k: NodeKind, x: i64, y: i64)
    requires IsComparison(k)
    ensures Binary(Inverted(k), x, y) == Unary(Not, Binary(k, x, y))
  {
  }

  lemma FoldComparisonsOk(ext: Ext, s: Sea, rank: seq<nat>, id: nat) returns (ranks: seq<nat>)
    requires Sane(s, rank) && id < |s.nodes| && s.Live(id)
    ensures PlanOk(ext, s, rank, id, FoldComparisonsPlan(s, id), ranks)
  {
    var plan, kind := FoldComparisonsPlan(s, id), s.nodes[id].kind;
    ranks := [];
    if plan.Rewrite? {
      if kind == Not {
        ranks := [rank[id]];
        InvertOk(ext, s, rank, id);
      } else {
        ranks := [0];
        var c: i64 := if kind == Eq then 1 else 0;
        forall v | Models(ext, s, v) ensures v[id] == c { BinaryValue(ext, s, v, id); }
        ConstPlanOk(ext, s, rank, id, c, {Pure, GVNable}, 0);
      }
    }
  }

  lemma InvertEqual(ext: Ext, s: Sea, id: nat, v: seq<i64>)
    requires DataWired(s) && id < |s.nodes| && s.nodes[id].kind == Not && FoldComparisonsPlan(s, id).Rewrite?
    requires var t := Appended(s, FoldComparisonsPlan(s, id).extra[0]); DataWired(t) && Models(ext, t, v)
    requires GoodInputs(s, FoldComparisonsPlan(s, id).extra[0].inputs)
    ensures id < |v| && |s.nodes| < |v| && v[id] == v[|s.nodes|]
  {
    var f := FoldComparisonsPlan(s, id).extra[0];
    var cmp := DataOf(s, id)[0];
    var x, y := DataOf(s, cmp)[0], DataOf(s, cmp)[1];
    var u := v[..|s.nodes|];
    AppendPrefix(ext, s, f, v);
    UnaryValue(ext, s, u, id);
    BinaryValue(ext, s, u, cmp);
    assert f.inputs[0].target == x && f.inputs[1].target == y;
    TwoArgs(x, y, u);
    AppendedValue(ext, s, f, v);
    InvertedValue(s.nodes[cmp].kind, u[x], u[y]);
  }

  lemma InvertOperands(s: Sea, cmp: nat)
    requires s.WellFormed() && Tame(s) && cmp < |s.nodes| && IsValueKind(s.nodes[cmp].kind) && |DataOf(s, cmp)| == 2
    ensures ValueInputs(s, [Edge(DataOf(s, cmp)[0], Data), Edge(DataOf(s, cmp)[1], Data)])
  {
    TameOperand(s, cmp, 0);
    TameOperand(s, cmp, 1);
  }

  lemma InvertNodeOk(s: Sea, rank: seq<nat>, id: nat)
    requires Sane(s, rank) && id < |s.nodes| && s.Live(id)
    requires s.nodes[id].kind == Not && FoldComparisonsPlan(s, id).Rewrite?
    ensures NodeOk(s, rank, FoldComparisonsPlan(s, id).extra[0], rank[id])
  {
    var cmp := DataOf(s, id)[0];
    OperandFacts(s, rank, id, 0);
    OperandFacts(s, rank, cmp, 0);
    OperandFacts(s, rank, cmp, 1);
    if Tame(s) {
      assert TameAt(s, cmp);
      InvertOperands(s, cmp);
    }
  }

  lemma InvertOk(ext: Ext, s: Sea, rank: seq<nat>, id: nat)
    requires Sane(s, rank) && id < |s.nodes| && s.Live(id)
    requires s.nodes[id].kind == Not && FoldComparisonsPlan(s, id).Rewrite?
    ensures PlanOk(ext, s, rank, id, FoldComparisonsPlan(s, id), [rank[id]])
  {
    var f := FoldComparisonsPlan(s, id).extra[0];
    InvertNodeOk(s, rank, id);
    FreshPlanOk(s, rank, f, rank[id]);
    forall v | Models(ext, Appended(s, f), v) ensures v[id] == v[|s.nodes|] {
      InvertEqual(ext, s, id, v);
    }
  }
}
