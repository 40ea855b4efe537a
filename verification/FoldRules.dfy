/** When the folding rules fire and what they put in a node's place, in terms of kinds, inputs and payloads. */
module FoldRules {
  import opened SeaOfNodes
  import opened Int64
  import opened Valuation
  import opened PassCore
  import opened FoldPasses
  import opened Arithmetic

  // ----- operands and constants -----

  /** Two of the inputs are data inputs, the first from x and the second from y. */
  ghost predicate HasOperands(inputs: seq<Edge>, x: nat, y: nat) {
    exists i, j {:trigger OperandsAt(inputs, i, j)} :: OperandsAt(inputs, i, j)
      && inputs[i].target == x && inputs[j].target == y
  }

  predicate OperandsAt(inputs: seq<Edge>, i: int, j: int) {
    && 0 <= i < j < |inputs| && inputs[i].kind == Data && inputs[j].kind == Data
    && forall k :: 0 <= k < |inputs| && k != i && k != j ==> inputs[k].kind != Data
  }

  /** One of the inputs is a data input, from x. */
  ghost predicate HasOperand(inputs: seq<Edge>, x: nat) {
    exists i {:trigger OperandAt(inputs, i)} :: OperandAt(inputs, i) && inputs[i].target == x
  }

  predicate OperandAt(inputs: seq<Edge>, i: int) {
    0 <= i < |inputs| && inputs[i].kind == Data && forall k :: 0 <= k < |inputs| && k != i ==> inputs[k].kind != Data
  }

  lemma {:induction false} NoData(inputs: seq<Edge>)
    ensures OfKind(inputs, Data) == [] <==> forall k :: 0 <= k < |inputs| ==> inputs[k].kind != Data
  {
    if |inputs| > 0 {
      NoData(inputs[1..]);
      assert forall k :: 0 < k < |inputs| ==> inputs[k] == inputs[1..][k - 1];
      assert inputs[0].kind == Data ==> OfKind(inputs, Data)[0] == inputs[0].target;
    }
  }

  lemma {:induction false} OneOperand(inputs: seq<Edge>, x: nat)
    ensures OfKind(inputs, Data) == [x] <==> HasOperand(inputs, x)
  {
    if |inputs| > 0 {
      var rest := inputs[1..];
      assert forall k :: 0 < k < |inputs| ==> inputs[k] == rest[k - 1];
      if inputs[0].kind == Data {
        NoData(rest);
        assert OfKind(inputs, Data) == [inputs[0].target] + OfKind(rest, Data);
        assert OfKind(inputs, Data)[1..] == OfKind(rest, Data);
        if OfKind(inputs, Data) == [x] {
          assert OfKind(inputs, Data)[0] == x;
          assert OfKind(rest, Data) == [] && OperandAt(inputs, 0);
        }
        if i :| OperandAt(inputs, i) && inputs[i].target == x {
          assert i == 0;
          forall k | 0 <= k < |rest| ensures rest[k].kind != Data { assert rest[k] == inputs[k + 1]; }
          assert OfKind(rest, Data) == [];
        }
      } else {
        OneOperand(rest, x);
        assert OfKind(inputs, Data) == OfKind(rest, Data);
        if i :| OperandAt(rest, i) && rest[i].target == x { assert OperandAt(inputs, i + 1); }
        if i :| OperandAt(inputs, i) && inputs[i].target == x { assert OperandAt(rest, i - 1); }
      }
    }
  }

  lemma {:induction false} TwoOperandsAre(inputs: seq<Edge>, x: nat, y: nat)
    ensures OfKind(inputs, Data) == [x, y] <==> HasOperands(inputs, x, y)
  {
    if |inputs| > 0 {
      var rest := inputs[1..];
      assert forall k :: 0 < k < |inputs| ==> inputs[k] == rest[k - 1];
      if inputs[0].kind == Data {
        OneOperand(rest, y);
        FirstOperand(inputs, x, y);
      } else {
        TwoOperandsAre(rest, x, y);
        assert OfKind(inputs, Data) == OfKind(rest, Data);
        if i, j :| OperandsAt(rest, i, j) && rest[i].target == x && rest[j].target == y {
          assert OperandsAt(inputs, i + 1, j + 1);
        }
        if i, j :| OperandsAt(inputs, i, j) && inputs[i].target == x && inputs[j].target == y {
          assert OperandsAt(rest, i - 1, j - 1);
        }
      }
    }
  }

  lemma FirstOperand(inputs: seq<Edge>, x: nat, y: nat)
    requires |inputs| > 0 && inputs[0].kind == Data
    requires OfKind(inputs[1..], Data) == [y] <==> HasOperand(inputs[1..], y)
    ensures OfKind(inputs, Data) == [x, y] <==> HasOperands(inputs, x, y)
  {
    var rest := inputs[1..];
    assert OfKind(inputs, Data) == [inputs[0].target] + OfKind(rest, Data);
    assert OfKind(inputs, Data)[1..] == OfKind(rest, Data);
    if OfKind(inputs, Data) == [x, y] {
      assert OfKind(rest, Data) == [y];
      var j :| OperandAt(rest, j) && rest[j].target == y;
      assert OperandsAt(inputs, 0, j + 1);
    }
    if i, j :| OperandsAt(inputs, i, j) && inputs[i].target == x && inputs[j].target == y {
      assert i == 0 && OperandAt(rest, j - 1);
    }
  }

  /** A constant, and one whose 64 bits are those of c. */
  predicate Constant(s: Sea, n: nat) { n < |s.nodes| && s.nodes[n].kind == ConstInt }

  predicate ConstantOf(s: Sea, n: nat, c: int) {
    Constant(s, n) && (s.nodes[n].payload - c) % 0x1_0000_0000_0000_0000 == 0
  }

  lemma ConstantIs(s: Sea, n: nat, c: i64)
    ensures IsConst(s, n, c) <==> ConstantOf(s, n, c)
  {
    if Constant(s, n) { WrapIs(s.nodes[n].payload, c); }
  }

  lemma WrapIs(p: int, c: i64)
    ensures Wrap(p) == c <==> (p - c) % 0x1_0000_0000_0000_0000 == 0
  {
    WrapAgrees(p);
    assert IsI64(c);
    if (p - c) % 0x1_0000_0000_0000_0000 == 0 {
      SameClass(p, c);
      AgreesOnce(Wrap(p), c, p);
    }
    if Wrap(p) == c { SameClass(c, p); }
  }

  lemma SameClass(p: int, c: int)
    requires (p - c) % 0x1_0000_0000_0000_0000 == 0
    ensures (c - p) % 0x1_0000_0000_0000_0000 == 0
  {
    Multiple(c - p, 0 - (p - c) / 0x1_0000_0000_0000_0000);
  }

  // ----- constant folding -----

  /** A sum, difference or product of two constants. */
  ghost predicate FoldsConstants(s: Sea, n: nat, x: nat, y: nat)
    requires s.HasSlice(n)
  {
    s.nodes[n].kind in {Add, Sub, Mul} && HasOperands(s.Inputs(n), x, y) && Constant(s, x) && Constant(s, y)
  }

  /** A plan that puts one fresh constant in the node's place. */
  predicate NewConstant(s: Sea, plan: Plan, flags: set<Flag>, reported: nat) {
    && plan.Rewrite? && |plan.extra| == 1 && plan.to == |s.nodes| && plan.reported == reported
    && plan.extra[0] == NewNode(ConstInt, flags, TInt, plan.extra[0].payload, [])
  }

  /** The sum, difference or product of the operands' payloads. */
  function Combined(kind: NodeKind, a: int, b: int): int {
    if kind == Add then a + b else if kind == Sub then a - b else a * b
  }

  /** Exactly such a node is folded, into the constant that is its value modulo 2^64. */
  lemma ConstantsFold(s: Sea, n: nat)
    requires s.WellFormed() && n < |s.nodes| && s.Live(n)
    ensures PlanFor(FoldConstants, s, n).Keep? <==> forall x: nat, y: nat :: !FoldsConstants(s, n, x, y)
    ensures forall x: nat, y: nat {:trigger FoldsConstants(s, n, x, y)} :: FoldsConstants(s, n, x, y) ==>
      var plan := PlanFor(FoldConstants, s, n);
      && NewConstant(s, plan, {Pure, CSEable, GVNable}, 1)
      && Agrees(plan.extra[0].payload, Combined(s.nodes[n].kind, s.nodes[x].payload, s.nodes[y].payload))
  {
    OperandsAreData(s, n);
    if PlanFor(FoldConstants, s, n).Rewrite? {
      assert DataOf(s, n) == [DataOf(s, n)[0], DataOf(s, n)[1]];
      assert FoldsConstants(s, n, DataOf(s, n)[0], DataOf(s, n)[1]);
    }
    forall x: nat, y: nat | FoldsConstants(s, n, x, y)
      ensures NewConstant(s, PlanFor(FoldConstants, s, n), {Pure, CSEable, GVNable}, 1)
      ensures Agrees(PlanFor(FoldConstants, s, n).extra[0].payload,
          Combined(s.nodes[n].kind, s.nodes[x].payload, s.nodes[y].payload))
    {
      ConstantsFolded(s, n, x, y);
    }
  }

  lemma OperandsAreData(s: Sea, n: nat)
    requires s.HasSlice(n)
    ensures forall x: nat, y: nat {:trigger HasOperands(s.Inputs(n), x, y)} ::
      HasOperands(s.Inputs(n), x, y) <==> DataOf(s, n) == [x, y]
    ensures forall x: nat {:trigger HasOperand(s.Inputs(n), x)} :: HasOperand(s.Inputs(n), x) <==> DataOf(s, n) == [x]
  {
    forall x: nat, y: nat ensures HasOperands(s.Inputs(n), x, y) <==> DataOf(s, n) == [x, y] {
      TwoOperandsAre(s.Inputs(n), x, y);
    }
    forall x: nat ensures HasOperand(s.Inputs(n), x) <==> DataOf(s, n) == [x] { OneOperand(s.Inputs(n), x); }
  }

  lemma ConstantsFolded(s: Sea, n: nat, x: nat, y: nat)
    requires s.WellFormed() && n < |s.nodes| && s.Live(n) && s.nodes[n].kind in {Add, Sub, Mul}
    requires DataOf(s, n) == [x, y] && Constant(s, x) && Constant(s, y)
    ensures var plan := PlanFor(FoldConstants, s, n);
      && NewConstant(s, plan, {Pure, CSEable, GVNable}, 1)
      && Agrees(plan.extra[0].payload, Combined(s.nodes[n].kind, s.nodes[x].payload, s.nodes[y].payload))
  {
    var a, b := s.nodes[x].payload, s.nodes[y].payload;
    WrapAgrees(a);
    WrapAgrees(b);
    RingCongruent(Wrap(a), Wrap(b), a, b);
  }

  // ----- algebraic simplification -----

  /** What takes the place of a node with operands x and y: one of them, or the fresh constant 0. */
  datatype Simpler = Operand(n: nat) | Zero | Nothing

  /** x + 0, 0 + x, x - 0, x - x, x * 0, 0 * x, x * 1, 1 * x and x / 1. */
  ghost function Simplest(s: Sea, kind: NodeKind, x: nat, y: nat): Simpler {
    if kind == Add && ConstantOf(s, y, 0) then Operand(x)
    else if kind == Add && ConstantOf(s, x, 0) then Operand(y)
    else if kind == Sub && ConstantOf(s, y, 0) then Operand(x)
    else if kind == Sub && x == y then Zero
    else if kind == Mul && (ConstantOf(s, x, 0) || ConstantOf(s, y, 0)) then Zero
    else if kind == Mul && ConstantOf(s, y, 1) then Operand(x)
    else if kind == Mul && ConstantOf(s, x, 1) then Operand(y)
    else if kind == Div && ConstantOf(s, y, 1) then Operand(x)
    else Nothing
  }

  /** A node with operands x and y of the graph that has such a form. */
  ghost predicate Simplifies(s: Sea, n: nat, x: nat, y: nat)
    requires s.HasSlice(n)
  {
    HasOperands(s.Inputs(n), x, y) && x < |s.nodes| && y < |s.nodes| && Simplest(s, s.nodes[n].kind, x, y) != Nothing
  }

  /** Exactly such a node is simplified, to what its form says. */
  lemma AlgebraSimplifies(s: Sea, n: nat)
    requires s.WellFormed() && n < |s.nodes| && s.Live(n)
    ensures PlanFor(SimplifyAlgebra, s, n).Keep? <==> forall x: nat, y: nat :: !Simplifies(s, n, x, y)
    ensures forall x: nat, y: nat {:trigger Simplifies(s, n, x, y)} :: Simplifies(s, n, x, y) ==>
      var plan := PlanFor(SimplifyAlgebra, s, n);
      match Simplest(s, s.nodes[n].kind, x, y)
      case Operand(m) => plan == Rewrite([], m, 0)
      case Zero => NewConstant(s, plan, {Pure, GVNable}, 0) && plan.extra[0].payload == 0
      case Nothing => true
  {
    OperandsAreData(s, n);
    var data := DataOf(s, n);
    if |data| == 2 {
      assert data == [data[0], data[1]];
      if data[0] < |s.nodes| && data[1] < |s.nodes| { AlgebraPlan(s, n, data[0], data[1]); }
      assert Simplifies(s, n, data[0], data[1]) <==> PlanFor(SimplifyAlgebra, s, n).Rewrite?;
    }
  }

  lemma AlgebraPlan(s: Sea, n: nat, x: nat, y: nat)
    requires s.WellFormed() && n < |s.nodes| && s.Live(n) && DataOf(s, n) == [x, y] && x < |s.nodes| && y < |s.nodes|
    ensures var plan := PlanFor(SimplifyAlgebra, s, n);
      match Simplest(s, s.nodes[n].kind, x, y)
      case Operand(m) => plan == Rewrite([], m, 0)
      case Zero => NewConstant(s, plan, {Pure, GVNable}, 0) && plan.extra[0].payload == 0
      case Nothing => plan.Keep?
  {
    SimplestConstants(s, x, y);
  }

  lemma SimplestConstants(s: Sea, x: nat, y: nat)
    ensures IsConst(s, x, 0) == ConstantOf(s, x, 0) && IsConst(s, y, 0) == ConstantOf(s, y, 0)
    ensures IsConst(s, x, 1) == ConstantOf(s, x, 1) && IsConst(s, y, 1) == ConstantOf(s, y, 1)
  {
    ConstantIs(s, x, 0);
    ConstantIs(s, y, 0);
    ConstantIs(s, x, 1);
    ConstantIs(s, y, 1);
  }

  // ----- comparison folding -----

  /** x == x, x != x. */
  ghost predicate ComparesSame(s: Sea, n: nat, x: nat)
    requires s.HasSlice(n)
  {
    s.nodes[n].kind in {Eq, Ne} && HasOperands(s.Inputs(n), x, x)
  }

  /** The negation of node c, which compares x with y. */
  ghost predicate NegatesComparison(s: Sea, n: nat, c: nat, x: nat, y: nat)
    requires s.WellFormed() && n < |s.nodes|
  {
    && s.nodes[n].kind == Not && HasOperand(s.Inputs(n), c) && c < |s.nodes|
    && s.nodes[c].kind in {Eq, Ne, Lt, Gt, Lte, Gte} && HasOperands(s.Inputs(c), x, y)
  }

  ghost predicate ComparisonFolds(s: Sea, n: nat)
    requires s.WellFormed() && n < |s.nodes|
  {
    (exists x: nat :: ComparesSame(s, n, x)) || exists c: nat, x: nat, y: nat :: NegatesComparison(s, n, c, x, y)
  }

  /** The comparison that holds when this one does not. */
  predicate Opposite(k: NodeKind, o: NodeKind) {
    (k, o) in {(Eq, Ne), (Ne, Eq), (Lt, Gte), (Gte, Lt), (Gt, Lte), (Lte, Gt)}
  }

  lemma SameFolded(s: Sea, n: nat, x: nat)
    requires s.WellFormed() && n < |s.nodes| && s.Live(n) && ComparesSame(s, n, x)
    ensures var plan := PlanFor(FoldComparisons, s, n);
      NewConstant(s, plan, {Pure, GVNable}, 0) && plan.extra[0].payload == if s.nodes[n].kind == Eq then 1 else 0
  {
    TwoOperandsAre(s.Inputs(n), x, x);
  }

  /** The plan that puts a comparison of x and y in the node's place, the opposite one of kind k. */
  predicate NewComparison(s: Sea, plan: Plan, k: NodeKind, x: nat, y: nat) {
    && plan.Rewrite? && |plan.extra| == 1 && plan.to == |s.nodes| && plan.reported == 1
    && Opposite(k, plan.extra[0].kind)
    && plan.extra[0] == NewNode(plan.extra[0].kind, {Pure, GVNable, Commutative}, TBool, 0,
         [Edge(x, Data), Edge(y, Data)])
  }

  lemma NegationFolded(s: Sea, n: nat, c: nat, x: nat, y: nat)
    requires s.WellFormed() && n < |s.nodes| && s.Live(n) && NegatesComparison(s, n, c, x, y)
    ensures NewComparison(s, PlanFor(FoldComparisons, s, n), s.nodes[c].kind, x, y)
  {
    OneOperand(s.Inputs(n), c);
    TwoOperandsAre(s.Inputs(c), x, y);
    NegationPlan(s, n, c, x, y);
  }

  lemma NegationPlan(s: Sea, n: nat, c: nat, x: nat, y: nat)
    requires s.WellFormed() && n < |s.nodes| && s.Live(n) && s.nodes[n].kind == Not && c < |s.nodes|
    requires IsComparison(s.nodes[c].kind) && DataOf(s, n) == [c] && DataOf(s, c) == [x, y]
    ensures NewComparison(s, PlanFor(FoldComparisons, s, n), s.nodes[c].kind, x, y)
  {
  }

  lemma FoldedComparison(s: Sea, n: nat)
    requires s.WellFormed() && n < |s.nodes| && s.Live(n) && PlanFor(FoldComparisons, s, n).Rewrite?
    ensures ComparisonFolds(s, n)
  {
    var data := DataOf(s, n);
    if s.nodes[n].kind == Not {
      var c := data[0];
      var inner := DataOf(s, c);
      assert data == [c] && inner == [inner[0], inner[1]];
      OneOperand(s.Inputs(n), c);
      TwoOperandsAre(s.Inputs(c), inner[0], inner[1]);
      assert NegatesComparison(s, n, c, inner[0], inner[1]);
    } else {
      assert data == [data[0], data[0]];
      TwoOperandsAre(s.Inputs(n), data[0], data[0]);
      assert ComparesSame(s, n, data[0]);
    }
  }

  /** Exactly these are folded: the first two into 1 and 0, a negation into the opposite comparison. */
  lemma ComparisonsFold(s: Sea, n: nat)
    requires s.WellFormed() && n < |s.nodes| && s.Live(n)
    ensures PlanFor(FoldComparisons, s, n).Rewrite? <==> ComparisonFolds(s, n)
    ensures forall x: nat {:trigger ComparesSame(s, n, x)} :: ComparesSame(s, n, x) ==>
      var plan := PlanFor(FoldComparisons, s, n);
      NewConstant(s, plan, {Pure, GVNable}, 0) && plan.extra[0].payload == if s.nodes[n].kind == Eq then 1 else 0
    ensures forall c: nat, x: nat, y: nat {:trigger NegatesComparison(s, n, c, x, y)} ::
      NegatesComparison(s, n, c, x, y) ==> NewComparison(s, PlanFor(FoldComparisons, s, n), s.nodes[c].kind, x, y)
  {
    if PlanFor(FoldComparisons, s, n).Rewrite? { FoldedComparison(s, n); }
    forall x: nat | ComparesSame(s, n, x)
      ensures NewConstant(s, PlanFor(FoldComparisons, s, n), {Pure, GVNable}, 0)
      ensures PlanFor(FoldComparisons, s, n).extra[0].payload == if s.nodes[n].kind == Eq then 1 else 0
    {
      SameFolded(s, n, x);
    }
    forall c: nat, x: nat, y: nat | NegatesComparison(s, n, c, x, y)
      ensures NewComparison(s, PlanFor(FoldComparisons, s, n), s.nodes[c].kind, x, y)
    {
      NegationFolded(s, n, c, x, y);
    }
  }
}
