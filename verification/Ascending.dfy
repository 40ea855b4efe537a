/** Graphs in which operands come before their users, constants aside; and which passes keep them so. */
module Ascending {
  import opened SeaOfNodes
  import opened Int64
  import opened Valuation
  import opened Rewrites
  import opened PassCore

  /** Data edges lead to smaller ids, or to constants. */
  ghost predicate IsAscending(s: Sea)
    requires s.WellFormed()
  {
    forall n {:trigger AscendsAt(s, n)} :: 0 <= n < |s.nodes| ==> AscendsAt(s, n)
  }

  predicate AscendsAt(s: Sea, n: nat)
    requires s.HasSlice(n)
  {
    IsValueKind(s.nodes[n].kind) ==>
      forall i :: 0 <= i < |s.Inputs(n)| && s.Inputs(n)[i].kind == Data ==> LeadsBack(s, n, s.Inputs(n)[i].target)
  }

  predicate LeadsBack(s: Sea, n: nat, d: nat) { d < n || IsConstant(s, d) }

  predicate IsConstant(s: Sea, d: nat) { d < |s.nodes| && s.nodes[d].kind == ConstInt }

  /** Nothing that a pass would replace by a fresh node other than a constant. */
  predicate IsPlain(s: Sea) { forall n :: 0 <= n < |s.nodes| ==> s.nodes[n].kind !in {Not, Mul, Div} }

  ghost predicate IsCalm(s: Sea) { s.WellFormed() && IsAscending(s) && IsPlain(s) }

  lemma OperandBack(s: Sea, n: nat, d: nat)
    requires s.WellFormed() && IsAscending(s) && n < |s.nodes| && IsValueKind(s.nodes[n].kind) && d in DataOf(s, n)
    ensures LeadsBack(s, n, d)
  {
    assert AscendsAt(s, n);
    OfKindMembers(s.Inputs(n), Data, d);
  }

  /** Replacing a node by a smaller one, or by a constant. */
  lemma ReplacedCalm(s: Sea, a: nat, b: nat)
    requires DataWired(s) && IsCalm(s) && a < |s.nodes| && b < |s.nodes|
    requires IsConstant(s, b) || (b < a && !IsConstant(s, a))
    ensures DataWired(Replaced(s, a, b)) && IsCalm(Replaced(s, a, b))
  {
    var t := Replaced(s, a, b);
    ReplaceWired(s, a, b);
    forall n | 0 <= n < |t.nodes| ensures AscendsAt(t, n) {
      assert AscendsAt(s, n);
      ReplacedInputs(s, a, b, n);
    }
  }

  lemma ConstAppended(s: Sea, f: NewNode)
    requires DataWired(s) && IsCalm(s) && f.kind == ConstInt && f.inputs == []
    ensures DataWired(Appended(s, f)) && IsCalm(Appended(s, f)) && IsConstant(Appended(s, f), |s.nodes|)
  {
    var t := Appended(s, f);
    AppendWired(s, f.kind, f.flags, f.ty, f.payload, f.inputs);
    forall n | 0 <= n < |t.nodes| ensures AscendsAt(t, n) {
      AppendInputs(s, f.kind, f.flags, f.ty, f.payload, f.inputs, n);
      if n < |s.nodes| { assert AscendsAt(s, n); }
    }
  }

  lemma SweptCalm(s: Sea, victims: set<nat>)
    requires IsCalm(s) && Swept(s, victims).WellFormed()
    ensures IsCalm(Swept(s, victims))
  {
    var t := Swept(s, victims);
    forall n | 0 <= n < |t.nodes| ensures AscendsAt(t, n) { assert AscendsAt(s, n) && t.Inputs(n) == s.Inputs(n); }
  }

  /** A plan that replaces a node by a fresh constant, or by something smaller. */
  predicate CalmPlan(s: Sea, id: nat, plan: Plan) {
    match plan
    case Keep => true
    case Rewrite(extra, to, _) =>
      || (|extra| == 1 && extra[0].kind == ConstInt && extra[0].inputs == [] && to == |s.nodes|)
      || (extra == [] && to < |s.nodes| && (IsConstant(s, to) || (to < id && !IsConstant(s, id))))
  }

  lemma PlanCalm(s: Sea, id: nat, plan: Plan)
    requires DataWired(s) && IsCalm(s) && id < |s.nodes| && CalmPlan(s, id, plan)
    ensures DataWired(Applied(s, id, plan)) && IsCalm(Applied(s, id, plan))
  {
    if plan.Rewrite? {
      if plan.extra == [] {
        ReplacedCalm(s, id, plan.to);
      } else {
        assert plan.extra == [plan.extra[0]];
        AppendOne(s, plan.extra[0]);
        ConstAppended(s, plan.extra[0]);
        ReplacedCalm(Appended(s, plan.extra[0]), id, plan.to);
      }
    }
  }
}
