/** Why the folding passes end, although they scan the very graph they extend: all passes together add at most
    two nodes for each original one. And why every step they take is sound. */
module ScanBudget {
  import opened SeaOfNodes
  import opened Valuation
  import opened Rewrites
  import opened PassCore
  import opened FoldPasses
  import opened StrengthReduction
  import opened Ascending

  // ----- how much scanning can add -----

  /** The most nodes that the rules can ever make of one live node, counting what is made of what they make:
      a negation becomes a comparison, which may itself become a constant. */
  function Weight(k: NodeKind): nat {
    if k in {Not, Mul, Div} then 2 else if k in {Add, Sub, Eq, Ne} then 1 else 0
  }

  function WeightOf(n: Node): nat {
    if IsDead in n.flags then 0 else Weight(n.kind)
  }

  function Cost(nodes: seq<Node>): nat {
    if |nodes| == 0 then 0 else Cost(nodes[..|nodes| - 1]) + WeightOf(nodes[|nodes| - 1])
  }

  /** The nodes so far plus all that the rules can still make of them. */
  ghost function Potential(s: Sea): nat {
    |s.nodes| + Cost(s.nodes)
  }

  lemma {:induction false} CostBound(nodes: seq<Node>)
    ensures Cost(nodes) <= 2 * |nodes|
  {
    if |nodes| > 0 { CostBound(nodes[..|nodes| - 1]); }
  }

  lemma {:induction false} CostUpdate(nodes: seq<Node>, i: nat, n: Node)
    requires i < |nodes|
    ensures Cost(nodes[i := n]) == Cost(nodes) - WeightOf(nodes[i]) + WeightOf(n)
    decreases |nodes|
  {
    var last := |nodes| - 1;
    if i == last {
      assert nodes[i := n][..last] == nodes[..last];
    } else {
      assert nodes[i := n][..last] == nodes[..last][i := n];
      CostUpdate(nodes[..last], i, n);
    }
  }

  /** Marking nodes dead lowers the cost. */
  lemma {:induction false} CostKilled(a: seq<Node>, b: seq<Node>)
    requires |a| == |b| && forall n :: 0 <= n < |a| ==> SameNode(a[n], b[n])
    ensures Cost(b) <= Cost(a)
  {
    if |a| > 0 {
      var last := |a| - 1;
      assert SameNode(a[last], b[last]);
      forall n | 0 <= n < last ensures SameNode(a[..last][n], b[..last][n]) { assert SameNode(a[n], b[n]); }
      CostKilled(a[..last], b[..last]);
    }
  }

  function ExtraCost(extra: seq<NewNode>): nat {
    if |extra| == 0 then 0 else Weight(extra[0].kind) + ExtraCost(extra[1..])
  }

  lemma {:induction false} AppendAllCost(s: Sea, extra: seq<NewNode>)
    ensures Cost(AppendAll(s, extra).nodes) <= Cost(s.nodes) + ExtraCost(extra)
    decreases |extra|
  {
    if |extra| > 0 {
      var t := Appended(s, extra[0]);
      assert t.nodes[..|t.nodes| - 1] == s.nodes;
      AppendAllCost(t, extra[1..]);
    }
  }

  ghost predicate AddsDiv(extra: seq<NewNode>) {
    exists f :: f in extra && f.kind == Div
  }

  /** Nodes that cost no more than w, with at most two edges each, none of them a division. */
  ghost predicate Frugal(extra: seq<NewNode>, w: nat) {
    |extra| + ExtraCost(extra) <= w && !AddsDiv(extra) && FreshEdges(extra) <= 2 * |extra|
  }

  lemma OneCost(f: NewNode)
    ensures ExtraCost([f]) == Weight(f.kind) && FreshEdges([f]) == |f.inputs|
  {
    assert [f][1..] == [];
    assert FreshEdges([]) == 0 && ExtraCost([]) == 0;
  }

  lemma FrugalOne(f: NewNode, w: nat)
    requires 1 + Weight(f.kind) <= w && f.kind != Div && |f.inputs| <= 2
    ensures Frugal([f], w)
  {
    OneCost(f);
  }

  lemma FrugalTwo(f: NewNode, h: NewNode, w: nat)
    requires 2 + Weight(f.kind) + Weight(h.kind) <= w && f.kind != Div && h.kind != Div && |f.inputs| <= 2
        && |h.inputs| <= 2
    ensures Frugal([f, h], w)
  {
    OneCost(h);
    assert [f, h][1..] == [h];
    assert forall x :: x in [f, h] ==> x == f || x == h;
  }

  lemma FoldConstantsCost(s: Sea, id: nat)
    requires s.WellFormed() && id < |s.nodes| && !s.Dead(id)
    ensures var plan := FoldConstantsPlan(s, id); plan.Rewrite? ==> Frugal(plan.extra, WeightOf(s.nodes[id]))
  {
    var plan := FoldConstantsPlan(s, id);
    if plan.Rewrite? { assert plan.extra == [plan.extra[0]]; FrugalOne(plan.extra[0], WeightOf(s.nodes[id])); }
  }

  lemma SimplifyAlgebraCost(s: Sea, id: nat)
    requires s.WellFormed() && id < |s.nodes| && !s.Dead(id)
    ensures var plan := SimplifyAlgebraPlan(s, id); plan.Rewrite? ==> Frugal(plan.extra, WeightOf(s.nodes[id]))
  {
    var plan := SimplifyAlgebraPlan(s, id);
    if plan.Rewrite? && plan.extra != [] {
      assert plan.extra == [plan.extra[0]];
      FrugalOne(plan.extra[0], WeightOf(s.nodes[id]));
    }
  }

  lemma FoldComparisonsCost(s: Sea, id: nat)
    requires s.WellFormed() && id < |s.nodes| && !s.Dead(id)
    ensures var plan := FoldComparisonsPlan(s, id); plan.Rewrite? ==> Frugal(plan.extra, WeightOf(s.nodes[id]))
  {
    var plan := FoldComparisonsPlan(s, id);
    if plan.Rewrite? { assert plan.extra == [plan.extra[0]]; FrugalOne(plan.extra[0], WeightOf(s.nodes[id])); }
  }

  lemma ReduceStrengthCost(s: Sea, id: nat)
    requires s.WellFormed() && id < |s.nodes| && !s.Dead(id)
    ensures var plan := ReduceStrengthPlan(s, id); plan.Rewrite? ==> Frugal(plan.extra, WeightOf(s.nodes[id]))
  {
    var plan := ReduceStrengthPlan(s, id);
    if plan.Rewrite? {
      assert plan.extra == [plan.extra[0], plan.extra[1]];
      FrugalTwo(plan.extra[0], plan.extra[1], WeightOf(s.nodes[id]));
    }
  }

  /** What a rule appends for one node costs no more than the node was worth, and is never a division. */
  lemma PlanCost(rule: Rule, s: Sea, id: nat)
    requires s.WellFormed() && id < |s.nodes|
    ensures var plan := PlanFor(rule, s, id); plan.Rewrite? ==> Frugal(plan.extra, WeightOf(s.nodes[id]))
  {
    if !s.Dead(id) {
      match rule
      case FoldConstants => FoldConstantsCost(s, id);
      case SimplifyAlgebra => SimplifyAlgebraCost(s, id);
      case FoldComparisons => FoldComparisonsCost(s, id);
      case ReduceStrength => ReduceStrengthCost(s, id);
    }
  }

  lemma PlanSize(rule: Rule, s: Sea, id: nat)
    requires s.WellFormed() && id < |s.nodes|
    ensures var plan := PlanFor(rule, s, id); plan.Rewrite? ==>
        |plan.extra| <= 2 && FreshEdges(plan.extra) <= 2 * |plan.extra|
  {
    PlanCost(rule, s, id);
  }

  lemma PotentialBound(s: Sea)
    ensures |s.nodes| <= Potential(s) <= 3 * |s.nodes|
  {
    CostBound(s.nodes);
  }

  /** No rule application raises the potential. */
  lemma StepPotential(rule: Rule, s: Sea, i: nat)
    requires s.WellFormed() && i < |s.nodes|
    ensures Potential(Applied(s, i, PlanFor(rule, s, i))) <= Potential(s)
  {
    var plan := PlanFor(rule, s, i);
    PlanCost(rule, s, i);
    if plan.Rewrite? {
      var t := AppendAll(s, plan.extra);
      AppendAllCost(s, plan.extra);
      CostUpdate(t.nodes, i, t.nodes[i].(flags := t.nodes[i].flags + {IsDead}));
    }
  }

  // ----- the scan -----

  /** All plans of a rule are sound; strength reduction needs exact divisions. */
  lemma PlanForOk(ext: Ext, rule: Rule, s: Sea, rank: seq<nat>, id: nat) returns (ranks: seq<nat>)
    requires Sane(s, rank) && id < |s.nodes| && (rule == ReduceStrength ==> ExactDivAt(ext, s, id))
    ensures PlanOk(ext, s, rank, id, PlanFor(rule, s, id), ranks)
  {
    ranks := [];
    if s.Live(id) {
      match rule
      case FoldConstants => ranks := FoldConstantsOk(ext, s, rank, id);
      case SimplifyAlgebra => ranks := SimplifyAlgebraOk(ext, s, rank, id);
      case FoldComparisons => ranks := FoldComparisonsOk(ext, s, rank, id);
      case ReduceStrength => ranks := ReduceStrengthOk(ext, s, rank, id);
    }
  }

  /** No division lies beyond the original nodes. */
  ghost predicate NoNewDivs(s: Sea, n0: nat) {
    forall n :: n0 <= n < |s.nodes| ==> s.nodes[n].kind != Div
  }

  lemma {:induction false} AppendAllNoDivs(s: Sea, extra: seq<NewNode>, n0: nat)
    requires NoNewDivs(s, n0) && !AddsDiv(extra)
    ensures NoNewDivs(AppendAll(s, extra), n0)
    decreases |extra|
  {
    if |extra| > 0 {
      assert extra[0] in extra;
      assert forall f :: f in extra[1..] ==> f in extra;
      AppendAllNoDivs(Appended(s, extra[0]), extra[1..], n0);
    }
  }

  lemma StepAddsNoDivs(rule: Rule, s: Sea, i: nat, n0: nat)
    requires s.WellFormed() && i < |s.nodes| && NoNewDivs(s, n0)
    ensures NoNewDivs(Applied(s, i, PlanFor(rule, s, i)), n0)
  {
    var plan := PlanFor(rule, s, i);
    PlanCost(rule, s, i);
    if plan.Rewrite? { AppendAllNoDivs(s, plan.extra, n0); }
  }

  // ----- the state of a scan -----

  /** What has been made of the graph s0 so far. */
  ghost predicate Scanned(ext: Ext, s0: Sea, s: Sea, rank: seq<nat>) {
    && Progress(ext, s0, s, rank)
    && |s0.nodes| <= |s.nodes| && Potential(s) <= Potential(s0)
    && NoNewDivs(s, |s0.nodes|)
  }

  lemma ScanStart(ext: Ext, s0: Sea, rank0: seq<nat>)
    requires Sane(s0, rank0)
    ensures Scanned(ext, s0, s0, rank0)
  {
    RefinesSelf(ext, s0);
  }

  lemma ScanStep(ext: Ext, rule: Rule, s0: Sea, s: Sea, rank0: seq<nat>, rank: seq<nat>, i: nat)
      returns (ranks: seq<nat>)
    requires Scanned(ext, s0, s, rank) && i < |s.nodes| && Potential(s0) < NO_NODE
    requires Sane(s0, rank0) && (rule == ReduceStrength ==> ExactDivs(ext, s0))
    ensures var plan := PlanFor(rule, s, i);
      && PlanOk(ext, s, rank, i, plan, ranks)
      && Scanned(ext, s0, Applied(s, i, plan), PlanRanks(plan, rank, ranks))
  {
    var plan := PlanFor(rule, s, i);
    if rule == ReduceStrength { ExactDivKept(ext, s0, s, rank0, rank, i); }
    ranks := PlanForOk(ext, rule, s, rank, i);
    StepPotential(rule, s, i);
    StepAddsNoDivs(rule, s, i, |s0.nodes|);
    AppliedGrows(s, i, plan);
    PlanProgress(ext, s0, s, rank, i, plan, ranks);
  }

  // ----- what a scan does -----

  /** The (k+1)-st node is treated as the graph was by then. */
  ghost predicate ScanMove(rule: Rule, trace: seq<Sea>, k: nat)
    requires k + 1 < |trace|
  {
    trace[k].WellFormed() && k + 1 < |trace[k].nodes|
    && trace[k + 1] == Applied(trace[k], k + 1, PlanFor(rule, trace[k], k + 1))
  }

  /** The graphs that a scan passes through, before node 1, before node 2 and so on. */
  ghost predicate IsScan(rule: Rule, trace: seq<Sea>, s0: Sea, s: Sea) {
    && |trace| > 0 && trace[0] == s0 && trace[|trace| - 1] == s
    && forall k {:trigger ScanMove(rule, trace, k)} :: 0 <= k < |trace| - 1 ==> ScanMove(rule, trace, k)
  }

  /** Scanning s0 up to the last of all nodes, also those appended on the way, gives s. */
  ghost predicate ScansTo(rule: Rule, s0: Sea, s: Sea) {
    exists trace :: IsScan(rule, trace, s0, s) && |trace| == |s.nodes|
  }

  /** In a calm graph the rules replace a node by a constant or by an operand. */
  lemma RuleCalm(rule: Rule, s: Sea, id: nat)
    requires DataWired(s) && IsCalm(s) && id < |s.nodes|
    ensures CalmPlan(s, id, PlanFor(rule, s, id))
  {
    var plan := PlanFor(rule, s, id);
    if rule == SimplifyAlgebra && plan.Rewrite? && plan.extra == [] {
      assert plan.to in DataOf(s, id);
      OperandBack(s, id, plan.to);
    }
  }

  lemma {:induction false} ScanCalm(rule: Rule, trace: seq<Sea>, s0: Sea, s: Sea, k: nat)
    requires IsScan(rule, trace, s0, s) && DataWired(s0) && IsCalm(s0) && k < |trace|
    ensures DataWired(trace[k]) && IsCalm(trace[k])
  {
    if k > 0 {
      ScanCalm(rule, trace, s0, s, k - 1);
      assert ScanMove(rule, trace, k - 1);
      MoveCalm(rule, trace[k - 1], trace[k], k);
    }
  }

  lemma MoveCalm(rule: Rule, s: Sea, t: Sea, k: nat)
    requires DataWired(s) && IsCalm(s) && k < |s.nodes| && t == Applied(s, k, PlanFor(rule, s, k))
    ensures DataWired(t) && IsCalm(t)
  {
    RuleCalm(rule, s, k);
    PlanCalm(s, k, PlanFor(rule, s, k));
  }

  /** A scan leaves a calm graph calm. */
  lemma ScannedCalm(rule: Rule, s0: Sea, s: Sea)
    requires ScansTo(rule, s0, s) && DataWired(s0) && IsCalm(s0)
    ensures IsCalm(s)
  {
    var trace :| IsScan(rule, trace, s0, s) && |trace| == |s.nodes|;
    ScanCalm(rule, trace, s0, s, |trace| - 1);
  }

  ghost predicate FiresAt(rule: Rule, s: Sea, i: nat)
    requires s.WellFormed()
  {
    0 < i < |s.nodes| && PlanFor(rule, s, i).Rewrite?
  }

  /** The rule has something to do. */
  ghost predicate Fires(rule: Rule, s: Sea)
    requires s.WellFormed()
  {
    exists i :: FiresAt(rule, s, i)
  }

  /** The scan has visited the nodes before i, and reports a change if the rule fired on one of them. */
  ghost predicate Visited(rule: Rule, s0: Sea, s: Sea, i: nat, changed: bool)
    requires s0.WellFormed()
  {
    && (exists trace :: IsScan(rule, trace, s0, s) && |trace| == i)
    && (changed ==> Fires(rule, s0))
    && (!changed ==> s == s0 && forall j: nat {:trigger FiresAt(rule, s0, j)} :: j < i ==> !FiresAt(rule, s0, j))
  }

  lemma VisitStart(rule: Rule, s0: Sea)
    requires s0.WellFormed()
    ensures Visited(rule, s0, s0, 1, false)
  {
    assert IsScan(rule, [s0], s0, s0);
  }

  lemma SameMove(rule: Rule, a: seq<Sea>, b: seq<Sea>, k: nat)
    requires k + 1 < |a| <= |b| && a[k] == b[k] && a[k + 1] == b[k + 1] && ScanMove(rule, a, k)
    ensures ScanMove(rule, b, k)
  {
  }

  lemma MoveIs(rule: Rule, trace: seq<Sea>, s: Sea, t: Sea, k: nat)
    requires s.WellFormed() && k + 1 < |s.nodes| && t == Applied(s, k + 1, PlanFor(rule, s, k + 1))
    requires k + 1 < |trace| && trace[k] == s && trace[k + 1] == t
    ensures ScanMove(rule, trace, k)
  {
  }

  lemma ScanExtends(rule: Rule, trace: seq<Sea>, s0: Sea, s: Sea, t: Sea)
    requires IsScan(rule, trace, s0, s) && s.WellFormed() && |trace| < |s.nodes|
    requires t == Applied(s, |trace|, PlanFor(rule, s, |trace|))
    ensures IsScan(rule, trace + [t], s0, t)
  {
    var longer := trace + [t];
    forall k | 0 <= k < |longer| - 1 ensures ScanMove(rule, longer, k) {
      if k < |trace| - 1 {
        assert ScanMove(rule, trace, k);
        SameMove(rule, trace, longer, k);
      } else {
        MoveIs(rule, longer, s, t, k);
      }
    }
  }

  lemma VisitNext(rule: Rule, s0: Sea, s: Sea, i: nat, changed: bool)
    requires s0.WellFormed() && s.WellFormed() && 0 < i < |s.nodes| && Visited(rule, s0, s, i, changed)
    ensures var plan := PlanFor(rule, s, i); Visited(rule, s0, Applied(s, i, plan), i + 1, changed || plan.Rewrite?)
  {
    var trace :| IsScan(rule, trace, s0, s) && |trace| == i;
    var t := Applied(s, i, PlanFor(rule, s, i));
    ScanExtends(rule, trace, s0, s, t);
    VisitedOne(rule, s0, s, t, trace + [t], i, changed);
  }

  lemma VisitedOne(rule: Rule, s0: Sea, s: Sea, t: Sea, trace: seq<Sea>, i: nat, changed: bool)
    requires s0.WellFormed() && s.WellFormed() && 0 < i < |s.nodes| && Visited(rule, s0, s, i, changed)
    requires IsScan(rule, trace, s0, t) && |trace| == i + 1 && t == Applied(s, i, PlanFor(rule, s, i))
    ensures Visited(rule, s0, t, i + 1, changed || PlanFor(rule, s, i).Rewrite?)
  {
    if !changed { assert FiresAt(rule, s0, i) <==> PlanFor(rule, s, i).Rewrite?; }
  }

  lemma VisitEnd(rule: Rule, s0: Sea, s: Sea, changed: bool)
    requires s0.WellFormed() && Visited(rule, s0, s, |s.nodes|, changed)
    ensures ScansTo(rule, s0, s) && (changed <==> Fires(rule, s0)) && (!changed ==> s == s0)
  {
  }

  lemma AppliedGrows(s: Sea, id: nat, plan: Plan)
    requires id < |s.nodes|
    ensures |Applied(s, id, plan).nodes| == |s.nodes| + if plan.Keep? then 0 else |plan.extra|
    ensures |Applied(s, id, plan).edges| == |s.edges| + if plan.Keep? then 0 else FreshEdges(plan.extra)
  {
    if plan.Rewrite? { AppendAllEdges(s, plan.extra); }
  }

  lemma {:induction false} AppendAllEdges(s: Sea, extra: seq<NewNode>)
    ensures |AppendAll(s, extra).edges| == |s.edges| + FreshEdges(extra)
    decreases |extra|
  {
    if |extra| > 0 { AppendAllEdges(Appended(s, extra[0]), extra[1..]); }
  }
}
