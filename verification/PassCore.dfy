/** What the rewriting passes share: the invariant of a pass under way, the two rewriting moves on the graph
    container, and how rules read a node's operands. */
module PassCore {
  import opened SeaOfNodes
  import opened UsePool
  import opened UseLists
  import opened Int64
  import opened Valuation
  import opened Rewrites

  datatype PassResult = PassResult(changed: bool, removed: nat, added: nat)

  /** s0 is what the pass started from, s what it has made of it: acyclic, computing the same, and still in the
      straight-line fragment if it was before. */
  ghost predicate Advances(ext: Ext, s0: Sea, s: Sea, rank: seq<nat>) {
    DataWired(s0) && Sane(s, rank) && Refines(ext, s0, s) && (Tame(s0) ==> Tame(s))
  }

  /** Besides, there is still no edge to a dead node if there was none before. */
  ghost predicate Progress(ext: Ext, s0: Sea, s: Sea, rank: seq<nat>) {
    Advances(ext, s0, s, rank) && (DeadUnused(s0) ==> DeadUnused(s))
  }

  lemma AdvancesTransitive(ext: Ext, s0: Sea, s1: Sea, s2: Sea, rank1: seq<nat>, rank2: seq<nat>)
    requires Advances(ext, s0, s1, rank1) && Advances(ext, s1, s2, rank2)
    ensures Advances(ext, s0, s2, rank2)
  {
    RefinesTransitive(ext, s0, s1, s2);
  }

  /** a and b have the same value in every valuation. */
  ghost predicate EqualValues(ext: Ext, s: Sea, a: nat, b: nat)
    requires DataWired(s)
  {
    forall v :: Models(ext, s, v) ==> a < |v| && b < |v| && v[a] == v[b]
  }

  // ----- rewriting plans -----

  /** A node that a rule appends. */
  datatype NewNode = NewNode(kind: NodeKind, flags: set<Flag>, ty: TypeId, payload: int, inputs: seq<Edge>)

  /** What a rule decides about one node: nothing, or that it gives way to node `to` once the fresh nodes
      are appended; `reported` is what the rule adds to the pass's own count of added nodes. */
  datatype Plan = Keep | Rewrite(extra: seq<NewNode>, to: nat, reported: nat)

  ghost function AppendAll(s: Sea, extra: seq<NewNode>): (t: Sea)
    ensures |t.nodes| == |s.nodes| + |extra| && s.nodes <= t.nodes && s.edges <= t.edges
    decreases |extra|
  {
    if |extra| == 0 then s else AppendAll(Appended(s, extra[0]), extra[1..])
  }

  ghost function Appended(s: Sea, f: NewNode): Sea {
    s.Append(f.kind, f.flags, f.ty, f.payload, f.inputs)
  }

  ghost function Applied(s: Sea, id: nat, plan: Plan): Sea
    requires id < |s.nodes|
  {
    if plan.Keep? then s else Replaced(AppendAll(s, plan.extra), id, plan.to)
  }

  /** The fresh nodes compute, are well connected when their turn comes, and rank above their operands. */
  ghost predicate FreshOk(s: Sea, rank: seq<nat>, extra: seq<NewNode>, ranks: seq<nat>)
    decreases |extra|
  {
    && |ranks| == |extra|
    && (|extra| > 0 ==>
          && NodeOk(s, rank, extra[0], ranks[0])
          && FreshOk(Appended(s, extra[0]), rank + [ranks[0]], extra[1..], ranks[1..]))
  }

  ghost predicate NodeOk(s: Sea, rank: seq<nat>, f: NewNode, r: nat) {
    && IsValueKind(f.kind) && IsDead !in f.flags && GoodInputs(s, f.inputs) && Above(f.inputs, rank, r)
    && (s.WellFormed() && Tame(s) ==> TameNode(f.kind, f.flags, f.inputs) && ValueInputs(s, f.inputs))
  }

  /** a computes, and b has a value. */
  predicate ValueNodes(s: Sea, a: nat, b: nat) {
    a < |s.nodes| && IsValueKind(s.nodes[a].kind) && b < |s.nodes| && IsDatum(s.nodes[b].kind)
  }

  /** The plan replaces node id by another live node of no greater rank that has id's value in every valuation. */
  ghost predicate PlanOk(ext: Ext, s: Sea, rank: seq<nat>, id: nat, plan: Plan, ranks: seq<nat>) {
    plan.Rewrite? ==>
      && FreshOk(s, rank, plan.extra, ranks)
      && var t := AppendAll(s, plan.extra);
      && id < |t.nodes| && plan.to < |t.nodes| && id != plan.to && t.Live(plan.to)
      && id < |rank| && plan.to < |rank + ranks| && (rank + ranks)[plan.to] <= rank[id]
      && DataWired(t) && EqualValues(ext, t, id, plan.to) && (Tame(t) ==> ValueNodes(t, id, plan.to))
  }

  lemma PlanIntro(ext: Ext, s: Sea, rank: seq<nat>, id: nat, extra: seq<NewNode>, to: nat, reported: nat,
      ranks: seq<nat>, t: Sea)
    requires t == AppendAll(s, extra) && FreshOk(s, rank, extra, ranks)
    requires id < |s.nodes| == |rank| && to < |rank + ranks| && id != to && t.Live(to) && (rank + ranks)[to] <= rank[id]
    requires DataWired(t) && EqualValues(ext, t, id, to) && (Tame(t) ==> ValueNodes(t, id, to))
    ensures PlanOk(ext, s, rank, id, Rewrite(extra, to, reported), ranks)
  {
  }

  function PlanRanks(plan: Plan, rank: seq<nat>, ranks: seq<nat>): seq<nat> {
    if plan.Keep? then rank else rank + ranks
  }

  lemma {:induction false} AppendAllProgress(ext: Ext, s0: Sea, s: Sea, rank: seq<nat>, extra: seq<NewNode>,
      ranks: seq<nat>)
    requires Progress(ext, s0, s, rank) && FreshOk(s, rank, extra, ranks) && |s.nodes| + |extra| < NO_NODE
    ensures Progress(ext, s0, AppendAll(s, extra), rank + ranks)
    decreases |extra|
  {
    if |extra| == 0 {
      assert rank + ranks == rank;
    } else {
      var f := extra[0];
      var low := rank + [ranks[0]];
      assert Progress(ext, s0, Appended(s, f), low) by {
        AppendProgress(ext, s0, s, rank, f.kind, f.flags, f.ty, f.payload, f.inputs, ranks[0]);
      }
      assert low + ranks[1..] == rank + ranks;
      AppendAllProgress(ext, s0, Appended(s, f), low, extra[1..], ranks[1..]);
    }
  }

  /** A sound plan makes progress: nothing any rule does beyond finding one can go wrong. */
  lemma PlanProgress(ext: Ext, s0: Sea, s: Sea, rank: seq<nat>, id: nat, plan: Plan, ranks: seq<nat>)
    requires Progress(ext, s0, s, rank) && id < |s.nodes| && PlanOk(ext, s, rank, id, plan, ranks)
    requires plan.Rewrite? ==> |s.nodes| + |plan.extra| < NO_NODE
    ensures Progress(ext, s0, Applied(s, id, plan), PlanRanks(plan, rank, ranks))
  {
    if plan.Rewrite? {
      AppendAllProgress(ext, s0, s, rank, plan.extra, ranks);
      ReplaceProgress(ext, s0, AppendAll(s, plan.extra), rank + ranks, id, plan.to);
    }
  }

  lemma ReplaceProgress(ext: Ext, s0: Sea, s: Sea, rank: seq<nat>, a: nat, b: nat)
    requires Progress(ext, s0, s, rank)
    requires a < |s.nodes| && b < |s.nodes| && a != b && s.Live(b) && rank[b] <= rank[a]
    requires EqualValues(ext, s, a, b) && (Tame(s) ==> ValueNodes(s, a, b))
    ensures Progress(ext, s0, Replaced(s, a, b), rank)
  {
    ReplaceSane(s, rank, a, b);
    if DeadUnused(s) { ReplaceDeadUnused(s, a, b); }
    if Tame(s) { ReplaceTame(s, a, b); }
    ReplaceRefines(ext, s, a, b);
    RefinesTransitive(ext, s0, s, Replaced(s, a, b));
  }

  lemma AppendProgress(ext: Ext, s0: Sea, s: Sea, rank: seq<nat>, kind: NodeKind, flags: set<Flag>, ty: TypeId,
                       payload: int, inputs: seq<Edge>, r: nat)
    requires Progress(ext, s0, s, rank) && |s.nodes| < NO_NODE
    requires IsValueKind(kind) && IsDead !in flags && GoodInputs(s, inputs) && Above(inputs, rank, r)
    requires Tame(s) ==> TameNode(kind, flags, inputs) && ValueInputs(s, inputs)
    ensures Progress(ext, s0, s.Append(kind, flags, ty, payload, inputs), rank + [r])
  {
    AppendSane(s, rank, kind, flags, ty, payload, inputs, r);
    if DeadUnused(s) { AppendDeadUnused(s, kind, flags, ty, payload, inputs); }
    if Tame(s) { AppendTame(s, kind, flags, ty, payload, inputs); }
    AppendRefines(ext, s, kind, flags, ty, payload, inputs);
    RefinesTransitive(ext, s0, s, s.Append(kind, flags, ty, payload, inputs));
  }

  // ----- carrying a plan out -----

  function FreshEdges(extra: seq<NewNode>): nat {
    if |extra| == 0 then 0 else |extra[0].inputs| + FreshEdges(extra[1..])
  }

  /** Input ids of fresh nodes are ids of the graph at the time of their creation. */
  predicate FreshInGraph(size: nat, extra: seq<NewNode>)
    decreases |extra|
  {
    |extra| > 0 ==>
      && (forall i :: 0 <= i < |extra[0].inputs| ==> InGraph(extra[0].inputs[i].target, size + 1))
      && FreshInGraph(size + 1, extra[1..])
  }

  method AppendNodes(g: Graph, extra: seq<NewNode>)
    requires g.Valid() && FreshInGraph(|g.nodes|, extra)
    requires |g.nodes| + |extra| < NO_NODE && |g.uses| + FreshEdges(extra) < NIL
    modifies g
    ensures g.Valid() && g.View() == AppendAll(old(g.View()), extra)
    ensures |g.uses| <= old(|g.uses|) + FreshEdges(extra)
    decreases |extra|
  {
    if |extra| > 0 {
      var f := extra[0];
      var _ := g.AddNode(f.kind, f.flags, f.ty, f.payload, f.inputs);
      AppendNodes(g, extra[1..]);
    }
  }

  /** The ending shared by all rules: append what the rule needs, hand the node's uses over, mark it dead. */
  method Apply(g: Graph, id: nat, plan: Plan)
    requires g.Valid() && id < |g.nodes|
    requires plan.Rewrite? ==>
      && FreshInGraph(|g.nodes|, plan.extra) && plan.to < |g.nodes| + |plan.extra| && plan.to != id
      && |g.nodes| + |plan.extra| < NO_NODE && |g.uses| + FreshEdges(plan.extra) < NIL
    modifies g
    ensures g.Valid() && g.View() == Applied(old(g.View()), id, plan)
    ensures |g.uses| <= old(|g.uses|) + if plan.Keep? then 0 else FreshEdges(plan.extra)
  {
    if plan.Rewrite? {
      AppendNodes(g, plan.extra);
      g.ReplaceAllUsesWith(id, plan.to);
      g.MarkDead(id);
    }
  }

  // ----- what rules see -----

  function DataOf(s: Sea, n: nat): seq<nat>
    requires s.HasSlice(n)
  {
    OfKind(s.Inputs(n), Data)
  }

  lemma OperandsInGraph(s: Sea, n: nat)
    requires DataWired(s) && n < |s.nodes|
    ensures forall i :: 0 <= i < |DataOf(s, n)| ==> DataOf(s, n)[i] < |s.nodes|
  {
    forall i | 0 <= i < |DataOf(s, n)| ensures DataOf(s, n)[i] < |s.nodes| {
      OfKindMembers(s.Inputs(n), Data, DataOf(s, n)[i]);
      InputsWired(s, n);
    }
  }

  /** The operands of a computing node are live, rank below it, and are therefore other nodes. */
  lemma OperandFacts(s: Sea, rank: seq<nat>, n: nat, i: nat)
    requires Sane(s, rank) && n < |s.nodes| && s.Live(n) && IsValueKind(s.nodes[n].kind) && i < |DataOf(s, n)|
    ensures var d := DataOf(s, n)[i]; d < |s.nodes| && s.Live(d) && rank[d] < rank[n] && d != n
  {
    var d := DataOf(s, n)[i];
    OfKindMembers(s.Inputs(n), Data, d);
    var j :| 0 <= j < |s.Inputs(n)| && s.Inputs(n)[j] == Edge(d, Data);
    assert Above(s.Inputs(n), rank, rank[n]);
    assert InputsAlive(s, n);
  }

  /** In straight-line code the operands of a computing node have values too. */
  lemma TameOperand(s: Sea, n: nat, i: nat)
    requires s.WellFormed() && Tame(s) && n < |s.nodes| && IsValueKind(s.nodes[n].kind) && i < |DataOf(s, n)|
    ensures DataOf(s, n)[i] < |s.nodes| && IsDatum(s.nodes[DataOf(s, n)[i]].kind)
  {
    assert TameAt(s, n);
    OfKindMembers(s.Inputs(n), Data, DataOf(s, n)[i]);
  }

  lemma BinaryValue(ext: Ext, s: Sea, v: seq<i64>, n: nat)
    requires DataWired(s) && Models(ext, s, v) && n < |s.nodes|
    requires IsBinary(s.nodes[n].kind) && |DataOf(s, n)| == 2
    ensures var d := DataOf(s, n); d[0] < |v| && d[1] < |v| && v[n] == Binary(s.nodes[n].kind, v[d[0]], v[d[1]])
  {
    assert ValueOk(ext, s, v, n);
    InputsWired(s, n);
    ArgsAre(s.Inputs(n), v);
  }

  lemma UnaryValue(ext: Ext, s: Sea, v: seq<i64>, n: nat)
    requires DataWired(s) && Models(ext, s, v) && n < |s.nodes|
    requires IsUnary(s.nodes[n].kind) && |DataOf(s, n)| == 1
    ensures var d := DataOf(s, n); d[0] < |v| && v[n] == Unary(s.nodes[n].kind, v[d[0]])
  {
    assert ValueOk(ext, s, v, n);
    InputsWired(s, n);
    ArgsAre(s.Inputs(n), v);
  }

  lemma ConstValue(ext: Ext, s: Sea, v: seq<i64>, n: nat)
    requires DataWired(s) && Models(ext, s, v) && n < |s.nodes| && s.nodes[n].kind == ConstInt
    ensures n < |v| && v[n] == Wrap(s.nodes[n].payload)
  {
    assert ValueOk(ext, s, v, n);
    InputsWired(s, n);
  }

  /** Appending leaves the operands of existing nodes as they were. */
  lemma AppendKeepsOperands(s: Sea, kind: NodeKind, flags: set<Flag>, ty: TypeId, payload: int, inputs: seq<Edge>,
      n: nat)
    requires s.WellFormed() && n < |s.nodes|
    ensures var t := s.Append(kind, flags, ty, payload, inputs);
        t.HasSlice(n) && DataOf(t, n) == DataOf(s, n)
        && t.nodes[n] == s.nodes[n]
    ensures var t := s.Append(kind, flags, ty, payload, inputs);
        t.HasSlice(|s.nodes|)
        && DataOf(t, |s.nodes|) == OfKind(inputs, Data)
  {
    AppendInputs(s, kind, flags, ty, payload, inputs, n);
    AppendInputs(s, kind, flags, ty, payload, inputs, |s.nodes|);
  }

  predicate IsConst(s: Sea, n: nat, c: int) {
    n < |s.nodes| && s.nodes[n].kind == ConstInt && Wrap(s.nodes[n].payload) == c
  }

  /** A valuation of the extended graph restricts to one of the graph. */
  lemma AppendPrefix(ext: Ext, s: Sea, f: NewNode, v: seq<i64>)
    requires DataWired(s) && DataWired(Appended(s, f)) && Models(ext, Appended(s, f), v)
    ensures |v| == |s.nodes| + 1 && Models(ext, s, v[..|s.nodes|])
  {
    var t := Appended(s, f);
    forall n | 0 <= n < |s.nodes| ensures ValueOk(ext, s, v[..|s.nodes|], n) {
      assert ValueOk(ext, t, v, n);
      AppendInputs(s, f.kind, f.flags, f.ty, f.payload, f.inputs, n);
      InputsWired(s, n);
      InputsWired(t, n);
      ArgsCongruent(s.Inputs(n), s.Inputs(n), v, v[..|s.nodes|]);
    }
  }

  lemma AppendOne(s: Sea, f: NewNode)
    ensures AppendAll(s, [f]) == Appended(s, f)
  {
    assert [f][1..] == [];
  }

  lemma AppendTwo(s: Sea, f: NewNode, g: NewNode)
    ensures AppendAll(s, [f, g]) == Appended(Appended(s, f), g)
  {
    assert [f, g][1..] == [g];
    AppendOne(Appended(s, f), g);
  }

  /** A single fresh node. */
  lemma FreshPlanOk(s: Sea, rank: seq<nat>, f: NewNode, r: nat)
    requires DataWired(s) && NodeOk(s, rank, f, r)
    ensures FreshOk(s, rank, [f], [r]) && AppendAll(s, [f]) == Appended(s, f) && DataWired(Appended(s, f))
  {
    AppendOne(s, f);
    assert [f][1..] == [] && [r][1..] == [];
    assert FreshOk(Appended(s, f), rank + [r], [], []);
    AppendWired(s, f.kind, f.flags, f.ty, f.payload, f.inputs);
  }

  /** The value of an appended node. */
  lemma AppendedValue(ext: Ext, s: Sea, f: NewNode, v: seq<i64>)
    requires DataWired(s) && GoodInputs(s, f.inputs) && IsValueKind(f.kind)
    requires DataWired(Appended(s, f)) && Models(ext, Appended(s, f), v) && DataIn(f.inputs, |s.nodes|)
    ensures |v| == |s.nodes| + 1 && v[|s.nodes|] == NodeValue(ext, f.kind, f.payload, Args(f.inputs, v[..|s.nodes|]))
  {
    var t, n := Appended(s, f), |s.nodes|;
    assert ValueOk(ext, t, v, n);
    AppendInputs(s, f.kind, f.flags, f.ty, f.payload, f.inputs, n);
    ArgsCongruent(f.inputs, f.inputs, v, v[..n]);
  }

  lemma TwoArgs(x: nat, y: nat, v: seq<i64>)
    requires x < |v| && y < |v|
    ensures Args([Edge(x, Data), Edge(y, Data)], v) == [v[x], v[y]]
  {
    assert [Edge(x, Data), Edge(y, Data)][1..] == [Edge(y, Data)];
    assert [Edge(y, Data)][1..] == [];
    assert Args([], v) == [];
    assert Args([Edge(y, Data)], v) == [v[y]];
  }

  /** A valuation extends to two appended nodes. */
  lemma ExtendTwice(ext: Ext, s: Sea, f: NewNode, g: NewNode, v: seq<i64>) returns (w: seq<i64>)
    requires DataWired(s) && GoodInputs(s, f.inputs) && IsValueKind(f.kind)
    requires DataWired(Appended(s, f)) && GoodInputs(Appended(s, f), g.inputs) && IsValueKind(g.kind)
    requires DataWired(Appended(Appended(s, f), g)) && Models(ext, s, v)
    ensures Models(ext, Appended(Appended(s, f), g), w) && v <= w
  {
    var u := v + [NodeValue(ext, f.kind, f.payload, Args(f.inputs, v))];
    AppendModel(ext, s, f.kind, f.flags, f.ty, f.payload, f.inputs, v);
    w := u + [NodeValue(ext, g.kind, g.payload, Args(g.inputs, u))];
    AppendModel(ext, Appended(s, f), g.kind, g.flags, g.ty, g.payload, g.inputs, u);
  }

  lemma {:induction false} FreshOkInGraph(s: Sea, rank: seq<nat>, extra: seq<NewNode>, ranks: seq<nat>)
    requires FreshOk(s, rank, extra, ranks)
    ensures FreshInGraph(|s.nodes|, extra)
    decreases |extra|
  {
    if |extra| > 0 {
      assert NodeOk(s, rank, extra[0], ranks[0]);
      FreshOkInGraph(Appended(s, extra[0]), rank + [ranks[0]], extra[1..], ranks[1..]);
    }
  }

  /** A sound plan meets the container's demands. */
  lemma PlanInGraph(ext: Ext, s: Sea, rank: seq<nat>, id: nat, plan: Plan, ranks: seq<nat>)
    requires PlanOk(ext, s, rank, id, plan, ranks)
    ensures plan.Rewrite? ==>
      FreshInGraph(|s.nodes|, plan.extra) && plan.to < |s.nodes| + |plan.extra| && plan.to != id
  {
    if plan.Rewrite? { FreshOkInGraph(s, rank, plan.extra, ranks); }
  }

  // ----- marking nodes dead -----

  ghost function Swept(s: Sea, victims: set<nat>): (t: Sea)
    ensures |t.nodes| == |s.nodes|
  {
    s.(nodes := seq(|s.nodes|, n requires 0 <= n < |s.nodes| =>
      if n in victims then s.nodes[n].(flags := s.nodes[n].flags + {IsDead}) else s.nodes[n]))
  }

  /** Surviving nodes do not depend on victims. */
  ghost predicate Spared(s: Sea, victims: set<nat>)
    requires s.WellFormed()
  {
    forall n {:trigger SparedAt(s, victims, n)} :: 0 <= n < |s.nodes| && s.Live(n) && n !in victims ==>
        SparedAt(s, victims, n)
  }

  predicate SparedAt(s: Sea, victims: set<nat>, n: nat)
    requires s.HasSlice(n)
  {
    forall i :: 0 <= i < |s.Inputs(n)| ==> s.Inputs(n)[i].target !in victims
  }

  lemma SweptRefines(ext: Ext, s: Sea, victims: set<nat>)
    requires DataWired(s)
    ensures DataWired(Swept(s, victims)) && Refines(ext, s, Swept(s, victims))
  {
    var t := Swept(s, victims);
    forall e | 0 <= e < |t.edges| ensures InGraph(t.edges[e].target, |t.nodes|) {
      assert InGraph(s.edges[e].target, |s.nodes|);
    }
    forall v | Models(ext, s, v) ensures exists w :: Carries(ext, s, t, v, w) {
      forall n | 0 <= n < |t.nodes| ensures ValueOk(ext, t, v, n) {
        assert ValueOk(ext, s, v, n) && s.Inputs(n) == t.Inputs(n);
      }
      assert Carries(ext, s, t, v, v);
    }
  }

  lemma SweptSane(s: Sea, rank: seq<nat>, victims: set<nat>)
    requires Sane(s, rank) && Spared(s, victims) && DataWired(Swept(s, victims))
    ensures Sane(Swept(s, victims), rank)
  {
    var t := Swept(s, victims);
    forall n | 0 <= n < |t.nodes| ensures s.Inputs(n) == t.Inputs(n) {}
    forall n | 0 <= n < |t.nodes| && IsValueKind(t.nodes[n].kind) ensures Above(t.Inputs(n), rank, rank[n]) {
      assert Above(s.Inputs(n), rank, rank[n]);
    }
    forall n | 0 <= n < |t.nodes| && t.Live(n) ensures InputsAlive(t, n) {
      assert InputsAlive(s, n) && SparedAt(s, victims, n);
    }
  }

  predicate SparesStop(s: Sea, victims: set<nat>) {
    forall n :: 0 <= n < |s.nodes| && s.nodes[n].kind in {Stop, LoadLocal} ==> n !in victims
  }

  lemma SweptTame(s: Sea, victims: set<nat>)
    requires DataWired(s) && Tame(s) && DataWired(Swept(s, victims)) && SparesStop(s, victims)
    ensures Tame(Swept(s, victims))
  {
    var t := Swept(s, victims);
    forall n | 0 <= n < |t.nodes| ensures TameAt(t, n) {
      assert TameAt(s, n);
      SweptTameAt(s, t, victims, n);
    }
  }

  lemma KilledShaped(kind: NodeKind, flags: set<Flag>, inputs: seq<Edge>, start: nat)
    requires Shaped(kind, flags, inputs, start) && kind != Stop && kind != LoadLocal
    ensures Shaped(kind, flags + {IsDead}, inputs, start)
  {
  }

  lemma SweptTameAt(s: Sea, t: Sea, victims: set<nat>, n: nat)
    requires t == Swept(s, victims) && s.HasSlice(n) && TameAt(s, n)
    requires s.nodes[n].kind in {Stop, LoadLocal} ==> n !in victims
    ensures t.HasSlice(n) && TameAt(t, n)
  {
    var inputs := s.Inputs(n);
    assert t.Inputs(n) == inputs;
    if n in victims { KilledShaped(s.nodes[n].kind, s.nodes[n].flags, inputs, s.start); }
    assert ValueInputs(t, inputs) by {
      forall i | 0 <= i < |inputs| && inputs[i].kind == Data
        ensures inputs[i].target < |t.nodes| && IsDatum(t.nodes[inputs[i].target].kind) {}
    }
    assert EffectInputs(t, inputs) by {
      forall i | 0 <= i < |inputs| && inputs[i].kind == Effect
        ensures inputs[i].target < |t.nodes|
        ensures inputs[i].target == t.start || t.nodes[inputs[i].target].kind == LoadLocal {}
    }
  }

  /** Marking nodes dead that no surviving node depends on changes nothing that is computed. */
  lemma SweptAdvances(ext: Ext, s: Sea, rank: seq<nat>, victims: set<nat>)
    requires Sane(s, rank) && Spared(s, victims) && (Tame(s) ==> SparesStop(s, victims))
    ensures Advances(ext, s, Swept(s, victims), rank)
  {
    SweptRefines(ext, s, victims);
    SweptSane(s, rank, victims);
    if Tame(s) { SweptTame(s, victims); }
  }

  /** It leaves no edge to a dead node if and only if no edge leads to a victim. */
  lemma SweptCleanIff(s: Sea, victims: set<nat>)
    requires s.WellFormed() && DeadUnused(s)
    ensures DeadUnused(Swept(s, victims)) <==>
      forall e :: 0 <= e < |s.edges| && s.edges[e].target < |s.nodes| ==> s.edges[e].target !in victims
  {
    var t := Swept(s, victims);
    forall e | 0 <= e < |s.edges|
      ensures t.Dead(t.edges[e].target) <==> s.edges[e].target < |s.nodes| && s.edges[e].target in victims
    {
      assert !s.Dead(s.edges[e].target);
    }
  }
}
