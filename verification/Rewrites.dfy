/** The two moves every rewriting pass is made of: appending a node, and replacing all uses of a node by an
    equal-valued one. Each keeps the graph acyclic, keeps every value, and leaves no edge to a dead node. */
module Rewrites {
  import opened SeaOfNodes
  import opened Int64
  import opened Valuation

  /** No edge points at a dead node. */
  ghost predicate DeadUnused(s: Sea) {
    forall e {:trigger s.Dead(s.edges[e].target)} :: 0 <= e < |s.edges| ==> !s.Dead(s.edges[e].target)
  }

  /** The inputs of live nodes are live. */
  ghost predicate LiveInputs(s: Sea)
    requires s.WellFormed()
  {
    forall n {:trigger InputsAlive(s, n)} :: 0 <= n < |s.nodes| && s.Live(n) ==> InputsAlive(s, n)
  }

  ghost predicate InputsAlive(s: Sea, n: nat)
    requires s.HasSlice(n)
  {
    forall i :: 0 <= i < |s.Inputs(n)| ==> !s.Dead(s.Inputs(n)[i].target)
  }

  /** What the passes need and keep, with the rank that witnesses acyclicity. */
  ghost predicate Sane(s: Sea, rank: seq<nat>) {
    DataWired(s) && Ranked(s, rank) && LiveInputs(s)
  }

  // ----- the straight-line integer fragment -----

  /** The kinds to which straight-line integer code is lowered, and those the passes make of them. */
  const FRAGMENT: set<NodeKind> :=
    {Start, Stop, LoadLocal, ConstInt, Add, Mul, Neg, Eq, Ne, And, Or, Not, Shl, Shr}

  /** Kinds for which swapping the operands cannot be observed. */
  const SYMMETRIC: set<NodeKind> := {Add, Mul, Eq, Ne, And, Or}

  function Arity(k: NodeKind): nat {
    if IsBinary(k) then 2 else if IsUnary(k) then 1 else 0
  }

  /** A computing node of the fragment: pure, with exactly its operands as inputs, and commutative only if
      that is true. */
  predicate TameNode(kind: NodeKind, flags: set<Flag>, inputs: seq<Edge>) {
    && kind in FRAGMENT && IsValueKind(kind)
    && Pure in flags && IsControl !in flags && IsEffect !in flags
    && |inputs| == Arity(kind) && (Commutative in flags ==> kind in SYMMETRIC)
    && forall i :: 0 <= i < |inputs| ==> inputs[i].kind == Data
  }

  /** The nodes of straight-line code that have a value: those that compute, and the loads of locals. */
  predicate IsDatum(k: NodeKind) { IsValueKind(k) || k == LoadLocal }

  /** The data inputs have values. */
  predicate ValueInputs(s: Sea, inputs: seq<Edge>) {
    forall i :: 0 <= i < |inputs| && inputs[i].kind == Data ==>
      inputs[i].target < |s.nodes| && IsDatum(s.nodes[inputs[i].target].kind)
  }

  /** Effects come from Start or from a load. */
  predicate EffectInputs(s: Sea, inputs: seq<Edge>) {
    forall i :: 0 <= i < |inputs| && inputs[i].kind == Effect ==>
      inputs[i].target < |s.nodes| && (inputs[i].target == s.start || s.nodes[inputs[i].target].kind == LoadLocal)
  }

  /** The inputs that Start, Stop, loads and computing nodes of straight-line code have. */
  predicate Shaped(kind: NodeKind, flags: set<Flag>, inputs: seq<Edge>, start: nat) {
    if kind == Start then inputs == [] && GVNable !in flags && Pure !in flags
    else if kind == Stop then
      && GVNable !in flags && Pure !in flags && IsDead !in flags
      && |inputs| == 3 && inputs[0].kind == Data && inputs[1] == Edge(start, Control) && inputs[2].kind == Effect
    else if kind == LoadLocal then
      && GVNable !in flags && Pure !in flags && IsDead !in flags && IsEffect in flags
      && |inputs| == 2 && inputs[0] == Edge(start, Control) && inputs[1].kind == Effect
    else TameNode(kind, flags, inputs)
  }

  /** A graph of straight-line integer code: Start, Stop with the returned value, loads of locals, and computing nodes
      that depend on loads and computing nodes only. */
  ghost predicate Tame(s: Sea)
    requires s.WellFormed()
  {
    && s.start < |s.nodes| && s.nodes[s.start].kind == Start && s.nodes[0].kind == Start
    && forall n {:trigger TameAt(s, n)} :: 0 <= n < |s.nodes| ==> TameAt(s, n)
  }

  ghost predicate TameAt(s: Sea, n: nat)
    requires s.HasSlice(n)
  {
    && Shaped(s.nodes[n].kind, s.nodes[n].flags, s.Inputs(n), s.start)
    && ValueInputs(s, s.Inputs(n)) && EffectInputs(s, s.Inputs(n))
    && (s.nodes[n].kind == Stop ==> n == s.stop)
  }

  /** t has the nodes and edges of s, possibly redirected or killed, and then some. */
  ghost predicate Extends(s: Sea, t: Sea) {
    && |s.nodes| <= |t.nodes| && |s.edges| <= |t.edges| && s.start == t.start && s.stop == t.stop
    && (forall n {:trigger SameNode(s.nodes[n], t.nodes[n])} :: 0 <= n < |s.nodes| ==> SameNode(s.nodes[n], t.nodes[n]))
    && (forall n :: |s.nodes| <= n < |t.nodes| ==> IsValueKind(t.nodes[n].kind))
    && (forall e :: 0 <= e < |s.edges| ==> t.edges[e].kind == s.edges[e].kind)
  }

  ghost predicate SameNode(a: Node, b: Node) {
    b == a.(flags := b.flags) && (b.flags == a.flags || b.flags == a.flags + {IsDead})
  }

  /** Every operand of every node of s has in t the value it had in s. */
  ghost predicate OperandsKept(s: Sea, t: Sea, v: seq<i64>, w: seq<i64>)
    requires |s.edges| <= |t.edges|
  {
    forall e :: 0 <= e < |s.edges| && s.edges[e].target < |v| ==>
      t.edges[e].target < |w| && w[t.edges[e].target] == v[s.edges[e].target]
  }

  /** w carries the valuation v of s over to t: old nodes and all operands keep their values. */
  ghost predicate Carries(ext: Ext, s: Sea, t: Sea, v: seq<i64>, w: seq<i64>)
    requires DataWired(t)
  {
    Extends(s, t) && Models(ext, t, w) && v <= w && OperandsKept(s, t, v, w)
  }

  /** t computes what s computes, for every assignment to the opaque nodes. */
  ghost predicate Refines(ext: Ext, s: Sea, t: Sea)
    requires DataWired(s) && DataWired(t)
  {
    Extends(s, t) && forall v :: Models(ext, s, v) ==> exists w :: Carries(ext, s, t, v, w)
  }

  lemma RefinesSelf(ext: Ext, s: Sea)
    requires DataWired(s)
    ensures Refines(ext, s, s)
  {
    forall v | Models(ext, s, v) ensures exists w :: Carries(ext, s, s, v, w) {
      assert Carries(ext, s, s, v, v);
    }
  }

  lemma ExtendsTransitive(s: Sea, t: Sea, u: Sea)
    requires Extends(s, t) && Extends(t, u)
    ensures Extends(s, u)
  {
    forall n | 0 <= n < |s.nodes| ensures SameNode(s.nodes[n], u.nodes[n]) {
      assert SameNode(s.nodes[n], t.nodes[n]) && SameNode(t.nodes[n], u.nodes[n]);
    }
    forall n | |s.nodes| <= n < |u.nodes| ensures IsValueKind(u.nodes[n].kind) {
      if n < |t.nodes| { assert SameNode(t.nodes[n], u.nodes[n]); }
    }
  }

  lemma RefinesTransitive(ext: Ext, s: Sea, t: Sea, u: Sea)
    requires DataWired(s) && DataWired(t) && DataWired(u)
    requires Refines(ext, s, t) && Refines(ext, t, u)
    ensures Refines(ext, s, u)
  {
    ExtendsTransitive(s, t, u);
    forall v | Models(ext, s, v) ensures exists x :: Carries(ext, s, u, v, x) {
      var w :| Carries(ext, s, t, v, w);
      var x :| Carries(ext, t, u, w, x);
      CarriesTransitive(ext, s, t, u, v, w, x);
    }
  }

  lemma CarriesTransitive(ext: Ext, s: Sea, t: Sea, u: Sea, v: seq<i64>, w: seq<i64>, x: seq<i64>)
    requires DataWired(t) && DataWired(u) && Extends(s, u)
    requires Carries(ext, s, t, v, w) && Carries(ext, t, u, w, x)
    ensures Carries(ext, s, u, v, x)
  {
    forall e | 0 <= e < |s.edges| && s.edges[e].target < |v|
      ensures u.edges[e].target < |x| && x[u.edges[e].target] == v[s.edges[e].target]
    {
      assert w[t.edges[e].target] == v[s.edges[e].target];
    }
  }

  // ----- appending -----

  lemma AppendInputs(s: Sea, kind: NodeKind, flags: set<Flag>, ty: TypeId, payload: int, inputs: seq<Edge>, n: nat)
    requires s.WellFormed() && n <= |s.nodes|
    ensures var t := s.Append(kind, flags, ty, payload, inputs);
            t.HasSlice(n) && t.Inputs(n) == if n < |s.nodes| then s.Inputs(n) else inputs
  {
  }

  /** The inputs of an appended node must be live nodes of the graph. */
  ghost predicate GoodInputs(s: Sea, inputs: seq<Edge>) {
    forall i :: 0 <= i < |inputs| ==> inputs[i].target < |s.nodes| && s.Live(inputs[i].target)
  }

  lemma AppendWired(s: Sea, kind: NodeKind, flags: set<Flag>, ty: TypeId, payload: int, inputs: seq<Edge>)
    requires DataWired(s) && GoodInputs(s, inputs)
    ensures DataWired(s.Append(kind, flags, ty, payload, inputs))
  {
    var t := s.Append(kind, flags, ty, payload, inputs);
    forall e | 0 <= e < |t.edges|
      ensures InGraph(t.edges[e].target, |t.nodes|) && (t.edges[e].kind == Data ==> t.edges[e].target < |t.nodes|)
    {
      if e < |s.edges| { assert InGraph(s.edges[e].target, |s.nodes|); }
    }
  }

  lemma AppendSane(s: Sea, rank: seq<nat>, kind: NodeKind, flags: set<Flag>, ty: TypeId, payload: int,
      inputs: seq<Edge>, r: nat)
    requires Sane(s, rank) && GoodInputs(s, inputs) && Above(inputs, rank, r) && IsDead !in flags
    requires |s.nodes| < NO_NODE
    ensures Sane(s.Append(kind, flags, ty, payload, inputs), rank + [r])
  {
    var t := s.Append(kind, flags, ty, payload, inputs);
    AppendWired(s, kind, flags, ty, payload, inputs);
    forall n | 0 <= n < |t.nodes| && IsValueKind(t.nodes[n].kind)
        ensures Above(t.Inputs(n), rank + [r], (rank + [r])[n]) {
      AppendInputs(s, kind, flags, ty, payload, inputs, n);
      if n < |s.nodes| { assert Above(s.Inputs(n), rank, rank[n]); }
    }
    forall n | 0 <= n < |t.nodes| && t.Live(n) ensures InputsAlive(t, n) {
      AppendInputs(s, kind, flags, ty, payload, inputs, n);
      if n < |s.nodes| {
        assert InputsAlive(s, n);
        forall i | 0 <= i < |s.Inputs(n)| ensures !t.Dead(s.Inputs(n)[i].target) {
          assert InGraph(s.edges[s.nodes[n].firstInput + i].target, |s.nodes|);
        }
      }
    }
  }

  lemma AppendDeadUnused(s: Sea, kind: NodeKind, flags: set<Flag>, ty: TypeId, payload: int, inputs: seq<Edge>)
    requires s.WellFormed() && DeadUnused(s) && GoodInputs(s, inputs) && |s.nodes| < NO_NODE
    ensures DeadUnused(s.Append(kind, flags, ty, payload, inputs))
  {
    var t := s.Append(kind, flags, ty, payload, inputs);
    forall e | 0 <= e < |t.edges| ensures !t.Dead(t.edges[e].target) {
      if e < |s.edges| {
        assert !s.Dead(s.edges[e].target) && InGraph(s.edges[e].target, |s.nodes|);
      } else {
        assert s.Live(inputs[e - |s.edges|].target);
      }
    }
  }

  lemma AppendTame(s: Sea, kind: NodeKind, flags: set<Flag>, ty: TypeId, payload: int, inputs: seq<Edge>)
    requires DataWired(s) && Tame(s) && GoodInputs(s, inputs) && TameNode(kind, flags, inputs) && ValueInputs(s, inputs)
    ensures DataWired(s.Append(kind, flags, ty, payload, inputs)) && Tame(s.Append(kind, flags, ty, payload, inputs))
  {
    var t := s.Append(kind, flags, ty, payload, inputs);
    AppendWired(s, kind, flags, ty, payload, inputs);
    forall n | 0 <= n < |t.nodes| ensures TameAt(t, n) {
      AppendInputs(s, kind, flags, ty, payload, inputs, n);
      if n < |s.nodes| { assert TameAt(s, n); }
    }
  }

  /** Appending a computing node adds its value and changes nothing else. */
  lemma AppendModel(ext: Ext, s: Sea, kind: NodeKind, flags: set<Flag>, ty: TypeId, payload: int, inputs: seq<Edge>,
      v: seq<i64>)
    requires DataWired(s) && GoodInputs(s, inputs) && IsValueKind(kind)
    requires DataWired(s.Append(kind, flags, ty, payload, inputs)) && Models(ext, s, v) && DataIn(inputs, |v|)
    ensures Carries(ext, s, s.Append(kind, flags, ty, payload, inputs), v,
        v + [NodeValue(ext, kind, payload, Args(inputs, v))])
  {
    var t := s.Append(kind, flags, ty, payload, inputs);
    var w := v + [NodeValue(ext, kind, payload, Args(inputs, v))];
    forall n | 0 <= n < |t.nodes| ensures ValueOk(ext, t, w, n) {
      AppendInputs(s, kind, flags, ty, payload, inputs, n);
      InputsWired(t, n);
      if n < |s.nodes| {
        assert ValueOk(ext, s, v, n);
        InputsWired(s, n);
        ArgsCongruent(s.Inputs(n), t.Inputs(n), v, w);
      } else {
        ArgsCongruent(inputs, inputs, v, w);
      }
    }
  }

  lemma AppendRefines(ext: Ext, s: Sea, kind: NodeKind, flags: set<Flag>, ty: TypeId, payload: int, inputs: seq<Edge>)
    requires DataWired(s) && GoodInputs(s, inputs) && IsValueKind(kind)
    requires DataWired(s.Append(kind, flags, ty, payload, inputs))
    ensures Refines(ext, s, s.Append(kind, flags, ty, payload, inputs))
  {
    forall v | Models(ext, s, v) ensures exists w :: Carries(ext, s, s.Append(kind, flags, ty, payload, inputs), v, w) {
      AppendModel(ext, s, kind, flags, ty, payload, inputs, v);
    }
  }

  // ----- replacing -----

  ghost function Replaced(s: Sea, a: nat, b: nat): Sea
    requires a < |s.nodes|
  {
    s.Redirect(a, b).Kill(a)
  }

  lemma ReplacedInputs(s: Sea, a: nat, b: nat, n: nat)
    requires s.WellFormed() && a < |s.nodes| && n < |s.nodes|
    ensures Replaced(s, a, b).HasSlice(n) && Replaced(s, a, b).Inputs(n) == RedirectEdges(s.Inputs(n), a, b)
  {
  }

  /** The congruence at the heart of every pass: replacing a node by an equal-valued one keeps every value. */
  lemma ReplaceModel(ext: Ext, s: Sea, a: nat, b: nat, v: seq<i64>)
    requires DataWired(s) && a < |s.nodes| && b < |s.nodes| && DataWired(Replaced(s, a, b))
    requires Models(ext, s, v) && v[a] == v[b]
    ensures Carries(ext, s, Replaced(s, a, b), v, v)
  {
    var t := Replaced(s, a, b);
    forall n | 0 <= n < |t.nodes| ensures ValueOk(ext, t, v, n) {
      ReplacedInputs(s, a, b, n);
      assert ValueOk(ext, s, v, n);
      InputsWired(s, n);
      InputsWired(t, n);
      ArgsCongruent(s.Inputs(n), t.Inputs(n), v, v);
    }
  }

  /** Replacing by a live node of no greater rank keeps the graph acyclic and its live inputs live. */
  lemma ReplaceSane(s: Sea, rank: seq<nat>, a: nat, b: nat)
    requires Sane(s, rank) && a < |s.nodes| && b < |s.nodes| && a != b && s.Live(b) && rank[b] <= rank[a]
    ensures Sane(Replaced(s, a, b), rank)
  {
    var t := Replaced(s, a, b);
    ReplaceWired(s, a, b);
    forall n | 0 <= n < |t.nodes| && IsValueKind(t.nodes[n].kind) ensures Above(t.Inputs(n), rank, rank[n]) {
      ReplacedInputs(s, a, b, n);
      assert Above(s.Inputs(n), rank, rank[n]);
    }
    forall n | 0 <= n < |t.nodes| && t.Live(n) ensures InputsAlive(t, n) {
      ReplacedInputs(s, a, b, n);
      assert InputsAlive(s, n);
    }
  }

  /** After a replacement no edge leads to the replaced node. */
  lemma ReplaceDeadUnused(s: Sea, a: nat, b: nat)
    requires s.WellFormed() && DeadUnused(s) && a < |s.nodes| && b < |s.nodes| && a != b && s.Live(b)
    ensures DeadUnused(Replaced(s, a, b))
  {
    var t := Replaced(s, a, b);
    forall e | 0 <= e < |t.edges| ensures !t.Dead(t.edges[e].target) {
      assert !s.Dead(s.edges[e].target);
    }
  }

  lemma ReplaceShaped(n: Node, flags: set<Flag>, es: seq<Edge>, start: nat, a: nat, b: nat)
    requires Shaped(n.kind, n.flags, es, start) && a != start
    requires flags == n.flags || (flags == n.flags + {IsDead} && n.kind != Stop && n.kind != LoadLocal)
    ensures Shaped(n.kind, flags, RedirectEdges(es, a, b), start)
  {
  }

  lemma ReplaceTame(s: Sea, a: nat, b: nat)
    requires DataWired(s) && Tame(s) && a < |s.nodes| && b < |s.nodes|
    requires IsValueKind(s.nodes[a].kind) && IsDatum(s.nodes[b].kind)
    ensures DataWired(Replaced(s, a, b)) && Tame(Replaced(s, a, b))
  {
    ReplaceWired(s, a, b);
    forall n | 0 <= n < |s.nodes| ensures TameAt(Replaced(s, a, b), n) {
      assert TameAt(s, n);
      ReplacedInputs(s, a, b, n);
      ReplaceTameAt(s, a, b, n);
    }
  }

  lemma ReplaceTameAt(s: Sea, a: nat, b: nat, n: nat)
    requires s.HasSlice(n) && a < |s.nodes| && b < |s.nodes| && TameAt(s, n) && a != s.start
    requires IsValueKind(s.nodes[a].kind) && IsDatum(s.nodes[b].kind)
    requires Replaced(s, a, b).HasSlice(n) && Replaced(s, a, b).Inputs(n) == RedirectEdges(s.Inputs(n), a, b)
    ensures TameAt(Replaced(s, a, b), n)
  {
    var t, es := Replaced(s, a, b), s.Inputs(n);
    ReplaceShaped(s.nodes[n], t.nodes[n].flags, es, s.start, a, b);
    RedirectedInputs(s, t, es, a, b);
  }

  lemma RedirectedInputs(s: Sea, t: Sea, es: seq<Edge>, a: nat, b: nat)
    requires |t.nodes| == |s.nodes| && t.start == s.start && a < |s.nodes| && b < |s.nodes| && a != s.start
    requires forall n :: 0 <= n < |s.nodes| ==> t.nodes[n].kind == s.nodes[n].kind
    requires IsValueKind(s.nodes[a].kind) && IsDatum(s.nodes[b].kind) && ValueInputs(s, es) && EffectInputs(s, es)
    ensures ValueInputs(t, RedirectEdges(es, a, b)) && EffectInputs(t, RedirectEdges(es, a, b))
  {
  }

  lemma ReplaceWired(s: Sea, a: nat, b: nat)
    requires DataWired(s) && a < |s.nodes| && b < |s.nodes|
    ensures DataWired(Replaced(s, a, b))
  {
    var t := Replaced(s, a, b);
    forall e | 0 <= e < |t.edges| ensures InGraph(t.edges[e].target, |t.nodes|) {
      assert InGraph(s.edges[e].target, |s.nodes|);
    }
  }

  lemma ReplaceRefines(ext: Ext, s: Sea, a: nat, b: nat)
    requires DataWired(s) && a < |s.nodes| && b < |s.nodes| && DataWired(Replaced(s, a, b))
    requires forall v :: Models(ext, s, v) ==> v[a] == v[b]
    ensures Refines(ext, s, Replaced(s, a, b))
  {
    forall v | Models(ext, s, v) ensures exists w :: Carries(ext, s, Replaced(s, a, b), v, w) {
      ReplaceModel(ext, s, a, b, v);
    }
  }

  /** Refinement loses no behaviour either: between acyclic graphs, every valuation of t is the continuation
      of a valuation of s. */
  lemma RefinesBothWays(ext: Ext, s: Sea, t: Sea, rs: seq<nat>, rt: seq<nat>, w: seq<i64>)
    requires DataWired(s) && DataWired(t) && Ranked(s, rs) && Ranked(t, rt)
    requires Refines(ext, s, t) && Models(ext, t, w)
    ensures |s.nodes| <= |w| && Models(ext, s, w[..|s.nodes|]) && OperandsKept(s, t, w[..|s.nodes|], w)
  {
    var v := ModelExists(ext, s, rs, w[..|s.nodes|]);
    var x :| Carries(ext, s, t, v, x);
    forall m | 0 <= m < |t.nodes| && !IsValueKind(t.nodes[m].kind) ensures x[m] == w[m] {
      assert m < |s.nodes| && SameNode(s.nodes[m], t.nodes[m]);
      assert x[m] == v[m];
    }
    forall n | 0 <= n < |t.nodes| ensures x[n] == w[n] {
      ModelUnique(ext, t, rt, x, w, n);
    }
    assert x == w;
    assert w[..|s.nodes|] == v;
  }
}
