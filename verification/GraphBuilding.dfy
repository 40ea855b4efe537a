/** Building a graph of straight-line code: what each virtual register's node is worth. */
module GraphBuilding {
  import opened SeaOfNodes
  import opened Int64
  import opened Valuation
  import opened Rewrites
  import opened PassCore

  /** The loads have the values of the locals. */
  ghost predicate Reads(s: Sea, locals: seq<i64>, v: seq<i64>) {
    forall n {:trigger LoadReads(s, locals, v, n)} :: 0 <= n < |s.nodes| ==> LoadReads(s, locals, v, n)
  }

  predicate LoadReads(s: Sea, locals: seq<i64>, v: seq<i64>, n: nat)
    requires n < |s.nodes|
  {
    s.nodes[n].kind == LoadLocal && 0 <= s.nodes[n].payload < |locals| ==> n < |v| && v[n] == locals[s.nodes[n].payload]
  }

  /** The loads find their locals. */
  predicate InRange(s: Sea, locals: seq<i64>) {
    forall n :: 0 <= n < |s.nodes| && s.nodes[n].kind == LoadLocal ==> 0 <= s.nodes[n].payload < |locals|
  }

  /** Node n has the value x in every valuation in which the loads have the values of the locals. */
  ghost predicate Worth(ext: Ext, s: Sea, locals: seq<i64>, n: nat, x: i64)
    requires DataWired(s)
  {
    n < |s.nodes| && forall v :: Models(ext, s, v) && Reads(s, locals, v) ==> n < |v| && v[n] == x
  }

  predicate Usable(s: Sea, n: nat) {
    n < |s.nodes| && s.Live(n) && IsDatum(s.nodes[n].kind)
  }

  /** A graph under construction, the registers' nodes, and the last effect. */
  datatype Build = Build(s: Sea, nodeOf: map<nat, nat>, effect: nat)

  /** The registers' nodes have the registers' values. */
  ghost predicate Tracks(ext: Ext, b: Build, locals: seq<i64>, regs: map<nat, i64>)
    requires DataWired(b.s)
  {
    forall r {:trigger TracksAt(ext, b, locals, regs, r)} :: r in regs ==> TracksAt(ext, b, locals, regs, r)
  }

  ghost predicate TracksAt(ext: Ext, b: Build, locals: seq<i64>, regs: map<nat, i64>, r: nat)
    requires DataWired(b.s) && r in regs
  {
    r in b.nodeOf && Worth(ext, b.s, locals, b.nodeOf[r], regs[r])
  }

  /** The ranks of nodes in topological order. */
  function Ident(n: nat): (rank: seq<nat>)
    ensures |rank| == n && forall i :: 0 <= i < n ==> rank[i] == i
  {
    seq(n, i => i)
  }

  lemma IdentMore(n: nat)
    ensures Ident(n) + [n] == Ident(n + 1)
  {
  }

  /** Nodes in topological order, all live, no Stop yet. */
  ghost predicate Building(b: Build) {
    && Sane(b.s, Ident(|b.s.nodes|)) && Tame(b.s) && b.s.stop == NO_NODE
    && (forall n :: 0 <= n < |b.s.nodes| ==> b.s.Live(n))
    && (forall r :: r in b.nodeOf ==> Usable(b.s, b.nodeOf[r]))
    && b.effect < |b.s.nodes| && (b.effect == b.s.start || b.s.nodes[b.effect].kind == LoadLocal)
  }

  /** A node that computes from nodes of the graph. */
  predicate Computes(s: Sea, f: NewNode) {
    && TameNode(f.kind, f.flags, f.inputs) && IsDead !in f.flags
    && forall j :: 0 <= j < |f.inputs| ==> Usable(s, f.inputs[j].target)
  }

  function LoadNode(b: Build, slot: int): NewNode {
    NewNode(LoadLocal, {IsEffect, NoDeopt}, TInt, slot, [Edge(b.s.start, Control), Edge(b.effect, Effect)])
  }

  // ----- appending -----

  lemma LiveAppended(s: Sea, f: NewNode)
    requires (forall n :: 0 <= n < |s.nodes| ==> s.Live(n)) && IsDead !in f.flags
    ensures forall n :: 0 <= n < |Appended(s, f).nodes| ==> Appended(s, f).Live(n)
  {
    forall n | 0 <= n < |Appended(s, f).nodes| ensures Appended(s, f).Live(n) {
      if n < |s.nodes| { assert s.Live(n); }
    }
  }

  lemma ComputesBuilds(b: Build, f: NewNode)
    requires Building(b) && Computes(b.s, f) && |b.s.nodes| < NO_NODE
    ensures Building(b.(s := Appended(b.s, f))) && Usable(Appended(b.s, f), |b.s.nodes|)
  {
    AppendSane(b.s, Ident(|b.s.nodes|), f.kind, f.flags, f.ty, f.payload, f.inputs, |b.s.nodes|);
    IdentMore(|b.s.nodes|);
    LiveAppended(b.s, f);
    AppendTame(b.s, f.kind, f.flags, f.ty, f.payload, f.inputs);
  }

  lemma LoadTame(b: Build, slot: int)
    requires Building(b) && DataWired(Appended(b.s, LoadNode(b, slot)))
    ensures Tame(Appended(b.s, LoadNode(b, slot)))
  {
    var f := LoadNode(b, slot);
    var t := Appended(b.s, f);
    forall n | 0 <= n < |t.nodes| ensures TameAt(t, n) {
      AppendInputs(b.s, f.kind, f.flags, f.ty, f.payload, f.inputs, n);
      if n < |b.s.nodes| { assert TameAt(b.s, n); }
    }
  }

  lemma LoadBuilds(b: Build, slot: int)
    requires Building(b) && |b.s.nodes| < NO_NODE
    ensures Building(Build(Appended(b.s, LoadNode(b, slot)), b.nodeOf, |b.s.nodes|))
    ensures Usable(Appended(b.s, LoadNode(b, slot)), |b.s.nodes|)
  {
    var f := LoadNode(b, slot);
    AppendSane(b.s, Ident(|b.s.nodes|), f.kind, f.flags, f.ty, f.payload, f.inputs, |b.s.nodes|);
    IdentMore(|b.s.nodes|);
    LiveAppended(b.s, f);
    LoadTame(b, slot);
  }

  /** A valuation of the extended graph restricts to one of the graph, for the same locals. */
  lemma ReadsPrefix(ext: Ext, s: Sea, f: NewNode, locals: seq<i64>, v: seq<i64>)
    requires DataWired(s) && DataWired(Appended(s, f)) && Models(ext, Appended(s, f), v)
        && Reads(Appended(s, f), locals, v)
    ensures |v| == |s.nodes| + 1 && Models(ext, s, v[..|s.nodes|]) && Reads(s, locals, v[..|s.nodes|])
  {
    AppendPrefix(ext, s, f, v);
    forall n | 0 <= n < |s.nodes| ensures LoadReads(s, locals, v[..|s.nodes|], n) {
      assert LoadReads(Appended(s, f), locals, v, n);
    }
  }

  lemma WorthAppend(ext: Ext, s: Sea, f: NewNode, locals: seq<i64>, n: nat, x: i64)
    requires DataWired(s) && DataWired(Appended(s, f)) && Worth(ext, s, locals, n, x)
    ensures Worth(ext, Appended(s, f), locals, n, x)
  {
    forall v | Models(ext, Appended(s, f), v) && Reads(Appended(s, f), locals, v) ensures n < |v| && v[n] == x {
      ReadsPrefix(ext, s, f, locals, v);
    }
  }

  lemma TracksAppend(ext: Ext, b: Build, f: NewNode, locals: seq<i64>, regs: map<nat, i64>, effect: nat)
    requires DataWired(b.s) && DataWired(Appended(b.s, f)) && Tracks(ext, b, locals, regs)
    ensures Tracks(ext, Build(Appended(b.s, f), b.nodeOf, effect), locals, regs)
  {
    var t := Build(Appended(b.s, f), b.nodeOf, effect);
    forall r | r in regs ensures TracksAt(ext, t, locals, regs, r) {
      assert TracksAt(ext, b, locals, regs, r);
      WorthAppend(ext, b.s, f, locals, b.nodeOf[r], regs[r]);
    }
  }

  /** Register r gets node n, with the value x. */
  lemma TracksSet(ext: Ext, b: Build, locals: seq<i64>, regs: map<nat, i64>, r: nat, n: nat, x: i64)
    requires DataWired(b.s) && Tracks(ext, b, locals, regs) && Worth(ext, b.s, locals, n, x)
    ensures Tracks(ext, b.(nodeOf := b.nodeOf[r := n]), locals, regs[r := x])
  {
    var after, t := regs[r := x], b.(nodeOf := b.nodeOf[r := n]);
    forall q | q in after ensures TracksAt(ext, t, locals, after, q) {
      if q != r { assert TracksAt(ext, b, locals, regs, q); }
    }
  }

  /** A register without a value may get any node. */
  lemma TracksOther(ext: Ext, b: Build, locals: seq<i64>, regs: map<nat, i64>, r: nat, n: nat)
    requires DataWired(b.s) && Tracks(ext, b, locals, regs) && r !in b.nodeOf
    ensures Tracks(ext, b.(nodeOf := b.nodeOf[r := n]), locals, regs)
  {
    var t := b.(nodeOf := b.nodeOf[r := n]);
    forall q | q in regs ensures TracksAt(ext, t, locals, regs, q) { assert TracksAt(ext, b, locals, regs, q); }
  }

  // ----- what a new node is worth -----

  lemma WorthConst(ext: Ext, s: Sea, locals: seq<i64>, f: NewNode)
    requires DataWired(s) && DataWired(Appended(s, f)) && f.kind == ConstInt && f.inputs == []
    ensures Worth(ext, Appended(s, f), locals, |s.nodes|, Wrap(f.payload))
  {
    forall v | Models(ext, Appended(s, f), v) ensures |s.nodes| < |v| && v[|s.nodes|] == Wrap(f.payload) {
      ConstValue(ext, Appended(s, f), v, |s.nodes|);
    }
  }

  lemma WorthLoad(ext: Ext, s: Sea, locals: seq<i64>, f: NewNode)
    requires DataWired(s) && DataWired(Appended(s, f)) && f.kind == LoadLocal && 0 <= f.payload < |locals|
    ensures Worth(ext, Appended(s, f), locals, |s.nodes|, locals[f.payload])
  {
    forall v | Models(ext, Appended(s, f), v) && Reads(Appended(s, f), locals, v)
      ensures |s.nodes| < |v| && v[|s.nodes|] == locals[f.payload]
    {
      assert LoadReads(Appended(s, f), locals, v, |s.nodes|);
    }
  }

  lemma WorthUnary(ext: Ext, s: Sea, locals: seq<i64>, f: NewNode, a: nat, x: i64)
    requires DataWired(s) && DataWired(Appended(s, f)) && IsUnary(f.kind) && f.inputs == [Edge(a, Data)]
    requires Usable(s, a) && Worth(ext, s, locals, a, x)
    ensures Worth(ext, Appended(s, f), locals, |s.nodes|, Unary(f.kind, x))
  {
    forall v | Models(ext, Appended(s, f), v) && Reads(Appended(s, f), locals, v)
      ensures |s.nodes| < |v| && v[|s.nodes|] == Unary(f.kind, x)
    {
      ReadsPrefix(ext, s, f, locals, v);
      AppendedValue(ext, s, f, v);
      OneArg(a, v[..|s.nodes|]);
    }
  }

  lemma OneArg(x: nat, v: seq<i64>)
    requires x < |v|
    ensures Args([Edge(x, Data)], v) == [v[x]]
  {
    assert [Edge(x, Data)][1..] == [];
    assert Args([], v) == [];
  }

  lemma WorthBinary(ext: Ext, s: Sea, locals: seq<i64>, f: NewNode, a: nat, b: nat, x: i64, y: i64)
    requires DataWired(s) && DataWired(Appended(s, f)) && IsBinary(f.kind) && f.inputs == [Edge(a, Data), Edge(b, Data)]
    requires Usable(s, a) && Usable(s, b) && Worth(ext, s, locals, a, x) && Worth(ext, s, locals, b, y)
    ensures Worth(ext, Appended(s, f), locals, |s.nodes|, Binary(f.kind, x, y))
  {
    assert f.inputs[0].target == a && f.inputs[1].target == b;
    forall v | Models(ext, Appended(s, f), v) && Reads(Appended(s, f), locals, v)
      ensures |s.nodes| < |v| && v[|s.nodes|] == Binary(f.kind, x, y)
    {
      ReadsPrefix(ext, s, f, locals, v);
      AppendedValue(ext, s, f, v);
      TwoArgs(a, b, v[..|s.nodes|]);
    }
  }
}
