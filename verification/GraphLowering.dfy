/** From straight-line register IR to the Sea-of-Nodes graph: what lowering makes of a function, and what that graph
    computes. */
module GraphLowering {
  import opened SeaOfNodes
  import opened UsePool
  import opened Int64
  import opened Valuation
  import opened Rewrites
  import opened PassCore
  import opened GraphBuilding
  import opened StraightLine
  import opened Ascending
  import T = Tier1

  /** The flags that lowering gives to the node of an operation of the fragment. */
  function FlagsOf(op: T.Op): set<Flag> {
    if op in {T.LoadConst, T.LoadConstImm} then {Pure, CSEable, GVNable, NoDeopt}
    else if op in {T.Add, T.Mul, T.Eq, T.Ne, T.And, T.Or} then {Pure, GVNable, Commutative}
    else {Pure, GVNable}
  }

  function TypeOf(op: T.Op): TypeId {
    if op in {T.Eq, T.Ne, T.And, T.Or, T.Not} then TBool else TInt
  }

  function NodeFor(i: T.Inst, inputs: seq<Edge>): NewNode {
    NewNode(T.KindOf(i.op), FlagsOf(i.op), TypeOf(i.op), if T.Reads1(i.op) then 0 else i.payload, inputs)
  }

  lemma NodeForTame(i: T.Inst, inputs: seq<Edge>)
    requires i.op in BODY && i.op != T.Mov && |inputs| == Arity(T.KindOf(i.op))
    requires forall j :: 0 <= j < |inputs| ==> inputs[j].kind == Data
    ensures var f := NodeFor(i, inputs); TameNode(f.kind, f.flags, f.inputs) && IsDead !in f.flags
  {
  }

  lemma NodeForConst(s: Sea, i: T.Inst)
    requires i.op in {T.LoadConst, T.LoadConstImm}
    ensures var f := NodeFor(i, []); Computes(s, f) && f.kind == ConstInt && f.inputs == [] && f.payload == i.payload
  {
    NodeForTame(i, []);
  }

  lemma NodeForUnary(s: Sea, i: T.Inst, a: nat)
    requires i.op in {T.Neg, T.Not} && Usable(s, a)
    ensures var f := NodeFor(i, [Edge(a, Data)]);
        Computes(s, f) && f.kind == T.KindOf(i.op) && IsUnary(f.kind)
        && f.inputs == [Edge(a, Data)]
  {
    NodeForTame(i, [Edge(a, Data)]);
  }

  lemma NodeForBinary(s: Sea, i: T.Inst, a: nat, b: nat)
    requires i.op in BINARIES && Usable(s, a) && Usable(s, b)
    ensures var f := NodeFor(i, [Edge(a, Data), Edge(b, Data)]);
      Computes(s, f) && f.kind == T.KindOf(i.op) && IsBinary(f.kind) && f.inputs == [Edge(a, Data), Edge(b, Data)]
  {
    NodeForTame(i, [Edge(a, Data), Edge(b, Data)]);
  }

  /** What stands in for a register that was never written. */
  const ZERO: NewNode := NewNode(ConstInt, {Pure, GVNable}, TInt, 0, [])

  const BINARIES: set<T.Op> := {T.Add, T.Mul, T.Shl, T.Shr, T.Eq, T.Ne, T.And, T.Or}

  // ----- the lowering as a function -----

  /** A register that was never written gets a fresh zero. */
  ghost function Looked(b: Build, v: nat): (t: Build)
    ensures v in t.nodeOf && forall r :: r in b.nodeOf ==> r in t.nodeOf && t.nodeOf[r] == b.nodeOf[r]
  {
    if v in b.nodeOf then b else Build(Appended(b.s, ZERO), b.nodeOf[v := |b.s.nodes|], b.effect)
  }

  /** Register dst gets a fresh node. */
  ghost function Put(b: Build, dst: nat, f: NewNode): Build {
    Build(Appended(b.s, f), b.nodeOf[dst := |b.s.nodes|], b.effect)
  }

  ghost function Moved(b: Build, dst: nat, src: nat): Build
    requires src in b.nodeOf
  {
    b.(nodeOf := b.nodeOf[dst := b.nodeOf[src]])
  }

  ghost function Loaded(b: Build, dst: nat, slot: int): Build {
    Build(Appended(b.s, LoadNode(b, slot)), b.nodeOf[dst := |b.s.nodes|], |b.s.nodes|)
  }

  ghost function UnaryNode(b: Build, i: T.Inst): NewNode
    requires i.src1 in b.nodeOf
  {
    NodeFor(i, [Edge(b.nodeOf[i.src1], Data)])
  }

  ghost function BinaryNode(b: Build, i: T.Inst): NewNode
    requires i.src1 in b.nodeOf && i.src2 in b.nodeOf
  {
    NodeFor(i, [Edge(b.nodeOf[i.src1], Data), Edge(b.nodeOf[i.src2], Data)])
  }

  ghost function Lowered(b: Build, i: T.Inst): Build {
    if i.op in {T.LoadConst, T.LoadConstImm} then Put(b, i.dst, NodeFor(i, []))
    else if i.op == T.LoadLocal then Loaded(b, i.dst, i.payload)
    else if i.op == T.Mov then Moved(Looked(b, i.src1), i.dst, i.src1)
    else if i.op in {T.Neg, T.Not} then Put(Looked(b, i.src1), i.dst, UnaryNode(Looked(b, i.src1), i))
    else Put(LookedBoth(b, i), i.dst, BinaryNode(LookedBoth(b, i), i))
  }

  /** Start alone. */
  ghost function Started(): Build {
    Build(Sea([Node(Start, {}, Top, 0, 0, 0), Node(Start, {IsControl, NoDeopt}, Bottom, 0, 0, 0)], [], 1, NO_NODE),
        map[], 1)
  }

  /** The graphs between the instructions of the body. */
  ghost predicate IsBody(f: T.Function, trace: seq<Build>) {
    && 0 < |trace| <= |f.insts| && trace[0] == Started()
    && forall k {:trigger Follows(f, trace, k)} :: 0 <= k < |trace| - 1 ==> Follows(f, trace, k)
  }

  ghost predicate Follows(f: T.Function, trace: seq<Build>, k: nat)
    requires k + 1 < |trace| <= |f.insts|
  {
    trace[k + 1] == Lowered(trace[k], f.insts[k])
  }

  ghost function StopEdges(b: Build, v: nat): seq<Edge>
    requires v in b.nodeOf
  {
    [Edge(b.nodeOf[v], Data), Edge(b.s.start, Control), Edge(b.effect, Effect)]
  }

  ghost function Stopped(b: Build, v: nat): Sea
    requires v in b.nodeOf
  {
    b.s.Append(Stop, {IsControl, NoDeopt}, Bottom, 0, StopEdges(b, v)).(stop := |b.s.nodes|)
  }

  /** With the return. */
  ghost function Ended(b: Build, v: nat): Sea { Stopped(Looked(b, v), v) }

  /** The graph of a straight-line function. */
  ghost predicate IsGraphOf(f: T.Function, s: Sea) {
    exists trace :: IsWhole(f, trace, s)
  }

  ghost predicate IsWhole(f: T.Function, trace: seq<Build>, s: Sea) {
    && IsBody(f, trace) && |trace| == |f.insts|
    && s == Ended(trace[|trace| - 1], f.insts[|f.insts| - 1].src1)
  }

  // ----- the graph is well built -----

  lemma LookedBuilds(b: Build, v: nat)
    requires Building(b) && |b.s.nodes| < NO_NODE
    ensures Building(Looked(b, v)) && Usable(Looked(b, v).s, Looked(b, v).nodeOf[v])
    ensures |Looked(b, v).s.nodes| <= |b.s.nodes| + 1 && Looked(b, v).s.edges == b.s.edges
  {
    if v !in b.nodeOf {
      ComputesBuilds(b, ZERO);
      SetBuilds(b.(s := Appended(b.s, ZERO)), v, |b.s.nodes|);
    }
  }

  lemma SetBuilds(b: Build, r: nat, n: nat)
    requires Building(b) && Usable(b.s, n)
    ensures Building(b.(nodeOf := b.nodeOf[r := n]))
  {
  }

  lemma PutBuilds(b: Build, dst: nat, f: NewNode)
    requires Building(b) && Computes(b.s, f) && |b.s.nodes| < NO_NODE
    ensures Building(Put(b, dst, f))
    ensures |Put(b, dst, f).s.nodes| == |b.s.nodes| + 1 && |Put(b, dst, f).s.edges| == |b.s.edges| + |f.inputs|
  {
    ComputesBuilds(b, f);
    SetBuilds(b.(s := Appended(b.s, f)), dst, |b.s.nodes|);
  }

  lemma LoadedBuilds(b: Build, dst: nat, slot: int)
    requires Building(b) && |b.s.nodes| < NO_NODE
    ensures Building(Loaded(b, dst, slot))
    ensures |Loaded(b, dst, slot).s.nodes| == |b.s.nodes| + 1 && |Loaded(b, dst, slot).s.edges| == |b.s.edges| + 2
  {
    LoadBuilds(b, slot);
    SetBuilds(Build(Appended(b.s, LoadNode(b, slot)), b.nodeOf, |b.s.nodes|), dst, |b.s.nodes|);
  }

  lemma UnaryPut(u: Build, i: T.Inst)
    requires Building(u) && i.op in {T.Neg, T.Not} && |u.s.nodes| < NO_NODE && i.src1 in u.nodeOf
    ensures Computes(u.s, UnaryNode(u, i)) && Building(Put(u, i.dst, UnaryNode(u, i)))
    ensures |Put(u, i.dst, UnaryNode(u, i)).s.nodes| == |u.s.nodes| + 1
    ensures |Put(u, i.dst, UnaryNode(u, i)).s.edges| == |u.s.edges| + 1
  {
    NodeForUnary(u.s, i, u.nodeOf[i.src1]);
    PutBuilds(u, i.dst, UnaryNode(u, i));
  }

  lemma LoweredUnary(b: Build, i: T.Inst)
    requires i.op in {T.Neg, T.Not}
    ensures Lowered(b, i) == Put(Looked(b, i.src1), i.dst, UnaryNode(Looked(b, i.src1), i))
  {
  }

  lemma UnaryBuilds(b: Build, i: T.Inst)
    requires Building(b) && i.op in {T.Neg, T.Not} && |b.s.nodes| + 1 < NO_NODE
    ensures Building(Lowered(b, i)) && |Lowered(b, i).s.nodes| <= |b.s.nodes| + 2
    ensures |Lowered(b, i).s.edges| <= |b.s.edges| + 1
  {
    LookedBuilds(b, i.src1);
    UnaryPut(Looked(b, i.src1), i);
    LoweredUnary(b, i);
  }

  /** Both operands looked up. */
  ghost function LookedBoth(b: Build, i: T.Inst): (t: Build)
    ensures i.src1 in t.nodeOf && i.src2 in t.nodeOf
  {
    Looked(Looked(b, i.src1), i.src2)
  }

  lemma LookedBothBuilds(b: Build, i: T.Inst)
    requires Building(b) && |b.s.nodes| + 1 < NO_NODE
    ensures Building(LookedBoth(b, i)) && |LookedBoth(b, i).s.nodes| <= |b.s.nodes| + 2
    ensures LookedBoth(b, i).s.edges == b.s.edges
  {
    LookedBuilds(b, i.src1);
    LookedBuilds(Looked(b, i.src1), i.src2);
  }

  lemma BinaryPut(u: Build, i: T.Inst)
    requires Building(u) && i.op in BINARIES && |u.s.nodes| < NO_NODE && i.src1 in u.nodeOf && i.src2 in u.nodeOf
    ensures Computes(u.s, BinaryNode(u, i)) && Building(Put(u, i.dst, BinaryNode(u, i)))
    ensures |Put(u, i.dst, BinaryNode(u, i)).s.nodes| == |u.s.nodes| + 1
    ensures |Put(u, i.dst, BinaryNode(u, i)).s.edges| == |u.s.edges| + 2
  {
    NodeForBinary(u.s, i, u.nodeOf[i.src1], u.nodeOf[i.src2]);
    PutBuilds(u, i.dst, BinaryNode(u, i));
  }

  lemma LoweredBinary(b: Build, i: T.Inst)
    requires i.op in BINARIES
    ensures Lowered(b, i) == Put(LookedBoth(b, i), i.dst, BinaryNode(LookedBoth(b, i), i))
  {
    BinaryOps(i.op);
  }

  lemma BinaryBuilds(b: Build, i: T.Inst)
    requires Building(b) && i.op in BINARIES && |b.s.nodes| + 2 < NO_NODE
    ensures Building(Lowered(b, i)) && |Lowered(b, i).s.nodes| <= |b.s.nodes| + 3
    ensures |Lowered(b, i).s.edges| <= |b.s.edges| + 2
  {
    LookedBothBuilds(b, i);
    BinaryPut(LookedBoth(b, i), i);
    LoweredBinary(b, i);
  }

  lemma LoweredBuilds(b: Build, i: T.Inst)
    requires Building(b) && i.op in BODY && |b.s.nodes| + 3 < NO_NODE
    ensures Building(Lowered(b, i)) && |Lowered(b, i).s.nodes| <= |b.s.nodes| + 3
    ensures |Lowered(b, i).s.edges| <= |b.s.edges| + 2
  {
    if i.op in {T.LoadConst, T.LoadConstImm} {
      NodeForConst(b.s, i);
      PutBuilds(b, i.dst, NodeFor(i, []));
    } else if i.op == T.LoadLocal {
      LoadedBuilds(b, i.dst, i.payload);
    } else if i.op == T.Mov {
      LookedBuilds(b, i.src1);
      SetBuilds(Looked(b, i.src1), i.dst, Looked(b, i.src1).nodeOf[i.src1]);
    } else if i.op in {T.Neg, T.Not} {
      UnaryBuilds(b, i);
    } else {
      BinaryBuilds(b, i);
    }
  }

  // ----- the registers' nodes have their values -----

  lemma LookedTracks(ext: Ext, b: Build, locals: seq<i64>, regs: map<nat, i64>, v: nat)
    requires Building(b) && |b.s.nodes| < NO_NODE && Tracks(ext, b, locals, regs)
    ensures Building(Looked(b, v)) && Tracks(ext, Looked(b, v), locals, regs)
    ensures v in regs ==> Worth(ext, Looked(b, v).s, locals, Looked(b, v).nodeOf[v], regs[v])
  {
    LookedBuilds(b, v);
    if v !in b.nodeOf {
      TracksAppend(ext, b, ZERO, locals, regs, b.effect);
      TracksOther(ext, b.(s := Appended(b.s, ZERO)), locals, regs, v, |b.s.nodes|);
    }
    if v in regs { assert TracksAt(ext, Looked(b, v), locals, regs, v); }
  }

  /** A fresh node with the value x becomes the node of a register. */
  lemma FreshTracks(ext: Ext, b: Build, f: NewNode, effect: nat, locals: seq<i64>, regs: map<nat, i64>, dst: nat,
      x: i64)
    requires DataWired(b.s) && DataWired(Appended(b.s, f)) && Tracks(ext, b, locals, regs)
    requires Worth(ext, Appended(b.s, f), locals, |b.s.nodes|, x)
    ensures Tracks(ext, Build(Appended(b.s, f), b.nodeOf[dst := |b.s.nodes|], effect), locals, regs[dst := x])
  {
    TracksAppend(ext, b, f, locals, regs, effect);
    TracksSet(ext, Build(Appended(b.s, f), b.nodeOf, effect), locals, regs, dst, |b.s.nodes|, x);
  }

  lemma ConstTracks(ext: Ext, b: Build, i: T.Inst, locals: seq<i64>, regs: map<nat, i64>)
    requires Building(b) && |b.s.nodes| < NO_NODE && Tracks(ext, b, locals, regs)
        && i.op in {T.LoadConst, T.LoadConstImm}
    ensures Building(Lowered(b, i)) && Tracks(ext, Lowered(b, i), locals, regs[i.dst := Wrap(i.payload)])
  {
    var f := NodeFor(i, []);
    NodeForConst(b.s, i);
    PutBuilds(b, i.dst, f);
    WorthConst(ext, b.s, locals, f);
    FreshTracks(ext, b, f, b.effect, locals, regs, i.dst, Wrap(i.payload));
  }

  lemma LoadTracks(ext: Ext, b: Build, i: T.Inst, locals: seq<i64>, regs: map<nat, i64>)
    requires Building(b) && |b.s.nodes| < NO_NODE && Tracks(ext, b, locals, regs)
    requires i.op == T.LoadLocal && 0 <= i.payload < |locals|
    ensures Building(Lowered(b, i)) && Tracks(ext, Lowered(b, i), locals, regs[i.dst := locals[i.payload]])
  {
    LoadedBuilds(b, i.dst, i.payload);
    WorthLoad(ext, b.s, locals, LoadNode(b, i.payload));
    FreshTracks(ext, b, LoadNode(b, i.payload), |b.s.nodes|, locals, regs, i.dst, locals[i.payload]);
  }

  lemma MovTracks(ext: Ext, b: Build, i: T.Inst, locals: seq<i64>, regs: map<nat, i64>)
    requires Building(b) && |b.s.nodes| < NO_NODE && Tracks(ext, b, locals, regs) && i.op == T.Mov && i.src1 in regs
    ensures Building(Lowered(b, i)) && Tracks(ext, Lowered(b, i), locals, regs[i.dst := regs[i.src1]])
  {
    var t := Looked(b, i.src1);
    LookedTracks(ext, b, locals, regs, i.src1);
    LookedBuilds(b, i.src1);
    SetBuilds(t, i.dst, t.nodeOf[i.src1]);
    TracksSet(ext, t, locals, regs, i.dst, t.nodeOf[i.src1], regs[i.src1]);
  }

  lemma UnaryTracks(ext: Ext, b: Build, i: T.Inst, locals: seq<i64>, regs: map<nat, i64>)
    requires Building(b) && |b.s.nodes| + 1 < NO_NODE && Tracks(ext, b, locals, regs)
    requires i.op in {T.Neg, T.Not} && i.src1 in regs
    ensures IsUnary(T.KindOf(i.op)) && Building(Lowered(b, i))
    ensures Tracks(ext, Lowered(b, i), locals, regs[i.dst := Unary(T.KindOf(i.op), regs[i.src1])])
  {
    LookedTracks(ext, b, locals, regs, i.src1);
    LookedBuilds(b, i.src1);
    UnaryPutTracks(ext, Looked(b, i.src1), i, locals, regs);
    LoweredUnary(b, i);
  }

  lemma UnaryPutTracks(ext: Ext, u: Build, i: T.Inst, locals: seq<i64>, regs: map<nat, i64>)
    requires Building(u) && |u.s.nodes| < NO_NODE && Tracks(ext, u, locals, regs)
    requires i.op in {T.Neg, T.Not} && i.src1 in regs && i.src1 in u.nodeOf
    ensures IsUnary(T.KindOf(i.op)) && Building(Put(u, i.dst, UnaryNode(u, i)))
    ensures Tracks(ext, Put(u, i.dst, UnaryNode(u, i)), locals,
        regs[i.dst := Unary(T.KindOf(i.op), regs[i.src1])])
  {
    var f := UnaryNode(u, i);
    assert TracksAt(ext, u, locals, regs, i.src1);
    UnaryPut(u, i);
    NodeForUnary(u.s, i, u.nodeOf[i.src1]);
    WorthUnary(ext, u.s, locals, f, u.nodeOf[i.src1], regs[i.src1]);
    FreshTracks(ext, u, f, u.effect, locals, regs, i.dst, Unary(f.kind, regs[i.src1]));
  }

  lemma BinaryTracks(ext: Ext, b: Build, i: T.Inst, locals: seq<i64>, regs: map<nat, i64>)
    requires Building(b) && |b.s.nodes| + 2 < NO_NODE && Tracks(ext, b, locals, regs)
    requires i.op in BINARIES && i.src1 in regs && i.src2 in regs
    ensures IsBinary(T.KindOf(i.op)) && Building(Lowered(b, i))
    ensures Tracks(ext, Lowered(b, i), locals, regs[i.dst := Binary(T.KindOf(i.op), regs[i.src1], regs[i.src2])])
  {
    LookedBothTracks(ext, b, i, locals, regs);
    LookedBothBuilds(b, i);
    BinaryPutTracks(ext, LookedBoth(b, i), i, locals, regs);
    LoweredBinary(b, i);
  }

  lemma LookedBothTracks(ext: Ext, b: Build, i: T.Inst, locals: seq<i64>, regs: map<nat, i64>)
    requires Building(b) && |b.s.nodes| + 1 < NO_NODE && Tracks(ext, b, locals, regs)
    ensures Building(LookedBoth(b, i)) && Tracks(ext, LookedBoth(b, i), locals, regs)
  {
    LookedTracks(ext, b, locals, regs, i.src1);
    LookedBuilds(b, i.src1);
    LookedTracks(ext, Looked(b, i.src1), locals, regs, i.src2);
  }

  lemma BinaryPutTracks(ext: Ext, u: Build, i: T.Inst, locals: seq<i64>, regs: map<nat, i64>)
    requires Building(u) && |u.s.nodes| < NO_NODE && Tracks(ext, u, locals, regs)
    requires i.op in BINARIES && i.src1 in regs && i.src2 in regs && i.src1 in u.nodeOf && i.src2 in u.nodeOf
    ensures IsBinary(T.KindOf(i.op)) && Building(Put(u, i.dst, BinaryNode(u, i)))
    ensures Tracks(ext, Put(u, i.dst, BinaryNode(u, i)), locals,
        regs[i.dst := Binary(T.KindOf(i.op), regs[i.src1], regs[i.src2])])
  {
    var x, y, f := u.nodeOf[i.src1], u.nodeOf[i.src2], BinaryNode(u, i);
    BothTracked(ext, u, locals, regs, i.src1, i.src2);
    BinaryPut(u, i);
    NodeForBinary(u.s, i, x, y);
    WorthBinary(ext, u.s, locals, f, x, y, regs[i.src1], regs[i.src2]);
    FreshTracks(ext, u, f, u.effect, locals, regs, i.dst, Binary(f.kind, regs[i.src1], regs[i.src2]));
  }

  lemma BothTracked(ext: Ext, b: Build, locals: seq<i64>, regs: map<nat, i64>, v: nat, w: nat)
    requires Building(b) && Tracks(ext, b, locals, regs) && v in regs && w in regs
    ensures v in b.nodeOf && Worth(ext, b.s, locals, b.nodeOf[v], regs[v])
    ensures w in b.nodeOf && Worth(ext, b.s, locals, b.nodeOf[w], regs[w])
  {
    assert TracksAt(ext, b, locals, regs, v) && TracksAt(ext, b, locals, regs, w);
  }

  lemma BinaryOps(op: T.Op)
    requires op in BINARIES
    ensures T.IsBinaryOp(op) && !T.IsUnaryOp(op) && IsBinary(T.KindOf(op))
        && op !in {T.LoadConst, T.LoadConstImm, T.Mov, T.LoadLocal}
    ensures T.Reads1(op) && T.Reads2(op)
  {
  }

  lemma AdvancedBinary(ext: Ext, i: T.Inst, locals: seq<i64>, regs: map<nat, i64>)
    requires i.op in BINARIES && Executable(i, locals, regs)
    ensures i.src1 in regs && i.src2 in regs && IsBinary(T.KindOf(i.op))
    ensures Advanced(T.Meaning(ext), i, locals, regs)
        == regs[i.dst := Binary(T.KindOf(i.op), regs[i.src1], regs[i.src2])]
  {
    BinaryOps(i.op);
    var x, y := regs[i.src1], regs[i.src2];
    assert T.Result(ext, i, x, y) == NodeValue(ext, T.KindOf(i.op), 0, [x, y]) == Binary(T.KindOf(i.op), x, y);
  }

  lemma AdvancedUnary(ext: Ext, i: T.Inst, locals: seq<i64>, regs: map<nat, i64>)
    requires i.op in {T.Neg, T.Not} && Executable(i, locals, regs)
    ensures i.src1 in regs && IsUnary(T.KindOf(i.op))
    ensures Advanced(T.Meaning(ext), i, locals, regs) == regs[i.dst := Unary(T.KindOf(i.op), regs[i.src1])]
  {
  }

  lemma AdvancedPlain(ext: Ext, i: T.Inst, locals: seq<i64>, regs: map<nat, i64>)
    requires i.op in {T.LoadConst, T.LoadConstImm, T.LoadLocal, T.Mov} && Executable(i, locals, regs)
    ensures i.op in {T.LoadConst, T.LoadConstImm} ==>
      Advanced(T.Meaning(ext), i, locals, regs) == regs[i.dst := Wrap(i.payload)]
    ensures i.op == T.LoadLocal ==> Advanced(T.Meaning(ext), i, locals, regs) == regs[i.dst := locals[i.payload]]
    ensures i.op == T.Mov ==>
      i.src1 in regs && Advanced(T.Meaning(ext), i, locals, regs) == regs[i.dst := regs[i.src1]]
  {
  }

  /** After each instruction the registers' nodes have the registers' values. */
  lemma LoweredTracks(ext: Ext, b: Build, i: T.Inst, locals: seq<i64>, regs: map<nat, i64>)
    requires Building(b) && |b.s.nodes| + 3 < NO_NODE && Tracks(ext, b, locals, regs)
    requires i.op in BODY && Executable(i, locals, regs)
    ensures Building(Lowered(b, i)) && Tracks(ext, Lowered(b, i), locals, Advanced(T.Meaning(ext), i, locals, regs))
  {
    if i.op in {T.Neg, T.Not} {
      AdvancedUnary(ext, i, locals, regs);
      UnaryTracks(ext, b, i, locals, regs);
    } else if i.op in BINARIES {
      AdvancedBinary(ext, i, locals, regs);
      BinaryTracks(ext, b, i, locals, regs);
    } else {
      AdvancedPlain(ext, i, locals, regs);
      PlainTracks(ext, b, i, locals, regs);
    }
  }

  lemma PlainTracks(ext: Ext, b: Build, i: T.Inst, locals: seq<i64>, regs: map<nat, i64>)
    requires Building(b) && |b.s.nodes| < NO_NODE && Tracks(ext, b, locals, regs)
    requires i.op in {T.LoadConst, T.LoadConstImm, T.LoadLocal, T.Mov} && Executable(i, locals, regs)
    ensures Building(Lowered(b, i)) && Tracks(ext, Lowered(b, i), locals, Advanced(T.Meaning(ext), i, locals, regs))
  {
    AdvancedPlain(ext, i, locals, regs);
    if i.op == T.Mov {
      MovTracks(ext, b, i, locals, regs);
    } else if i.op == T.LoadLocal {
      LoadTracks(ext, b, i, locals, regs);
    } else {
      ConstTracks(ext, b, i, locals, regs);
    }
  }

  // ----- a whole function -----

  /** Small enough that no 16-bit use counter can wrap around, whatever the pipeline makes of the graph. */
  predicate Room(f: T.Function) { 14 * |f.insts| + 8 < COUNT_MOD }

  lemma StartBuilds()
    ensures Building(Started())
  {
    var s := Started().s;
    forall n | 0 <= n < |s.nodes| ensures TameAt(s, n) {}
  }

  /** What is known of the graph after k instructions. */
  ghost predicate Built(b: Build, k: nat) {
    Building(b) && |b.s.nodes| <= 3 * k + 2 && |b.s.edges| <= 2 * k
  }

  lemma BuiltNext(b: Build, i: T.Inst, k: nat)
    requires Built(b, k) && i.op in BODY && 3 * k + 5 < NO_NODE
    ensures Built(Lowered(b, i), k + 1)
  {
    LoweredBuilds(b, i);
  }

  lemma {:induction false} BodyBuilds(f: T.Function, trace: seq<Build>, k: nat)
    requires IsStraightLine(f) && Room(f) && IsBody(f, trace) && k < |trace|
    ensures Built(trace[k], k)
  {
    if k == 0 {
      StartBuilds();
    } else {
      BodyBuilds(f, trace, k - 1);
      assert Follows(f, trace, k - 1);
      BuiltNext(trace[k - 1], f.insts[k - 1], k - 1);
    }
  }

  lemma {:induction false} BodyTracks(ext: Ext, f: T.Function, trace: seq<Build>, locals: seq<i64>, k: nat)
    requires IsStraightLine(f) && Room(f) && IsBody(f, trace) && k < |trace| && AllDefined(T.Meaning(ext), f, locals)
    ensures Building(trace[k]) && Tracks(ext, trace[k], locals, RegsAt(T.Meaning(ext), f, locals, k))
  {
    if k == 0 {
      StartBuilds();
    } else {
      BodyBuilds(f, trace, k - 1);
      BodyTracks(ext, f, trace, locals, k - 1);
      assert Follows(f, trace, k - 1);
      RegsNext(T.Meaning(ext), f, locals, k - 1);
      LoweredTracks(ext, trace[k - 1], f.insts[k - 1], locals, RegsAt(T.Meaning(ext), f, locals, k - 1));
    }
  }

  lemma RegsNext(alu: T.Alu, f: T.Function, locals: seq<i64>, k: nat)
    requires k < |f.insts| && AllDefined(alu, f, locals)
    ensures Executable(f.insts[k], locals, RegsAt(alu, f, locals, k))
    ensures RegsAt(alu, f, locals, k + 1) == Advanced(alu, f.insts[k], locals, RegsAt(alu, f, locals, k))
  {
    assert DefinedAt(alu, f, locals, k);
  }

  lemma LastDefined(alu: T.Alu, f: T.Function, locals: seq<i64>)
    requires IsStraightLine(f) && AllDefined(alu, f, locals)
    ensures var regs, v := RegsAt(alu, f, locals, |f.insts| - 1), f.insts[|f.insts| - 1].src1;
      v in regs && ReturnValue(alu, f, locals) == regs[v]
  {
    assert DefinedAt(alu, f, locals, |f.insts| - 1);
  }

  /** The value that reaches Stop. */
  ghost predicate GraphReturns(ext: Ext, s: Sea, locals: seq<i64>, x: i64) {
    && DataWired(s) && s.HasSlice(s.stop) && |s.Inputs(s.stop)| > 0 && s.Inputs(s.stop)[0].kind == Data
    && Worth(ext, s, locals, s.Inputs(s.stop)[0].target, x)
  }

  lemma StopTameAt(b: Build, v: nat, n: nat)
    requires Building(b) && v in b.nodeOf && n < |b.s.nodes| < NO_NODE
    ensures Stopped(b, v).HasSlice(n) && TameAt(Stopped(b, v), n)
  {
    AppendInputs(b.s, Stop, {IsControl, NoDeopt}, Bottom, 0, StopEdges(b, v), n);
    OldTame(b.s, Stopped(b, v), n);
  }

  lemma LastTame(b: Build, v: nat)
    requires Building(b) && v in b.nodeOf && |b.s.nodes| < NO_NODE
    ensures Stopped(b, v).HasSlice(|b.s.nodes|) && TameAt(Stopped(b, v), |b.s.nodes|)
  {
    AppendInputs(b.s, Stop, {IsControl, NoDeopt}, Bottom, 0, StopEdges(b, v), |b.s.nodes|);
    assert Stopped(b, v).Inputs(|b.s.nodes|) == StopEdges(b, v);
    assert TameAt(b.s, 0);
  }

  lemma OldTame(s: Sea, t: Sea, n: nat)
    requires s.WellFormed() && Tame(s) && s.stop == NO_NODE && |s.nodes| < NO_NODE && n < |s.nodes|
    requires s.nodes <= t.nodes && t.start == s.start && t.HasSlice(n) && t.Inputs(n) == s.Inputs(n)
    ensures TameAt(t, n)
  {
    assert TameAt(s, n);
  }

  lemma StopTame(b: Build, v: nat)
    requires Building(b) && v in b.nodeOf && DataWired(Stopped(b, v)) && |b.s.nodes| < NO_NODE
    ensures Tame(Stopped(b, v))
  {
    assert TameAt(b.s, 0);
    LastTame(b, v);
    forall n | 0 <= n < |b.s.nodes| ensures TameAt(Stopped(b, v), n) { StopTameAt(b, v, n); }
  }

  lemma StopBuilds(b: Build, v: nat)
    requires Building(b) && v in b.nodeOf && |b.s.nodes| < NO_NODE
    ensures Sane(Stopped(b, v), Ident(|b.s.nodes| + 1)) && Tame(Stopped(b, v))
    ensures Stopped(b, v).HasSlice(|b.s.nodes|) && Stopped(b, v).Inputs(|b.s.nodes|) == StopEdges(b, v)
  {
    var es := StopEdges(b, v);
    var u := b.s.Append(Stop, {IsControl, NoDeopt}, Bottom, 0, es);
    var t := Stopped(b, v);
    AppendSane(b.s, Ident(|b.s.nodes|), Stop, {IsControl, NoDeopt}, Bottom, 0, es, |b.s.nodes|);
    IdentMore(|b.s.nodes|);
    forall n | 0 <= n < |t.nodes| ensures t.HasSlice(n) && t.Inputs(n) == u.Inputs(n) {}
    AppendInputs(b.s, Stop, {IsControl, NoDeopt}, Bottom, 0, es, |b.s.nodes|);
    StopSane(u, t, Ident(|b.s.nodes| + 1));
    StopTame(b, v);
  }

  lemma StopSane(u: Sea, t: Sea, rank: seq<nat>)
    requires Sane(u, rank) && t == u.(stop := t.stop) && forall n :: 0 <= n < |t.nodes| ==>
        t.HasSlice(n) && t.Inputs(n) == u.Inputs(n)
    ensures Sane(t, rank)
  {
    forall e | 0 <= e < |t.edges|
      ensures InGraph(t.edges[e].target, |t.nodes|)
    {
      assert InGraph(u.edges[e].target, |u.nodes|);
    }
    forall n | 0 <= n < |t.nodes| && IsValueKind(t.nodes[n].kind) ensures Above(t.Inputs(n), rank, rank[n]) {
      assert Above(u.Inputs(n), rank, rank[n]);
    }
    forall n | 0 <= n < |t.nodes| && t.Live(n) ensures InputsAlive(t, n) { assert InputsAlive(u, n); }
  }

  /** Stop has no value itself. */
  lemma StopReturns(ext: Ext, b: Build, v: nat, locals: seq<i64>, x: i64)
    requires DataWired(b.s) && v in b.nodeOf && DataWired(Stopped(b, v)) && Worth(ext, b.s, locals, b.nodeOf[v], x)
    requires Stopped(b, v).HasSlice(|b.s.nodes|) && Stopped(b, v).Inputs(|b.s.nodes|) == StopEdges(b, v)
    ensures GraphReturns(ext, Stopped(b, v), locals, x)
  {
    var s, t := b.s, Stopped(b, v);
    forall w | Models(ext, t, w) && Reads(t, locals, w) ensures b.nodeOf[v] < |w| && w[b.nodeOf[v]] == x {
      StopPrefix(ext, s, t, w);
      forall n | 0 <= n < |s.nodes| ensures LoadReads(s, locals, w[..|s.nodes|], n) {
        assert LoadReads(t, locals, w, n);
      }
    }
  }

  lemma StopPrefix(ext: Ext, s: Sea, t: Sea, w: seq<i64>)
    requires DataWired(s) && DataWired(t) && |s.nodes| <= |t.nodes| && s.nodes <= t.nodes && s.edges <= t.edges
    requires Models(ext, t, w)
    ensures |s.nodes| <= |w| && Models(ext, s, w[..|s.nodes|])
  {
    forall n | 0 <= n < |s.nodes| ensures ValueOk(ext, s, w[..|s.nodes|], n) {
      assert ValueOk(ext, t, w, n) && s.Inputs(n) == t.Inputs(n);
      InputsWired(s, n);
      InputsWired(t, n);
      ArgsCongruent(s.Inputs(n), t.Inputs(n), w[..|s.nodes|], w);
    }
  }

  lemma EndedBuilds(b: Build, k: nat, v: nat, s: Sea)
    requires Built(b, k) && 3 * k + 3 < NO_NODE && s == Ended(b, v)
    ensures Sane(s, Ident(|s.nodes|)) && Tame(s) && s.stop < |s.nodes| && s.nodes[s.stop].kind == Stop
    ensures |s.nodes| <= 3 * k + 4 && |s.edges| <= 2 * k + 3
  {
    LookedBuilds(b, v);
    StopBuilds(Looked(b, v), v);
  }

  lemma EndedReturns(ext: Ext, b: Build, locals: seq<i64>, regs: map<nat, i64>, v: nat, s: Sea, x: i64)
    requires Building(b) && |b.s.nodes| + 1 < NO_NODE && Tracks(ext, b, locals, regs) && s == Ended(b, v)
    requires v in regs && regs[v] == x
    ensures GraphReturns(ext, s, locals, x)
  {
    LookedTracks(ext, b, locals, regs, v);
    LookedBuilds(b, v);
    StopBuilds(Looked(b, v), v);
    StopReturns(ext, Looked(b, v), v, locals, regs[v]);
  }

  /** The graph is acyclic, with its nodes in topological order. */
  lemma GraphBuilt(f: T.Function, s: Sea)
    requires IsStraightLine(f) && Room(f) && IsGraphOf(f, s)
    ensures Sane(s, Ident(|s.nodes|)) && Tame(s) && s.stop < |s.nodes| && s.nodes[s.stop].kind == Stop
    ensures |s.nodes| <= 3 * |f.insts| + 1 && |s.edges| <= 2 * |f.insts| + 1
  {
    var trace :| IsWhole(f, trace, s);
    var last := |f.insts| - 1;
    LastBuilt(f, trace);
    EndedBuilds(trace[last], last, f.insts[last].src1, s);
  }

  lemma LastBuilt(f: T.Function, trace: seq<Build>)
    requires IsStraightLine(f) && Room(f) && IsBody(f, trace) && |trace| == |f.insts|
    ensures Built(trace[|trace| - 1], |f.insts| - 1) && 3 * |f.insts| < NO_NODE
  {
    BodyBuilds(f, trace, |trace| - 1);
  }

  lemma LastTracks(ext: Ext, f: T.Function, trace: seq<Build>, locals: seq<i64>)
    requires IsStraightLine(f) && Room(f) && IsBody(f, trace) && |trace| == |f.insts|
        && AllDefined(T.Meaning(ext), f, locals)
    ensures var b := trace[|trace| - 1];
      Building(b) && |b.s.nodes| + 1 < NO_NODE
      && Tracks(ext, b, locals, RegsAt(T.Meaning(ext), f, locals, |f.insts| - 1))
  {
    BodyBuilds(f, trace, |trace| - 1);
    BodyTracks(ext, f, trace, locals, |trace| - 1);
  }

  /** If the function reads only what is there, its return value reaches Stop, whatever the locals. */
  lemma GraphReturnsIt(ext: Ext, f: T.Function, s: Sea, locals: seq<i64>)
    requires IsStraightLine(f) && Room(f) && IsGraphOf(f, s) && AllDefined(T.Meaning(ext), f, locals)
    ensures GraphReturns(ext, s, locals, ReturnValue(T.Meaning(ext), f, locals))
  {
    var trace :| IsWhole(f, trace, s);
    var last := |f.insts| - 1;
    LastTracks(ext, f, trace, locals);
    LastDefined(T.Meaning(ext), f, locals);
    EndedReturns(ext, trace[last], locals, RegsAt(T.Meaning(ext), f, locals, last), f.insts[last].src1, s,
        ReturnValue(T.Meaning(ext), f, locals));
  }

  // ----- which nodes there are -----

  /** Made for the instruction. */
  predicate NodeOf(n: Node, i: T.Inst) {
    if i.op == T.LoadLocal then n.kind == LoadLocal && n.payload == i.payload else n.kind == T.KindOf(i.op)
  }

  ghost predicate MadeFor(f: T.Function, n: Node) {
    n.kind in {Start, Stop, ConstInt} || exists j :: 0 <= j < |f.insts| - 1 && NodeOf(n, f.insts[j])
  }

  ghost predicate AllMade(f: T.Function, s: Sea) {
    forall n {:trigger MadeFor(f, s.nodes[n])} :: 0 <= n < |s.nodes| ==> MadeFor(f, s.nodes[n])
  }

  /** A node of the larger graph is an old one, a constant, or made for the instruction. */
  ghost predicate Adds(s: Sea, t: Sea, i: T.Inst) {
    && s.nodes <= t.nodes
    && forall n :: |s.nodes| <= n < |t.nodes| ==> t.nodes[n].kind == ConstInt || NodeOf(t.nodes[n], i)
  }

  lemma LookedAdds(b: Build, v: nat, i: T.Inst)
    ensures Adds(b.s, Looked(b, v).s, i)
  {
  }

  lemma PutAdds(b: Build, c: Build, dst: nat, f: NewNode, i: T.Inst)
    requires Adds(b.s, c.s, i) && i.op != T.LoadLocal && f.kind in {ConstInt, T.KindOf(i.op)}
    ensures Adds(b.s, Put(c, dst, f).s, i)
  {
  }

  lemma LookedBothAdds(b: Build, i: T.Inst)
    ensures Adds(b.s, LookedBoth(b, i).s, i)
  {
    LookedAdds(b, i.src1, i);
    LookedAdds(Looked(b, i.src1), i.src2, i);
  }

  lemma LoweredAdds(b: Build, i: T.Inst)
    requires i.op in BODY
    ensures Adds(b.s, Lowered(b, i).s, i)
  {
    if i.op in BINARIES {
      LookedBothAdds(b, i);
      PutAdds(b, LookedBoth(b, i), i.dst, BinaryNode(LookedBoth(b, i), i), i);
      LoweredBinary(b, i);
    } else if i.op in {T.Neg, T.Not} {
      LookedAdds(b, i.src1, i);
      PutAdds(b, Looked(b, i.src1), i.dst, UnaryNode(Looked(b, i.src1), i), i);
      LoweredUnary(b, i);
    } else if i.op == T.Mov {
      LookedAdds(b, i.src1, i);
    }
  }

  lemma AddsMade(f: T.Function, s: Sea, t: Sea, j: nat)
    requires AllMade(f, s) && j < |f.insts| - 1 && Adds(s, t, f.insts[j])
    ensures AllMade(f, t)
  {
    forall n | 0 <= n < |t.nodes| ensures MadeFor(f, t.nodes[n]) {
      if n < |s.nodes| { assert MadeFor(f, s.nodes[n]); }
    }
  }

  lemma StepMade(f: T.Function, b: Build, t: Build, j: nat)
    requires AllMade(f, b.s) && j < |f.insts| - 1 && f.insts[j].op in BODY && t == Lowered(b, f.insts[j])
    ensures AllMade(f, t.s)
  {
    LoweredAdds(b, f.insts[j]);
    AddsMade(f, b.s, t.s, j);
  }

  lemma BodyOp(f: T.Function, j: nat)
    requires IsStraightLine(f) && j < |f.insts| - 1
    ensures f.insts[j].op in BODY
  {
  }

  lemma TraceFollows(f: T.Function, trace: seq<Build>, k: nat)
    requires IsBody(f, trace) && k + 1 < |trace|
    ensures trace[k + 1] == Lowered(trace[k], f.insts[k])
  {
    assert Follows(f, trace, k);
  }

  lemma NextMade(f: T.Function, trace: seq<Build>, k: nat)
    requires IsStraightLine(f) && IsBody(f, trace) && k + 1 < |trace| && AllMade(f, trace[k].s)
    ensures AllMade(f, trace[k + 1].s)
  {
    BodyOp(f, k);
    TraceFollows(f, trace, k);
    StepMade(f, trace[k], trace[k + 1], k);
  }

  lemma StartMade(f: T.Function)
    ensures AllMade(f, Started().s)
  {
    forall n | 0 <= n < |Started().s.nodes| ensures MadeFor(f, Started().s.nodes[n]) {}
  }

  lemma {:induction false} BodyMade(f: T.Function, trace: seq<Build>, k: nat)
    requires IsStraightLine(f) && IsBody(f, trace) && k < |trace|
    ensures AllMade(f, trace[k].s)
  {
    if k == 0 {
      StartMade(f);
    } else {
      BodyMade(f, trace, k - 1);
      NextMade(f, trace, k - 1);
    }
  }

  lemma EndedMade(f: T.Function, b: Build, v: nat)
    requires AllMade(f, b.s)
    ensures AllMade(f, Ended(b, v))
  {
    forall n | 0 <= n < |Ended(b, v).nodes| ensures MadeFor(f, Ended(b, v).nodes[n]) {
      if n < |b.s.nodes| { assert MadeFor(f, b.s.nodes[n]); }
    }
  }

  /** Every node is Start, Stop, a constant, or made for an instruction. */
  lemma GraphMade(f: T.Function, s: Sea)
    requires IsStraightLine(f) && IsGraphOf(f, s)
    ensures AllMade(f, s)
  {
    var trace :| IsWhole(f, trace, s);
    BodyMade(f, trace, |trace| - 1);
    EndedMade(f, trace[|trace| - 1], f.insts[|f.insts| - 1].src1);
  }

  lemma {:induction false} SameBody(f: T.Function, a: seq<Build>, b: seq<Build>, k: nat)
    requires IsBody(f, a) && IsBody(f, b) && k < |a| && k < |b|
    ensures a[k] == b[k]
  {
    if k > 0 {
      SameBody(f, a, b, k - 1);
      TraceFollows(f, a, k - 1);
      TraceFollows(f, b, k - 1);
    }
  }

  /** A function has one graph. */
  lemma GraphOnce(f: T.Function, s: Sea, t: Sea)
    requires IsGraphOf(f, s) && IsGraphOf(f, t)
    ensures s == t
  {
    var a, b :| IsWhole(f, a, s) && IsWhole(f, b, t);
    SameBody(f, a, b, |f.insts| - 1);
  }

  lemma LoadsOnly(i: T.Inst)
    requires i.op in BODY && i.op != T.LoadLocal
    ensures T.KindOf(i.op) != LoadLocal
  {
  }

  /** A function that reads only locals that are there becomes a graph that does. */
  lemma GraphInRange(alu: T.Alu, f: T.Function, s: Sea, locals: seq<i64>)
    requires IsStraightLine(f) && IsGraphOf(f, s) && AllDefined(alu, f, locals)
    ensures InRange(s, locals)
  {
    GraphMade(f, s);
    forall n | 0 <= n < |s.nodes| && s.nodes[n].kind == LoadLocal ensures 0 <= s.nodes[n].payload < |locals| {
      assert MadeFor(f, s.nodes[n]);
      var j :| 0 <= j < |f.insts| - 1 && NodeOf(s.nodes[n], f.insts[j]);
      if f.insts[j].op != T.LoadLocal { LoadsOnly(f.insts[j]); }
      assert DefinedAt(alu, f, locals, j);
    }
  }

  /** A function that reads no locals becomes a graph without loads. */
  lemma GraphWithoutLoads(f: T.Function, s: Sea)
    requires IsStraightLine(f) && IsGraphOf(f, s) && forall j :: 0 <= j < |f.insts| ==> f.insts[j].op != T.LoadLocal
    ensures forall n :: 0 <= n < |s.nodes| ==> s.nodes[n].kind != LoadLocal
  {
    GraphMade(f, s);
    forall n | 0 <= n < |s.nodes| ensures s.nodes[n].kind != LoadLocal {
      assert MadeFor(f, s.nodes[n]);
      if j :| 0 <= j < |f.insts| - 1 && NodeOf(s.nodes[n], f.insts[j]) { LoadsOnly(f.insts[j]); }
    }
  }

  /** No products and negations. */
  predicate IsPlainFunction(f: T.Function) { forall j :: 0 <= j < |f.insts| ==> f.insts[j].op !in {T.Mul, T.Not} }

  lemma PlainKind(op: T.Op)
    requires op in BODY && op !in {T.Mul, T.Not, T.LoadLocal}
    ensures T.KindOf(op) !in {Not, Mul, Div}
  {
  }

  lemma GraphPlain(f: T.Function, s: Sea)
    requires IsStraightLine(f) && IsGraphOf(f, s) && IsPlainFunction(f)
    ensures IsPlain(s)
  {
    GraphMade(f, s);
    forall n | 0 <= n < |s.nodes| ensures s.nodes[n].kind !in {Not, Mul, Div} {
      assert MadeFor(f, s.nodes[n]);
      if j :| 0 <= j < |f.insts| - 1 && NodeOf(s.nodes[n], f.insts[j]) {
        if f.insts[j].op != T.LoadLocal { PlainKind(f.insts[j].op); }
      }
    }
  }

  /** The graph of such a function has operands before their users. */
  lemma GraphCalm(f: T.Function, s: Sea)
    requires IsStraightLine(f) && Room(f) && IsGraphOf(f, s) && IsPlainFunction(f)
    ensures IsCalm(s)
  {
    GraphBuilt(f, s);
    GraphPlain(f, s);
    forall n | 0 <= n < |s.nodes| ensures AscendsAt(s, n) {
      if IsValueKind(s.nodes[n].kind) { assert Above(s.Inputs(n), Ident(|s.nodes|), Ident(|s.nodes|)[n]); }
    }
  }

  lemma BodyGrows(f: T.Function, trace: seq<Build>, t: Build)
    requires IsBody(f, trace) && |trace| < |f.insts| && t == Lowered(trace[|trace| - 1], f.insts[|trace| - 1])
    ensures IsBody(f, trace + [t])
  {
    var longer := trace + [t];
    forall k | 0 <= k < |longer| - 1 ensures Follows(f, longer, k) {
      if k < |trace| - 1 { assert Follows(f, trace, k); }
    }
  }
}
