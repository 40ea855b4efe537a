/** Raising one node at a time: the instruction for a node, the register it gets, and what the code so far computes. */
module Emission {
  import opened SeaOfNodes
  import opened UsePool
  import opened Int64
  import opened Valuation
  import opened Rewrites
  import opened PassCore
  import opened GraphBuilding
  import opened StraightLine
  import T = Tier1

  predicate IsBlockHeader(k: NodeKind) { k in {Start, Region, IfTrue, IfFalse, Loop, LoopExit} }

  /** The live pure nodes other than block headers and Stop. */
  predicate IsPure(s: Sea, n: nat) {
    0 < n && s.Live(n) && !IsBlockHeader(s.nodes[n].kind) && s.nodes[n].kind != Stop && Pure in s.nodes[n].flags
  }

  predicate IsLoad(s: Sea, n: nat) { n < |s.nodes| && s.nodes[n].kind == LoadLocal }

  /** Pure nodes compute, from as many operands as they need. */
  ghost predicate PureComputes(s: Sea) {
    DataWired(s) && forall n {:trigger IsPure(s, n)} :: 0 <= n < |s.nodes| && IsPure(s, n) ==> ComputesAt(s, n)
  }

  predicate ComputesAt(s: Sea, n: nat)
    requires s.HasSlice(n)
  {
    TameNode(s.nodes[n].kind, s.nodes[n].flags, s.Inputs(n)) && |DataOf(s, n)| == Arity(s.nodes[n].kind)
  }

  lemma TameComputes(s: Sea)
    requires DataWired(s) && Tame(s)
    ensures PureComputes(s)
  {
    forall n | 0 <= n < |s.nodes| && IsPure(s, n) ensures ComputesAt(s, n) {
      assert TameAt(s, n);
      AllData(s.Inputs(n));
    }
  }

  lemma LoadData(s: Sea, n: nat)
    requires DataWired(s) && Tame(s) && IsLoad(s, n)
    ensures s.HasSlice(n) && DataOf(s, n) == [] && s.Live(n)
  {
    assert TameAt(s, n);
    var es := s.Inputs(n);
    assert es[1..][1..] == [] && OfKind(es[1..], Data) == [];
  }

  // ----- the instruction for a node -----

  function OpFor(k: NodeKind): T.Op {
    match k
    case Add => T.Add
    case Mul => T.Mul
    case Neg => T.Neg
    case Eq => T.Eq
    case Ne => T.Ne
    case And => T.And
    case Or => T.Or
    case Not => T.Not
    case Shl => T.Shl
    case Shr => T.Shr
    case LoadLocal => T.LoadLocal
    case _ => T.LoadConstImm
  }

  function SrcOf(data: seq<nat>, vregOf: map<nat, nat>, j: nat): nat {
    if j < |data| && data[j] in vregOf then vregOf[data[j]] else 0
  }

  function InstFor(s: Sea, n: nat, vregOf: map<nat, nat>, dst: nat): T.Inst
    requires s.HasSlice(n)
  {
    var data := DataOf(s, n);
    T.Inst(OpFor(s.nodes[n].kind), dst, SrcOf(data, vregOf, 0), SrcOf(data, vregOf, 1), PayloadOf(s.nodes[n]))
  }

  function PayloadOf(n: Node): int { if n.kind in {ConstInt, LoadLocal} then n.payload else 0 }

  lemma KindRoundTrip(k: NodeKind)
    requires k in FRAGMENT && IsValueKind(k)
    ensures T.KindOf(OpFor(k)) == k && OpFor(k) in BODY && OpFor(k) !in {T.Mov, T.LoadLocal}
    ensures T.Reads1(OpFor(k)) <==> Arity(k) >= 1
    ensures T.Reads2(OpFor(k)) <==> Arity(k) == 2
    ensures k == ConstInt <==> OpFor(k) == T.LoadConstImm
  {
  }

  /** The nodes emitted so far have registers that hold their values; larger registers are free. */
  ghost predicate AllHold(v: seq<i64>, vregs: nat, vregOf: map<nat, nat>, regs: map<nat, i64>) {
    && (forall r :: r in regs ==> r <= vregs)
    && forall n {:trigger Holds(v, vregOf, regs, n)} :: n in vregOf ==> Holds(v, vregOf, regs, n)
  }

  ghost predicate Holds(v: seq<i64>, vregOf: map<nat, nat>, regs: map<nat, i64>, n: nat)
    requires n in vregOf
  {
    n < |v| && vregOf[n] in regs && regs[vregOf[n]] == v[n]
  }

  lemma HoldsMore(v: seq<i64>, vregOf: map<nat, nat>, regs: map<nat, i64>, vregs: nat, n: nat, x: i64)
    requires n < |v| && v[n] == x && AllHold(v, vregs, vregOf, regs)
    ensures AllHold(v, vregs + 1, vregOf[n := vregs + 1], regs[vregs + 1 := x])
  {
    var more, after := vregOf[n := vregs + 1], regs[vregs + 1 := x];
    forall m {:trigger Holds(v, more, after, m)} | m in more ensures Holds(v, more, after, m) {
      if m != n { assert Holds(v, vregOf, regs, m); }
    }
  }

  /** The instruction can be executed and computes the node's value. */
  ghost predicate Fits(ext: Ext, i: T.Inst, locals: seq<i64>, regs: map<nat, i64>, dst: nat, x: i64) {
    && i.op in BODY && Executable(i, locals, regs)
    && Computed(T.Meaning(ext), i, locals, regs) == regs[dst := x]
  }

  /** The instruction emitted for a computing node computes the node's value. */
  lemma InstComputes(ext: Ext, s: Sea, v: seq<i64>, n: nat, vregOf: map<nat, nat>, locals: seq<i64>,
      regs: map<nat, i64>, dst: nat)
    requires DataWired(s) && Models(ext, s, v) && n < |s.nodes| && ComputesAt(s, n)
    requires forall j :: 0 <= j < |DataOf(s, n)| ==>
        DataOf(s, n)[j] in vregOf
        && Holds(v, vregOf, regs, DataOf(s, n)[j])
    ensures n < |v| && Fits(ext, InstFor(s, n, vregOf, dst), locals, regs, dst, v[n])
  {
    var k := s.nodes[n].kind;
    KindRoundTrip(k);
    if k == ConstInt {
      ConstValue(ext, s, v, n);
    } else if Arity(k) == 2 {
      BinaryValue(ext, s, v, n);
    } else {
      UnaryValue(ext, s, v, n);
    }
  }

  lemma InstLoads(ext: Ext, s: Sea, v: seq<i64>, n: nat, vregOf: map<nat, nat>, locals: seq<i64>,
      regs: map<nat, i64>, dst: nat)
    requires s.HasSlice(n) && IsLoad(s, n) && Reads(s, locals, v) && InRange(s, locals)
    ensures n < |v| && Fits(ext, InstFor(s, n, vregOf, dst), locals, regs, dst, v[n])
  {
    assert LoadReads(s, locals, v, n);
  }

  // ----- emitting -----

  /** The code so far, the registers handed out, and the nodes' registers. */
  datatype Raised = Raised(code: seq<T.Inst>, vregs: nat, vregOf: map<nat, nat>)

  const NOTHING: Raised := Raised([], 0, map[])

  /** A node without a register gets one that holds a synthesized zero. */
  function WithVreg(st: Raised, n: nat): Raised {
    if n in st.vregOf then st
    else Raised(st.code + [T.Inst(T.LoadConstImm, st.vregs + 1, 0, 0, 0)], st.vregs + 1, st.vregOf[n := st.vregs + 1])
  }

  function WithVregs(st: Raised, data: seq<nat>): Raised {
    if |data| == 0 then st else WithVreg(WithVregs(st, data[..|data| - 1]), data[|data| - 1])
  }

  lemma WithVregsSteps(st: Raised, data: seq<nat>)
    ensures |data| == 0 ==> WithVregs(st, data) == st
    ensures |data| == 1 ==> WithVregs(st, data) == WithVreg(st, data[0])
    ensures |data| == 2 ==> WithVregs(st, data) == WithVreg(WithVreg(st, data[0]), data[1])
  {
    if |data| == 2 { assert data[..1] == [data[0]] && data[..1][..0] == []; }
  }

  /** The node's register is handed out first, then its operands' are looked up. */
  function Emit(s: Sea, st: Raised, n: nat): Raised
    requires s.HasSlice(n)
  {
    var dst := st.vregs + 1;
    var t := WithVregs(st.(vregs := dst), DataOf(s, n));
    Placed(t, n, InstFor(s, n, t.vregOf, dst))
  }

  function Placed(t: Raised, n: nat, i: T.Inst): Raised {
    Raised(t.code + [i], t.vregs, t.vregOf[n := i.dst])
  }

  lemma InstParts(s: Sea, n: nat, vregOf: map<nat, nat>, dst: nat, a: nat, b: nat)
    requires s.HasSlice(n) && |DataOf(s, n)| <= 2
    requires a == SrcOf(DataOf(s, n), vregOf, 0) && b == SrcOf(DataOf(s, n), vregOf, 1)
    ensures InstFor(s, n, vregOf, dst) == T.Inst(OpFor(s.nodes[n].kind), dst, a, b, PayloadOf(s.nodes[n]))
  {
  }

  predicate Fetched(st: Raised, data: seq<nat>) { forall j :: 0 <= j < |data| ==> data[j] in st.vregOf }

  lemma {:induction false} FetchedAll(st: Raised, data: seq<nat>)
    requires Fetched(st, data)
    ensures WithVregs(st, data) == st
  {
    if |data| > 0 { FetchedAll(st, data[..|data| - 1]); }
  }

  lemma EmitWhole(s: Sea, t: Raised, n: nat)
    requires s.HasSlice(n) && Fetched(t, DataOf(s, n))
    ensures Emit(s, t, n) ==
      Raised(t.code + [InstFor(s, n, t.vregOf, t.vregs + 1)], t.vregs + 1, t.vregOf[n := t.vregs + 1])
  {
    FetchedAll(t.(vregs := t.vregs + 1), DataOf(s, n));
  }

  // ----- what the code computes -----

  /** Run on these locals, the code leaves registers that hold the values of all nodes that have one. */
  ghost predicate RightFor(ext: Ext, st: Raised, locals: seq<i64>, v: seq<i64>) {
    exists regs :: LeavesRight(ext, st, locals, v, regs)
  }

  ghost predicate LeavesRight(ext: Ext, st: Raised, locals: seq<i64>, v: seq<i64>, regs: map<nat, i64>) {
    Leaves(T.Meaning(ext), st.code, locals, regs) && AllHold(v, st.vregs, st.vregOf, regs)
  }

  /** So it does for all locals that are there and every valuation that reads them. */
  ghost predicate Right(ext: Ext, s: Sea, st: Raised) {
    && DataWired(s)
    && forall locals, v {:trigger RightFor(ext, st, locals, v)} ::
      Models(ext, s, v) && Reads(s, locals, v) && InRange(s, locals) ==> RightFor(ext, st, locals, v)
  }

  lemma NothingRight(ext: Ext, s: Sea)
    requires DataWired(s)
    ensures Right(ext, s, NOTHING)
  {
    forall locals, v ensures RightFor(ext, NOTHING, locals, v) {
      LeavesNothing(T.Meaning(ext), locals);
      assert LeavesRight(ext, NOTHING, locals, v, map[]);
    }
  }

  lemma LabelRight(ext: Ext, s: Sea, st: Raised, id: int)
    requires Right(ext, s, st)
    ensures Right(ext, s, st.(code := st.code + [T.Inst(T.Label, 0, 0, 0, id)]))
  {
    var t := st.(code := st.code + [T.Inst(T.Label, 0, 0, 0, id)]);
    forall locals, v | Models(ext, s, v) && Reads(s, locals, v) && InRange(s, locals)
      ensures RightFor(ext, t, locals, v)
    {
      assert RightFor(ext, st, locals, v);
      var regs :| LeavesRight(ext, st, locals, v, regs);
      LeavesPastLabel(T.Meaning(ext), st.code, locals, regs, id);
      assert LeavesRight(ext, t, locals, v, regs);
    }
  }

  /** A node whose operands are there, or a load. */
  ghost predicate CanEmit(s: Sea, st: Raised, n: nat) {
    s.HasSlice(n) && Fetched(st, DataOf(s, n)) && (IsLoad(s, n) || ComputesAt(s, n))
  }

  lemma EmitRightFor(ext: Ext, s: Sea, st: Raised, n: nat, locals: seq<i64>, v: seq<i64>, regs: map<nat, i64>)
    requires DataWired(s) && Models(ext, s, v) && Reads(s, locals, v) && InRange(s, locals)
    requires CanEmit(s, st, n) && LeavesRight(ext, st, locals, v, regs)
    ensures RightFor(ext, Emit(s, st, n), locals, v)
  {
    var i := InstFor(s, n, st.vregOf, st.vregs + 1);
    EmitWhole(s, st, n);
    InstFits(ext, s, st, n, locals, v, regs, i);
    LeavesMore(T.Meaning(ext), st.code, locals, regs, i);
    HoldsMore(v, st.vregOf, regs, st.vregs, n, v[n]);
    assert LeavesRight(ext, Emit(s, st, n), locals, v, regs[st.vregs + 1 := v[n]]);
  }

  lemma InstFits(ext: Ext, s: Sea, st: Raised, n: nat, locals: seq<i64>, v: seq<i64>, regs: map<nat, i64>, i: T.Inst)
    requires DataWired(s) && Models(ext, s, v) && Reads(s, locals, v) && InRange(s, locals)
    requires CanEmit(s, st, n) && AllHold(v, st.vregs, st.vregOf, regs) && i == InstFor(s, n, st.vregOf, st.vregs + 1)
    ensures n < |v| && Fits(ext, i, locals, regs, st.vregs + 1, v[n])
  {
    if IsLoad(s, n) {
      InstLoads(ext, s, v, n, st.vregOf, locals, regs, st.vregs + 1);
    } else {
      forall j | 0 <= j < |DataOf(s, n)| ensures Holds(v, st.vregOf, regs, DataOf(s, n)[j]) {}
      InstComputes(ext, s, v, n, st.vregOf, locals, regs, st.vregs + 1);
    }
  }

  /** Emitting such a node keeps the code right. */
  lemma EmitRight(ext: Ext, s: Sea, st: Raised, n: nat)
    requires Right(ext, s, st) && CanEmit(s, st, n)
    ensures Right(ext, s, Emit(s, st, n))
  {
    forall locals, v | Models(ext, s, v) && Reads(s, locals, v) && InRange(s, locals)
      ensures RightFor(ext, Emit(s, st, n), locals, v)
    {
      assert RightFor(ext, st, locals, v);
      var regs :| LeavesRight(ext, st, locals, v, regs);
      EmitRightFor(ext, s, st, n, locals, v, regs);
    }
  }

  // ----- the shape of the code -----

  predicate InstFormed(i: T.Inst, count: nat) { T.OperandsInRange(i, count) && !T.IsJump(i.op) }

  predicate InstsFormed(insts: seq<T.Inst>, count: nat) {
    forall j :: 0 <= j < |insts| ==> InstFormed(insts[j], count)
  }

  /** Operands are registers that were handed out, nothing jumps, and there is one instruction for each node that has a
      register, and for each label. */
  ghost predicate Shapely(st: Raised, size: nat, labels: nat) {
    && InstsFormed(st.code, st.vregs) && |st.code| <= |st.vregOf| + labels
    && forall n {:trigger n in st.vregOf} :: n in st.vregOf ==> n < size && 0 < st.vregOf[n] <= st.vregs
  }

  lemma {:induction false} BelowSize(size: nat, xs: set<nat>)
    requires forall x :: x in xs ==> x < size
    ensures |xs| <= size
  {
    if size > 0 { BelowSize(size - 1, xs - {size - 1}); } else { assert xs == {}; }
  }

  lemma ShapelyLength(st: Raised, size: nat, labels: nat)
    requires Shapely(st, size, labels)
    ensures |st.code| <= size + labels
  {
    BelowSize(size, st.vregOf.Keys);
  }

  lemma WithVregShapely(st: Raised, n: nat, size: nat, labels: nat)
    requires Shapely(st, size, labels) && n < size
    ensures Shapely(WithVreg(st, n), size, labels) && n in WithVreg(st, n).vregOf
    ensures st.vregs <= WithVreg(st, n).vregs && forall m :: m in WithVreg(st, n).vregOf <==> m in st.vregOf || m == n
  {
  }

  lemma {:induction false} WithVregsShapely(st: Raised, data: seq<nat>, size: nat, labels: nat)
    requires Shapely(st, size, labels) && forall j :: 0 <= j < |data| ==> data[j] < size
    ensures var t := WithVregs(st, data);
      Shapely(t, size, labels) && Fetched(t, data) && st.vregs <= t.vregs
      && forall m :: m in t.vregOf <==> m in st.vregOf || m in data
  {
    if |data| > 0 {
      var front, last := data[..|data| - 1], data[|data| - 1];
      WithVregsShapely(st, front, size, labels);
      WithVregShapely(WithVregs(st, front), last, size, labels);
      assert data == front + [last];
    }
  }

  lemma InstShapely(s: Sea, n: nat, t: Raised, dst: nat, size: nat, labels: nat)
    requires s.HasSlice(n) && Shapely(t, size, labels) && Fetched(t, DataOf(s, n)) && 0 < dst <= t.vregs
    requires ComputesAt(s, n) || (IsLoad(s, n) && DataOf(s, n) == [])
    ensures InstFormed(InstFor(s, n, t.vregOf, dst), t.vregs)
  {
    if !IsLoad(s, n) { KindRoundTrip(s.nodes[n].kind); }
  }

  lemma PlacedShapely(t: Raised, n: nat, i: T.Inst, size: nat, labels: nat)
    requires Shapely(t, size, labels) && n < size && n !in t.vregOf && InstFormed(i, t.vregs) && 0 < i.dst <= t.vregs
    ensures Shapely(Placed(t, n, i), size, labels)
  {
  }

  lemma EmitShapely(s: Sea, st: Raised, n: nat, size: nat, labels: nat)
    requires DataWired(s) && size == |s.nodes| && Shapely(st, size, labels) && n < size && n !in st.vregOf
    requires n !in DataOf(s, n) && (ComputesAt(s, n) || (IsLoad(s, n) && DataOf(s, n) == []))
    ensures Shapely(Emit(s, st, n), size, labels) && st.vregs < Emit(s, st, n).vregs
  {
    var low := st.(vregs := st.vregs + 1);
    OperandsInGraph(s, n);
    WithVregsShapely(low, DataOf(s, n), size, labels);
    var t := WithVregs(low, DataOf(s, n));
    InstShapely(s, n, t, st.vregs + 1, size, labels);
    PlacedShapely(t, n, InstFor(s, n, t.vregOf, st.vregs + 1), size, labels);
  }
}
