/** The flags and types of the nodes that lowering makes. */
module LoweredLabels {
  import opened SeaOfNodes
  import opened Rewrites
  import opened PassCore
  import opened GraphBuilding
  import opened StraightLine
  import opened GraphLowering
  import T = Tier1

  /** The flags and the type of a node of its kind. Constants of the function are not deoptimized; the zero of a
      register that was never written has no such flag. Products and sums are commutative, and so are equality and the
      logical connectives. */
  predicate Labelled(n: Node) {
    match n.kind
    case Start => n.flags == {IsControl, NoDeopt} && n.ty == Bottom
    case Stop => n.flags == {IsControl, NoDeopt} && n.ty == Bottom
    case LoadLocal => n.flags == {IsEffect, NoDeopt} && n.ty == TInt
    case ConstInt =>
      n.ty == TInt && (n.flags == {Pure, CSEable, GVNable, NoDeopt} || (n.flags == {Pure, GVNable} && n.payload == 0))
    case Add => n.flags == {Pure, GVNable, Commutative} && n.ty == TInt && n.payload == 0
    case Mul => n.flags == {Pure, GVNable, Commutative} && n.ty == TInt && n.payload == 0
    case Shl => n.flags == {Pure, GVNable} && n.ty == TInt && n.payload == 0
    case Shr => n.flags == {Pure, GVNable} && n.ty == TInt && n.payload == 0
    case Neg => n.flags == {Pure, GVNable} && n.ty == TInt && n.payload == 0
    case Eq => n.flags == {Pure, GVNable, Commutative} && n.ty == TBool && n.payload == 0
    case Ne => n.flags == {Pure, GVNable, Commutative} && n.ty == TBool && n.payload == 0
    case And => n.flags == {Pure, GVNable, Commutative} && n.ty == TBool && n.payload == 0
    case Or => n.flags == {Pure, GVNable, Commutative} && n.ty == TBool && n.payload == 0
    case Not => n.flags == {Pure, GVNable} && n.ty == TBool && n.payload == 0
    case _ => false
  }

  ghost predicate AllLabelled(s: Sea) {
    forall n {:trigger Labelled(s.nodes[n])} :: 0 < n < |s.nodes| ==> Labelled(s.nodes[n])
  }

  lemma AppendedLabelled(s: Sea, f: NewNode)
    requires AllLabelled(s) && Labelled(Node(f.kind, f.flags, f.ty, f.payload, |s.edges|, |f.inputs|))
    ensures AllLabelled(Appended(s, f))
  {
    forall n | 0 < n < |Appended(s, f).nodes| ensures Labelled(Appended(s, f).nodes[n]) {
      if n < |s.nodes| { assert Labelled(s.nodes[n]); }
    }
  }

  lemma NumberLabelled(i: T.Inst, inputs: seq<Edge>, first: nat)
    requires i.op in {T.LoadConst, T.LoadConstImm, T.Add, T.Mul, T.Shl, T.Shr, T.Neg}
    ensures var f := NodeFor(i, inputs); Labelled(Node(f.kind, f.flags, f.ty, f.payload, first, |f.inputs|))
  {
  }

  lemma TruthLabelled(i: T.Inst, inputs: seq<Edge>, first: nat)
    requires i.op in {T.Eq, T.Ne, T.And, T.Or, T.Not}
    ensures var f := NodeFor(i, inputs); Labelled(Node(f.kind, f.flags, f.ty, f.payload, first, |f.inputs|))
  {
  }

  lemma NodeForLabelled(i: T.Inst, inputs: seq<Edge>, first: nat)
    requires i.op in BODY && i.op != T.Mov && i.op != T.LoadLocal
    ensures var f := NodeFor(i, inputs); Labelled(Node(f.kind, f.flags, f.ty, f.payload, first, |f.inputs|))
  {
    if i.op in {T.Eq, T.Ne, T.And, T.Or, T.Not} {
      TruthLabelled(i, inputs, first);
    } else {
      NumberLabelled(i, inputs, first);
    }
  }

  lemma LookedLabelled(b: Build, v: nat)
    requires AllLabelled(b.s)
    ensures AllLabelled(Looked(b, v).s)
  {
    if v !in b.nodeOf { AppendedLabelled(b.s, ZERO); }
  }

  lemma MadeLabelled(s: Sea, i: T.Inst, inputs: seq<Edge>)
    requires AllLabelled(s) && i.op in BODY && i.op != T.Mov && i.op != T.LoadLocal
    ensures AllLabelled(Appended(s, NodeFor(i, inputs)))
  {
    NodeForLabelled(i, inputs, |s.edges|);
    AppendedLabelled(s, NodeFor(i, inputs));
  }

  lemma LoweredLabelled(b: Build, i: T.Inst)
    requires AllLabelled(b.s) && i.op in BODY
    ensures AllLabelled(Lowered(b, i).s)
  {
    LookedLabelled(b, i.src1);
    if i.op in {T.LoadConst, T.LoadConstImm} {
      MadeLabelled(b.s, i, []);
    } else if i.op == T.LoadLocal {
      AppendedLabelled(b.s, LoadNode(b, i.payload));
    } else if i.op in {T.Neg, T.Not} {
      MadeLabelled(Looked(b, i.src1).s, i, UnaryNode(Looked(b, i.src1), i).inputs);
      LoweredUnary(b, i);
    } else if i.op != T.Mov {
      LookedLabelled(Looked(b, i.src1), i.src2);
      MadeLabelled(LookedBoth(b, i).s, i, BinaryNode(LookedBoth(b, i), i).inputs);
      LoweredBinary(b, i);
    }
  }

  lemma StepLabelled(f: T.Function, trace: seq<Build>, k: nat)
    requires IsStraightLine(f) && IsBody(f, trace) && k + 1 < |trace| && AllLabelled(trace[k].s)
    ensures AllLabelled(trace[k + 1].s)
  {
    BodyOp(f, k);
    TraceFollows(f, trace, k);
    LoweredLabelled(trace[k], f.insts[k]);
  }

  lemma {:induction false} BodyLabelled(f: T.Function, trace: seq<Build>, k: nat)
    requires IsStraightLine(f) && IsBody(f, trace) && k < |trace|
    ensures AllLabelled(trace[k].s)
  {
    if k == 0 {
      assert Started().s.nodes[1] == Node(Start, {IsControl, NoDeopt}, Bottom, 0, 0, 0);
    } else {
      BodyLabelled(f, trace, k - 1);
      StepLabelled(f, trace, k - 1);
    }
  }

  lemma EndedLabelled(b: Build, v: nat)
    requires AllLabelled(b.s)
    ensures AllLabelled(Ended(b, v))
  {
    LookedLabelled(b, v);
    var t := Looked(b, v);
    AppendedLabelled(t.s, NewNode(Stop, {IsControl, NoDeopt}, Bottom, 0, StopEdges(t, v)));
  }

  /** Every node of a lowered function's graph is labelled so. */
  lemma GraphLabelled(f: T.Function, s: Sea)
    requires IsStraightLine(f) && IsGraphOf(f, s)
    ensures AllLabelled(s)
  {
    var trace :| IsWhole(f, trace, s);
    BodyLabelled(f, trace, |trace| - 1);
    EndedLabelled(trace[|trace| - 1], f.insts[|f.insts| - 1].src1);
  }
}
