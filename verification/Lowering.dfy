/** Lowering bytecode to register IR: one walk over the code that keeps, instead of the interpreter's operand
    stack, a stack of the virtual registers that hold its values. */
module Lowering {
  import opened Int64
  import B = Bytecode
  import opened Interpreter
  import opened Tier1

  // ----- instruction boundaries -----

  /** The offset of the k-th instruction; it stays put at the end of the code. */
  function At(p: Program, k: nat): nat {
    if k == 0 then 0
    else
      var ip := At(p, k - 1);
      if ip in p.listing then p.listing[ip].next else ip
  }

  /** The instructions cover the code. */
  predicate WellCoded(p: Program) { At(p, p.size) == p.size }

  predicate IsInstr(p: Program, k: nat) { At(p, k) in p.listing }

  function InstrAt(p: Program, k: nat): B.Instr
    requires IsInstr(p, k)
  {
    p.listing[At(p, k)]
  }

  lemma {:induction false} AtGrows(p: Program, j: nat, k: nat)
    requires WellListed(p) && j <= k
    ensures At(p, j) <= At(p, k)
    ensures j < k && IsInstr(p, j) ==> At(p, j) < At(p, k)
    ensures IsInstr(p, k) ==> IsInstr(p, j)
  {
    if j < k { AtGrows(p, j, k - 1); }
  }

  // ----- jump targets -----

  predicate HasTarget(op: B.OpCode) { op in {B.Jump, B.JumpIfFalse, B.ForIter, B.TryPush} }

  /** Offsets are unsigned 32-bit numbers. */
  function TargetOf(i: B.Instr): nat { (i.next + i.operand) % 0x1_0000_0000 }

  /** The jump targets met among the first k instructions, each once; its index is its label. */
  function TargetsTo(p: Program, k: nat): seq<nat> {
    if k == 0 then [] else WithTarget(p, k - 1, TargetsTo(p, k - 1))
  }

  function WithTarget(p: Program, k: nat, found: seq<nat>): seq<nat> {
    if IsInstr(p, k) && HasTarget(InstrAt(p, k).op) && TargetOf(InstrAt(p, k)) !in found
    then found + [TargetOf(InstrAt(p, k))]
    else found
  }

  function LabelOf(targets: seq<nat>, t: nat): nat {
    if |targets| == 0 || targets[0] == t then 0 else 1 + LabelOf(targets[1..], t)
  }

  lemma {:induction false} LabelOfIs(targets: seq<nat>, t: nat)
    ensures LabelOf(targets, t) <= |targets|
    ensures t in targets <==> LabelOf(targets, t) < |targets|
    ensures t in targets ==> targets[LabelOf(targets, t)] == t
  {
    if |targets| > 0 && targets[0] != t {
      LabelOfIs(targets[1..], t);
      assert targets == [targets[0]] + targets[1..];
    }
  }

  // ----- the walk -----

  datatype LState = LState(insts: seq<Inst>, vregs: nat, vstack: seq<nat>) {
    /** The register that alloc_vreg hands out next. */
    function Fresh(): nat { vregs + 1 }

    /** Popping an empty stack yields a register with a synthesized zero. */
    function Top(): nat { if |vstack| == 0 then Fresh() else vstack[|vstack| - 1] }

    function Popped(): LState {
      if |vstack| == 0 then LState(insts + [Inst(LoadConstImm, Fresh(), 0, 0, 0)], vregs + 1, [])
      else LState(insts, vregs, vstack[..|vstack| - 1])
    }
  }

  const LOWERED: set<B.OpCode> :=
    {B.LoadConst, B.LoadLocal, B.StoreLocal, B.Pop, B.Add, B.Sub, B.Mul, B.Eq, B.Ne, B.Lt, B.Gt, B.Lte, B.Gte, B.And,
        B.Or,
     B.Neg, B.Not, B.Jump, B.JumpIfFalse, B.Return}

  function BinOp(op: B.OpCode): Op
    requires IsBinaryOpCode(op)
  {
    match op
    case Add => Add
    case Sub => Sub
    case Mul => Mul
    case Eq => Eq
    case Ne => Ne
    case Lt => Lt
    case Gt => Gt
    case Lte => Lte
    case Gte => Gte
    case And => And
    case Or => Or
  }

  function WithLabel(targets: seq<nat>, ip: nat, st: LState): LState {
    if ip in targets then LState(st.insts + [Inst(Label, 0, 0, 0, LabelOf(targets, ip))], st.vregs, st.vstack) else st
  }

  /** How many operands an opcode takes off the stack before it emits its instruction. */
  function Pops(op: B.OpCode): nat {
    if IsBinaryOpCode(op) then 2 else if op in {B.StoreLocal, B.Neg, B.Not, B.JumpIfFalse, B.Return} then 1 else 0
  }

  /** Whether it pushes a new register. */
  predicate Produces(op: B.OpCode) {
    IsBinaryOpCode(op) || op in {B.LoadConst, B.LoadLocal, B.Neg, B.Not}
  }

  /** The instruction it emits, with its last operand in b and the one before in a. */
  function InstOf(p: Program, targets: seq<nat>, i: B.Instr, dst: nat, a: nat, b: nat): Inst {
    if IsBinaryOpCode(i.op) then Inst(BinOp(i.op), dst, a, b, 0)
    else match i.op
      case LoadConst =>
        if 0 <= i.operand < |p.constants| && p.constants[i.operand].IntConst?
        then Inst(LoadConstImm, dst, 0, 0, p.constants[i.operand].value)
        else Inst(LoadConst, dst, 0, 0, i.operand)
      case LoadLocal => Inst(LoadLocal, dst, 0, 0, i.operand)
      case StoreLocal => Inst(StoreLocal, 0, b, 0, i.operand)
      case Neg => Inst(Neg, dst, b, 0, 0)
      case Not => Inst(Not, dst, b, 0, 0)
      case Jump => Inst(Jump, 0, 0, 0, LabelOf(targets, TargetOf(i)))
      case JumpIfFalse => Inst(BranchIfFalse, 0, b, 0, LabelOf(targets, TargetOf(i)))
      case _ => Inst(Return, 0, b, 0, 0)
  }

  function LowerInstr(p: Program, targets: seq<nat>, i: B.Instr, st: LState): LState {
    if i.op !in LOWERED then st
    else if i.op == B.Pop then if |st.vstack| == 0 then st else st.Popped()
    else
      var st1 := if Pops(i.op) >= 1 then st.Popped() else st;
      var st2 := if Pops(i.op) == 2 then st1.Popped() else st1;
      Emit(i.op, InstOf(p, targets, i, st2.Fresh(), st1.Top(), st.Top()), st2, st.Top())
  }

  /** Emits the instruction and pushes what the opcode leaves on the stack: a new register, the stored one
      again, or nothing. */
  function Emit(op: B.OpCode, inst: Inst, st: LState, top: nat): LState {
    if Produces(op) then LState(st.insts + [inst], st.vregs + 1, st.vstack + [st.Fresh()])
    else if op == B.StoreLocal then LState(st.insts + [inst], st.vregs, st.vstack + [top])
    else LState(st.insts + [inst], st.vregs, st.vstack)
  }

  /** The k-th instruction, after its label if it has one. */
  function LowerNext(p: Program, targets: seq<nat>, k: nat, st: LState): LState {
    if IsInstr(p, k) then LowerInstr(p, targets, InstrAt(p, k), WithLabel(targets, At(p, k), st)) else st
  }

  /** The state of the walk before the k-th instruction. */
  function LowerTo(p: Program, targets: seq<nat>, k: nat): LState {
    if k == 0 then LState([], 0, []) else LowerNext(p, targets, k - 1, LowerTo(p, targets, k - 1))
  }

  function Targets(p: Program): seq<nat> { TargetsTo(p, p.size) }

  function Lowered(p: Program): Function {
    var st := LowerTo(p, Targets(p), p.size);
    Function(st.insts, st.vregs, |Targets(p)|)
  }

  // ----- what the theorem asks of the code -----

  /** Jumps lead to instructions of the code. */
  ghost predicate JumpsInside(p: Program) {
    forall k: nat {:trigger Lands(p, k)} :: IsInstr(p, k) && HasTarget(InstrAt(p, k).op) ==> Lands(p, k)
  }

  ghost predicate Lands(p: Program, k: nat)
    requires IsInstr(p, k)
  {
    exists m: nat :: LeadsTo(p, k, m)
  }

  predicate LeadsTo(p: Program, k: nat, m: nat) {
    IsInstr(p, k) && HasTarget(InstrAt(p, k).op) && IsInstr(p, m)
        && At(p, m) == InstrAt(p, k).next + InstrAt(p, k).operand
  }

  /** Only the opcodes of the integer fragment occur. */
  ghost predicate InFragment(p: Program) {
    forall k: nat {:trigger IsInstr(p, k)} :: IsInstr(p, k) ==> InstrAt(p, k).op in LOWERED
  }

  /** A jump and the instruction it leads to find the same virtual stack. */
  ghost predicate StacksAgree(p: Program) {
    forall k: nat, m: nat {:trigger SameStack(p, k, m)} :: LeadsTo(p, k, m) ==> SameStack(p, k, m)
  }

  ghost predicate SameStack(p: Program, k: nat, m: nat) {
    LowerTo(p, Targets(p), k + 1).vstack == LowerTo(p, Targets(p), m).vstack
  }

  /** Code that decodes completely to opcodes of the fragment, with jumps to instructions. */
  ghost predicate Decodable(p: Program) {
    WellListed(p) && WellCoded(p) && p.size < 0x1_0000_0000 && InFragment(p) && JumpsInside(p)
  }

  ghost predicate Lowerable(p: Program) {
    Decodable(p) && StacksAgree(p)
  }
}
