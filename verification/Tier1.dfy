/** The baseline compiler's register IR, and what the machine code emitted for it does. */
module Tier1 {
  import opened Int64
  import opened Machines
  import V = Valuation
  import N = SeaOfNodes

  datatype Op =
    | LoadConst | LoadConstImm | LoadLocal | StoreLocal | LoadVar | StoreVar | Mov
    | Add | Sub | Mul | Div | Pow | Neg
    | Shl | Shr
    | Eq | Ne | Lt | Gt | Lte | Gte
    | And | Or | Not
    | IsTruthy | ToFloat
    | AllocList | ListAppend | ListGet | ListSet | AllocInstance | GetField | SetField
    | Call | CallNative | Return
    | Label | Jump | BranchIfFalse | BranchIfTrue | Halt

  /** Virtual register 0 stands for "none". */
  datatype Inst = Inst(op: Op, dst: nat, src1: nat, src2: nat, payload: int)

  datatype Function = Function(insts: seq<Inst>, vregCount: nat, labelCount: nat)

  /** The graph kind with the same meaning. */
  function KindOf(op: Op): N.NodeKind {
    match op
    case Add => N.Add
    case Sub => N.Sub
    case Mul => N.Mul
    case Div => N.Div
    case Pow => N.Pow
    case Neg => N.Neg
    case Shl => N.Shl
    case Shr => N.Shr
    case Eq => N.Eq
    case Ne => N.Ne
    case Lt => N.Lt
    case Gt => N.Gt
    case Lte => N.Lte
    case Gte => N.Gte
    case And => N.And
    case Or => N.Or
    case Not => N.Not
    case IsTruthy => N.ToBool
    case ToFloat => N.ToFloat
    case _ => N.ConstInt
  }

  predicate IsBinaryOp(op: Op) {
    op in {Add, Sub, Mul, Div, Pow, Shl, Shr, Eq, Ne, Lt, Gt, Lte, Gte, And, Or}
  }

  predicate IsUnaryOp(op: Op) {
    op in {Neg, Not, IsTruthy, ToFloat}
  }

  /** The operands that the emitted code loads. */
  predicate Reads1(op: Op) {
    IsBinaryOp(op) || IsUnaryOp(op) || op in {StoreLocal, Mov, Return, BranchIfFalse, BranchIfTrue}
  }

  predicate Reads2(op: Op) { IsBinaryOp(op) }

  /** Whether the emitted code stores a result. */
  predicate Writes(i: Inst) {
    if i.op in {AllocList, ListAppend, ListGet, ListSet, AllocInstance, GetField, SetField, Call, CallNative} then
        i.dst != 0
    else i.op !in {StoreLocal, StoreVar, Return, Label, Jump, BranchIfFalse, BranchIfTrue, Halt}
  }

  predicate IsJump(op: Op) { op in {Jump, BranchIfFalse, BranchIfTrue} }

  /** The result of an instruction that computes from its operands. Globals, calls and heap operations are
      not implemented at this tier and yield 0. */
  function Result(ext: V.Ext, i: Inst, x: i64, y: i64): i64 {
    if i.op in {LoadConst, LoadConstImm} then Wrap(i.payload)
    else if i.op == Mov then x
    else if IsBinaryOp(i.op) then V.NodeValue(ext, KindOf(i.op), 0, [x, y])
    else if IsUnaryOp(i.op) then V.NodeValue(ext, KindOf(i.op), 0, [x])
    else 0
  }

  /** What an instruction computes from its operands; machines are run for any such meaning. */
  type Alu = (Inst, i64, i64) -> i64

  function Meaning(ext: V.Ext): Alu { (i, x, y) => Result(ext, i, x, y) }

  /** The position at which a label is bound. */
  function Target(insts: seq<Inst>, id: int): (k: nat)
    ensures k <= |insts|
    ensures k < |insts| ==> insts[k].op == Label && insts[k].payload == id
    ensures forall j :: 0 <= j < k ==> !(insts[j].op == Label && insts[j].payload == id)
  {
    if |insts| == 0 || (insts[0].op == Label && insts[0].payload == id) then 0
    else
      var k := Target(insts[1..], id);
      assert forall j :: 0 <= j < k ==> insts[j + 1] == insts[1..][j];
      k + 1
  }

  /** What executing one instruction on given operand values does. */
  datatype Effect =
    | Continue(pc: nat, value: i64, locals: seq<i64>)
    | Finish(value: i64, locals: seq<i64>)
    | Fault

  function Execute(alu: Alu, f: Function, pc: nat, x: i64, y: i64, locals: seq<i64>): Effect
    requires pc < |f.insts|
  {
    var i := f.insts[pc];
    match i.op
    case Return => Finish(x, locals)
    case Halt => Fault
    case Jump => Goto(f, i.payload, locals)
    case BranchIfFalse => if x == 0 then Goto(f, i.payload, locals) else Continue(pc + 1, 0, locals)
    case BranchIfTrue => if x != 0 then Goto(f, i.payload, locals) else Continue(pc + 1, 0, locals)
    case LoadLocal => if 0 <= i.payload < |locals| then Continue(pc + 1, locals[i.payload], locals) else Fault
    case StoreLocal => if 0 <= i.payload < |locals| then Continue(pc + 1, 0, locals[i.payload := x]) else Fault
    case _ => Continue(pc + 1, alu(i, x, y), locals)
  }

  function Goto(f: Function, id: int, locals: seq<i64>): Effect {
    var k := Target(f.insts, id);
    if k < |f.insts| then Continue(k, 0, locals) else Fault
  }

  // ----- the machine with unboundedly many virtual registers -----

  datatype State = State(pc: nat, regs: map<nat, i64>, locals: seq<i64>)

  /** The returned value and the locals as the function leaves them. */
  datatype Answer = Answer(value: i64, locals: seq<i64>)

  predicate OperandsDefined(i: Inst, regs: map<nat, i64>) {
    (Reads1(i.op) ==> i.src1 in regs) && (Reads2(i.op) ==> i.src2 in regs)
  }

  function Operand(needed: bool, regs: map<nat, i64>, v: nat): i64
    requires needed ==> v in regs
  {
    if needed then regs[v] else 0
  }

  /** Reading a register that was never written is an error here; in the emitted code it would read whatever
      the stack holds. */
  function Step(alu: Alu, f: Function, s: State): Outcome<State, Answer> {
    if s.pc >= |f.insts| || !OperandsDefined(f.insts[s.pc], s.regs) then Stuck
    else
      var i := f.insts[s.pc];
      match Execute(alu, f, s.pc, Operand(Reads1(i.op), s.regs, i.src1), Operand(Reads2(i.op), s.regs, i.src2),
          s.locals)
      case Continue(pc, value, locals) => Running(State(pc, if Writes(i) then s.regs[i.dst := value] else s.regs,
          locals))
      case Finish(value, locals) => Returned(Answer(value, locals))
      case Fault => Stuck
  }

  function Steps(alu: Alu, f: Function): State -> Outcome<State, Answer> { s => Step(alu, f, s) }

  /** The function, called with the given locals, returns with this answer. */
  ghost predicate Answers(alu: Alu, f: Function, locals: seq<i64>, a: Answer) {
    Ends(Steps(alu, f), State(0, map[], locals), a)
  }

  /** Registers named by instructions are registers of the function. */
  predicate WellFormed(f: Function) {
    forall j :: 0 <= j < |f.insts| ==> OperandsInRange(f.insts[j], f.vregCount)
  }

  predicate OperandsInRange(i: Inst, count: nat) {
    && (Reads1(i.op) ==> 0 < i.src1 <= count)
    && (Reads2(i.op) ==> 0 < i.src2 <= count)
    && (Writes(i) ==> 0 < i.dst <= count)
  }
}
