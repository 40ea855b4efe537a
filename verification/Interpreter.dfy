/** The reference semantics: what the bytecode interpreter does on integers, locals and jumps. */
module Interpreter {
  import opened Int64
  import opened Bytecode
  import opened Machines

  datatype Const = IntConst(value: i64) | OtherConst

  /** A chunk: the instruction at each offset of its code, the size of the code, and the constants. */
  datatype Program = Program(listing: map<nat, Instr>, size: nat, constants: seq<Const>)

  function Load(code: seq<byte>, constants: seq<Const>): Program {
    Program(Listing(code), |code|, constants)
  }

  /** Instructions end inside the code. */
  ghost predicate WellListed(p: Program) {
    forall ip {:trigger p.listing[ip]} :: ip in p.listing ==> ip < p.listing[ip].next <= p.size
  }

  lemma LoadWellListed(code: seq<byte>, constants: seq<Const>)
    ensures WellListed(Load(code, constants))
  {
  }

  datatype Local = Undef | Int(value: i64)

  datatype IState = IState(ip: nat, stack: seq<i64>, locals: seq<Local>)

  datatype IAnswer = IAnswer(value: i64, locals: seq<Local>)

  predicate IsBinaryOpCode(op: OpCode) {
    op in {Add, Sub, Mul, Eq, Ne, Lt, Gt, Lte, Gte, And, Or}
  }

  predicate Truthy(x: i64) { x != 0 }

  /** Machine integers wrap around. */
  function Arith(op: OpCode, a: i64, b: i64): i64
    requires IsBinaryOpCode(op)
  {
    match op
    case Add => Wrap(a + b)
    case Sub => Wrap(a - b)
    case Mul => Wrap(a * b)
    case Eq => Bit(a == b)
    case Ne => Bit(a != b)
    case Lt => Bit(a < b)
    case Gt => Bit(a > b)
    case Lte => Bit(a <= b)
    case Gte => Bit(a >= b)
    case And => Bit(Truthy(a) && Truthy(b))
    case Or => Bit(Truthy(a) || Truthy(b))
  }

  /** A negative target is converted to a huge unsigned one: like any target past the end, it ends the loop. */
  function JumpTo(size: nat, next: nat, off: int): nat {
    if next + off < 0 then size else next + off
  }

  /** Getting stuck stands for an error, for running off the end of the code, and for opcodes and values
      outside this model. */
  function IStep(p: Program, s: IState): Outcome<IState, IAnswer> {
    if s.ip !in p.listing then Stuck else Perform(p, p.listing[s.ip], s)
  }

  function Perform(p: Program, i: Instr, s: IState): Outcome<IState, IAnswer> {
    var n := |s.stack|;
    if IsBinaryOpCode(i.op) then
      if n >= 2 then Running(IState(i.next, s.stack[..n - 2] + [Arith(i.op, s.stack[n - 2], s.stack[n - 1])],
          s.locals)) else Stuck
    else match i.op
      case LoadConst =>
        if 0 <= i.operand < |p.constants| && p.constants[i.operand].IntConst?
        then Running(IState(i.next, s.stack + [p.constants[i.operand].value], s.locals)) else Stuck
      case LoadLocal =>
        if 0 <= i.operand < |s.locals| && s.locals[i.operand].Int?
        then Running(IState(i.next, s.stack + [s.locals[i.operand].value], s.locals)) else Stuck
      case StoreLocal =>
        if 0 <= i.operand < |s.locals| && n >= 1
        then Running(IState(i.next, s.stack, s.locals[i.operand := Int(s.stack[n - 1])])) else Stuck
      case Pop =>
        if n >= 1 then Running(IState(i.next, s.stack[..n - 1], s.locals)) else Stuck
      case Neg =>
        if n >= 1 then Running(IState(i.next, s.stack[..n - 1] + [Negate(s.stack[n - 1])], s.locals)) else Stuck
      case Not =>
        if n >= 1 then Running(IState(i.next, s.stack[..n - 1] + [if Truthy(s.stack[n - 1]) then 0 else 1], s.locals))
            else Stuck
      case Jump =>
        Running(IState(JumpTo(p.size, i.next, i.operand), s.stack, s.locals))
      case JumpIfFalse =>
        if n >= 1
        then Running(IState(if Truthy(s.stack[n - 1]) then i.next else JumpTo(p.size, i.next, i.operand),
            s.stack[..n - 1], s.locals))
        else Stuck
      case Return =>
        if n >= 1 then Returned(IAnswer(s.stack[n - 1], s.locals)) else Stuck
      case _ => Stuck
  }

  function ISteps(p: Program): IState -> Outcome<IState, IAnswer> { s => IStep(p, s) }

  /** The interpreter, started with the given locals, returns with this answer. */
  ghost predicate Interprets(p: Program, locals: seq<Local>, a: IAnswer) {
    Ends(ISteps(p), IState(0, [], locals), a)
  }
}
