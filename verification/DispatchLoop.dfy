/** The dispatch loop of the interpreter, which moves an instruction pointer and changes a stack and the locals. */
module DispatchLoop {
  import opened Int64
  import B = Bytecode
  import opened Machines
  import opened Interpreter

  class Dispatcher {
    const program: Program
    var ip: nat
    var stack: seq<i64>
    var locals: seq<Local>

    constructor (program: Program, locals: seq<Local>)
      ensures this.program == program && State() == IState(0, [], locals)
    {
      this.program, ip, stack, this.locals := program, 0, [], locals;
    }

    function State(): IState
      reads this
    {
      IState(ip, stack, locals)
    }

    method Push(x: i64)
      modifies this`stack
      ensures stack == old(stack) + [x]
    {
      stack := stack + [x];
    }

    method Pop() returns (x: i64)
      requires |stack| > 0
      modifies this`stack
      ensures stack == old(stack)[..|old(stack)| - 1] && x == old(stack)[|old(stack)| - 1]
    {
      x := stack[|stack| - 1];
      stack := stack[..|stack| - 1];
    }

    /** The right operand was pushed last. */
    method Combine(op: B.OpCode)
      requires IsBinaryOpCode(op) && |stack| >= 2
      modifies this`stack
      ensures var n := |old(stack)|; stack == old(stack)[..n - 2] + [Arith(op, old(stack)[n - 2], old(stack)[n - 1])]
    {
      var b := Pop();
      var a := Pop();
      Push(Arith(op, a, b));
    }

    method JumpBy(i: B.Instr)
      modifies this`ip
      ensures ip == JumpTo(program.size, i.next, i.operand)
    {
      ip := if i.next + i.operand < 0 then program.size else i.next + i.operand;
    }

    /** Loads and stores. */
    method Move(i: B.Instr) returns (ok: bool)
      requires i.op in {B.LoadConst, B.LoadLocal, B.StoreLocal}
      modifies this`stack, this`locals
      ensures Perform(program, i, old(State())) == if ok then Running(State().(ip := i.next)) else Stuck
    {
      ok := false;
      if i.op == B.LoadConst {
        if 0 <= i.operand < |program.constants| && program.constants[i.operand].IntConst? {
          Push(program.constants[i.operand].value);
          ok := true;
        }
      } else if 0 <= i.operand < |locals| {
        if i.op == B.StoreLocal {
          if |stack| > 0 {
            locals := locals[i.operand := Int(stack[|stack| - 1])];
            ok := true;
          }
        } else if locals[i.operand].Int? {
          Push(locals[i.operand].value);
          ok := true;
        }
      }
    }

    /** Everything that needs one operand. */
    method Consume(i: B.Instr)
      requires i.op in {B.Pop, B.Neg, B.Not, B.JumpIfFalse} && |stack| > 0
      modifies this`stack, this`ip
      ensures Perform(program, i, old(State())) == Running(State())
    {
      var x := Pop();
      ip := i.next;
      if i.op == B.Neg {
        Push(Negate(x));
      } else if i.op == B.Not {
        Push(if Truthy(x) then 0 else 1);
      } else if i.op == B.JumpIfFalse && !Truthy(x) {
        JumpBy(i);
      }
    }

    /** Executes one instruction; the state changes only if the loop goes on. */
    method Advance() returns (o: Outcome<IState, IAnswer>)
      modifies this
      ensures o == IStep(program, old(State())) && (o.Running? ==> o.state == State())
    {
      o := Stuck;
      if ip !in program.listing { return; }
      var i := program.listing[ip];
      if IsBinaryOpCode(i.op) {
        if |stack| < 2 { return; }
        Combine(i.op);
        ip := i.next;
      } else if i.op in {B.LoadConst, B.LoadLocal, B.StoreLocal} {
        var ok := Move(i);
        if !ok { return; }
        ip := i.next;
      } else if i.op == B.Jump {
        JumpBy(i);
      } else {
        if |stack| == 0 { return; }
        if i.op == B.Return {
          var x := Pop();
          return Returned(IAnswer(x, locals));
        }
        if i.op !in {B.Pop, B.Neg, B.Not, B.JumpIfFalse} { return; }
        Consume(i);
      }
      o := Running(State());
    }

    /** Goes on until the interpreter returns or gets stuck, for at most so many instructions. */
    method Dispatch(budget: nat) returns (o: Outcome<IState, IAnswer>)
      modifies this
      ensures o == Run(ISteps(program), old(State()), budget) && (o.Running? ==> o.state == State())
    {
      o := Running(State());
      var left := budget;
      while left > 0 && o.Running?
        invariant o.Running? ==> o.state == State()
        invariant Run(ISteps(program), old(State()), budget) == if o.Running? then Run(ISteps(program), State(), left)
            else o
      {
        o := Advance();
        left := left - 1;
      }
    }
  }
}
