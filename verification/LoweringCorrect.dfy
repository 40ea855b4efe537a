/** Lowering is correct: what the interpreter returns, the lowered function returns, however often its loops run. */
module LoweringCorrect {
  import opened Int64
  import V = Valuation
  import B = Bytecode
  import opened Interpreter
  import opened Machines
  import opened Tier1
  import opened Lowering
  import opened LoweredShape

  // ----- the simulation relation -----

  /** The virtual stack's registers hold the operand stack. */
  ghost predicate Holds(stack: seq<i64>, vstack: seq<nat>, regs: map<nat, i64>) {
    |stack| == |vstack| && forall i :: 0 <= i < |vstack| ==> vstack[i] in regs && regs[vstack[i]] == stack[i]
  }

  /** Assigned locals have their values; the others may hold anything. */
  ghost predicate SameLocals(il: seq<Local>, tl: seq<i64>) {
    |il| == |tl| && forall i :: 0 <= i < |il| && il[i].Int? ==> tl[i] == il[i].value
  }

  ghost predicate Sim(p: Program, trace: seq<LState>, k: nat, s: IState, t: State) {
    && k < |trace| && s.ip == At(p, k) && t.pc == |trace[k].insts|
    && Holds(s.stack, trace[k].vstack, t.regs) && SameLocals(s.locals, t.locals)
  }

  // ----- what single instructions do -----

  lemma BinaryMeans(ext: V.Ext, op: B.OpCode, x: i64, y: i64)
    requires IsBinaryOpCode(op)
    ensures IsBinaryOp(BinOp(op)) && V.NodeValue(ext, KindOf(BinOp(op)), 0, [x, y]) == Arith(op, x, y)
  {
  }

  lemma UnaryMeans(op: B.OpCode, x: i64)
    requires op in {B.Neg, B.Not}
    ensures V.Unary(KindOf(if op == B.Neg then Neg else Not), x) == if op == B.Neg then Negate(x)
        else if Truthy(x) then 0 else 1
  {
  }

  /** With enough operands nothing is synthesized. */
  lemma LowersPlainly(p: Program, targets: seq<nat>, i: B.Instr, st: LState)
    requires i.op in LOWERED && i.op != B.Pop && Pops(i.op) <= |st.vstack|
    ensures var n := |st.vstack|;
      var inst := InstOf(p, targets, i, st.vregs + 1, if Pops(i.op) == 2 then st.vstack[n - 2] else 0,
          if Pops(i.op) >= 1 then st.vstack[n - 1] else 0);
      LowerInstr(p, targets, i, st) == LState(st.insts + [inst], if Produces(i.op) then st.vregs + 1 else st.vregs,
        st.vstack[..n - Pops(i.op)] + if Produces(i.op) then [st.vregs + 1]
            else if i.op == B.StoreLocal then [st.vstack[n - 1]] else [])
  {
    var n := |st.vstack|;
    if Pops(i.op) == 2 {
      assert st.vstack[..n - 1][..n - 2] == st.vstack[..n - 2];
    }
  }

  lemma HoldsPush(stack: seq<i64>, vstack: seq<nat>, regs: map<nat, i64>, m: nat, v: nat, x: i64)
    requires Holds(stack, vstack, regs) && m <= |vstack| && forall i :: 0 <= i < |vstack| ==> vstack[i] != v
    ensures Holds(stack[..m] + [x], vstack[..m] + [v], regs[v := x])
  {
  }

  lemma HoldsTake(stack: seq<i64>, vstack: seq<nat>, regs: map<nat, i64>, m: nat)
    requires Holds(stack, vstack, regs) && m <= |vstack|
    ensures Holds(stack[..m], vstack[..m], regs)
  {
  }

  /** The operands of the instruction lowered for i, taken from the top of the virtual stack. */
  function Emitted(p: Program, targets: seq<nat>, i: B.Instr, vregs: nat, vstack: seq<nat>): Inst
    requires Pops(i.op) <= |vstack|
  {
    var n := |vstack|;
    InstOf(p, targets, i, vregs + 1, if Pops(i.op) == 2 then vstack[n - 2] else 0,
        if Pops(i.op) >= 1 then vstack[n - 1] else 0)
  }

  /** The machine is about to execute what was lowered for the instruction i that the interpreter is at. */
  ghost predicate Facing(p: Program, targets: seq<nat>, f: Function, i: B.Instr, s: IState, t: State, vregs: nat,
      vstack: seq<nat>) {
    && s.ip in p.listing && i == p.listing[s.ip] && Pops(i.op) <= |vstack|
    && Holds(s.stack, vstack, t.regs) && SameLocals(s.locals, t.locals)
    && t.pc < |f.insts| && f.insts[t.pc] == Emitted(p, targets, i, vregs, vstack)
  }

  ghost predicate Produced(f: Function, i: B.Instr, s: IState, t: State, r: Outcome<IState, IAnswer>,
      o: Outcome<State, Answer>, vregs: nat, x: i64) {
    && Pops(i.op) <= |s.stack|
    && r == Running(IState(i.next, s.stack[..|s.stack| - Pops(i.op)] + [x], s.locals))
    && o == Running(State(t.pc + 1, t.regs[vregs + 1 := x], t.locals))
  }

  // ----- single steps of the lowered code -----

  lemma StepBinary(ext: V.Ext, f: Function, t: State, op: Op, d: nat, a: nat, b: nat)
    requires t.pc < |f.insts| && f.insts[t.pc] == Inst(op, d, a, b, 0) && IsBinaryOp(op) && a in t.regs && b in t.regs
    ensures Step(Meaning(ext), f, t) == Running(State(t.pc + 1,
        t.regs[d := V.NodeValue(ext, KindOf(op), 0, [t.regs[a], t.regs[b]])], t.locals))
  {
  }

  lemma StepUnary(ext: V.Ext, f: Function, t: State, op: Op, d: nat, a: nat)
    requires t.pc < |f.insts| && f.insts[t.pc] == Inst(op, d, a, 0, 0) && op in {Neg, Not} && a in t.regs
    ensures Step(Meaning(ext), f, t) == Running(State(t.pc + 1, t.regs[d := V.Unary(KindOf(op), t.regs[a])], t.locals))
  {
  }

  lemma StepLoad(ext: V.Ext, f: Function, t: State, op: Op, d: nat, payload: int)
    requires t.pc < |f.insts| && f.insts[t.pc] == Inst(op, d, 0, 0, payload)
    requires op == LoadConstImm || (op == LoadLocal && 0 <= payload < |t.locals|)
    ensures Step(Meaning(ext), f, t) ==
      Running(State(t.pc + 1, t.regs[d := if op == LoadConstImm then Wrap(payload) else t.locals[payload]], t.locals))
  {
  }

  lemma StepStore(ext: V.Ext, f: Function, t: State, a: nat, slot: nat)
    requires t.pc < |f.insts| && f.insts[t.pc] == Inst(StoreLocal, 0, a, 0, slot) && a in t.regs && slot < |t.locals|
    ensures Step(Meaning(ext), f, t) == Running(State(t.pc + 1, t.regs, t.locals[slot := t.regs[a]]))
  {
  }

  lemma StepGoto(ext: V.Ext, f: Function, t: State, id: int)
    requires t.pc < |f.insts| && f.insts[t.pc] == Inst(Jump, 0, 0, 0, id) && Target(f.insts, id) < |f.insts|
    ensures Step(Meaning(ext), f, t) == Running(State(Target(f.insts, id), t.regs, t.locals))
  {
  }

  lemma StepBranch(ext: V.Ext, f: Function, t: State, a: nat, id: int)
    requires t.pc < |f.insts| && f.insts[t.pc] == Inst(BranchIfFalse, 0, a, 0, id) && a in t.regs
        && Target(f.insts, id) < |f.insts|
    ensures Step(Meaning(ext), f, t) == Running(State(if t.regs[a] == 0 then Target(f.insts, id) else t.pc + 1,
        t.regs, t.locals))
  {
  }

  lemma StepReturn(ext: V.Ext, f: Function, t: State, a: nat)
    requires t.pc < |f.insts| && f.insts[t.pc] == Inst(Return, 0, a, 0, 0) && a in t.regs
    ensures Step(Meaning(ext), f, t) == Returned(Answer(t.regs[a], t.locals))
  {
  }

  // ----- both machines on one instruction -----

  lemma ExecBinary(ext: V.Ext, p: Program, targets: seq<nat>, f: Function, i: B.Instr, s: IState, t: State,
      vregs: nat, vstack: seq<nat>) returns (x: i64)
    requires Facing(p, targets, f, i, s, t, vregs, vstack) && IsBinaryOpCode(i.op)
    ensures Produced(f, i, s, t, IStep(p, s), Step(Meaning(ext), f, t), vregs, x)
  {
    var n := |vstack|;
    assert Pops(i.op) == 2;
    x := Arith(i.op, s.stack[n - 2], s.stack[n - 1]);
    BinaryMeans(ext, i.op, s.stack[n - 2], s.stack[n - 1]);
    StepBinary(ext, f, t, BinOp(i.op), vregs + 1, vstack[n - 2], vstack[n - 1]);
  }

  lemma ExecNeg(ext: V.Ext, p: Program, targets: seq<nat>, f: Function, i: B.Instr, s: IState, t: State, vregs: nat,
                vstack: seq<nat>) returns (x: i64)
    requires Facing(p, targets, f, i, s, t, vregs, vstack) && i.op == B.Neg
    ensures Produced(f, i, s, t, IStep(p, s), Step(Meaning(ext), f, t), vregs, x)
  {
    x := Negate(s.stack[|vstack| - 1]);
    UnaryMeans(B.Neg, s.stack[|vstack| - 1]);
    StepUnary(ext, f, t, Neg, vregs + 1, vstack[|vstack| - 1]);
  }

  lemma ExecNot(ext: V.Ext, p: Program, targets: seq<nat>, f: Function, i: B.Instr, s: IState, t: State, vregs: nat,
                vstack: seq<nat>) returns (x: i64)
    requires Facing(p, targets, f, i, s, t, vregs, vstack) && i.op == B.Not
    ensures Produced(f, i, s, t, IStep(p, s), Step(Meaning(ext), f, t), vregs, x)
  {
    x := if Truthy(s.stack[|vstack| - 1]) then 0 else 1;
    UnaryMeans(B.Not, s.stack[|vstack| - 1]);
    StepUnary(ext, f, t, Not, vregs + 1, vstack[|vstack| - 1]);
  }

  lemma ExecLoad(ext: V.Ext, p: Program, targets: seq<nat>, f: Function, i: B.Instr, s: IState, t: State, vregs: nat,
      vstack: seq<nat>) returns (x: i64)
    requires Facing(p, targets, f, i, s, t, vregs, vstack) && i.op in {B.LoadConst, B.LoadLocal} && IStep(p, s).Running?
    ensures Produced(f, i, s, t, IStep(p, s), Step(Meaning(ext), f, t), vregs, x)
  {
    assert s.stack[..|s.stack|] == s.stack;
    if i.op == B.LoadConst {
      x := p.constants[i.operand].value;
      WrapInRange(x);
      StepLoad(ext, f, t, LoadConstImm, vregs + 1, x);
    } else {
      x := s.locals[i.operand].value;
      StepLoad(ext, f, t, LoadLocal, vregs + 1, i.operand);
    }
  }

  lemma ExecProduces(ext: V.Ext, p: Program, targets: seq<nat>, f: Function, i: B.Instr, s: IState, t: State,
      vregs: nat, vstack: seq<nat>) returns (x: i64)
    requires Facing(p, targets, f, i, s, t, vregs, vstack) && Produces(i.op) && IStep(p, s).Running?
    ensures Produced(f, i, s, t, IStep(p, s), Step(Meaning(ext), f, t), vregs, x)
  {
    if IsBinaryOpCode(i.op) {
      x := ExecBinary(ext, p, targets, f, i, s, t, vregs, vstack);
    } else if i.op == B.Neg {
      x := ExecNeg(ext, p, targets, f, i, s, t, vregs, vstack);
    } else if i.op == B.Not {
      x := ExecNot(ext, p, targets, f, i, s, t, vregs, vstack);
    } else {
      x := ExecLoad(ext, p, targets, f, i, s, t, vregs, vstack);
    }
  }

  lemma ExecStore(ext: V.Ext, p: Program, targets: seq<nat>, f: Function, i: B.Instr, s: IState, t: State, vregs: nat,
      vstack: seq<nat>) returns (a: IState, b: State)
    requires Facing(p, targets, f, i, s, t, vregs, vstack) && i.op == B.StoreLocal && IStep(p, s).Running?
    ensures IStep(p, s) == Running(a) && a.ip == i.next && a.stack == s.stack
    ensures Step(Meaning(ext), f, t) == Running(b) && b.pc == t.pc + 1 && b.regs == t.regs
        && SameLocals(a.locals, b.locals)
  {
    var n := |vstack|;
    var x := s.stack[n - 1];
    a := IState(i.next, s.stack, s.locals[i.operand := Int(x)]);
    b := State(t.pc + 1, t.regs, t.locals[i.operand := x]);
    StepStore(ext, f, t, vstack[n - 1], i.operand);
  }

  lemma ExecGoto(ext: V.Ext, p: Program, targets: seq<nat>, f: Function, i: B.Instr, s: IState, t: State, vregs: nat,
      vstack: seq<nat>)
    requires Facing(p, targets, f, i, s, t, vregs, vstack) && i.op == B.Jump
    requires Target(f.insts, LabelOf(targets, TargetOf(i))) < |f.insts|
    ensures IStep(p, s) == Running(IState(JumpTo(p.size, i.next, i.operand), s.stack, s.locals))
    ensures Step(Meaning(ext), f, t) == Running(State(Target(f.insts, LabelOf(targets, TargetOf(i))), t.regs, t.locals))
  {
    StepGoto(ext, f, t, LabelOf(targets, TargetOf(i)));
  }

  /** A branch is taken by both machines or by neither. */
  lemma ExecBranch(ext: V.Ext, p: Program, targets: seq<nat>, f: Function, i: B.Instr, s: IState, t: State,
      vregs: nat, vstack: seq<nat>)
    returns (taken: bool)
    requires Facing(p, targets, f, i, s, t, vregs, vstack) && i.op == B.JumpIfFalse
    requires Target(f.insts, LabelOf(targets, TargetOf(i))) < |f.insts|
    ensures |s.stack| >= 1
    ensures IStep(p, s) == Running(IState(if taken then JumpTo(p.size, i.next, i.operand) else i.next,
        s.stack[..|s.stack| - 1], s.locals))
    ensures Step(Meaning(ext), f, t) == Running(State(if taken then Target(f.insts, LabelOf(targets, TargetOf(i)))
        else t.pc + 1, t.regs, t.locals))
  {
    var n := |vstack|;
    taken := !Truthy(s.stack[n - 1]);
    StepBranch(ext, f, t, vstack[n - 1], LabelOf(targets, TargetOf(i)));
  }

  lemma ExecReturn(ext: V.Ext, p: Program, targets: seq<nat>, f: Function, i: B.Instr, s: IState, t: State,
      vregs: nat, vstack: seq<nat>)
    requires Facing(p, targets, f, i, s, t, vregs, vstack) && i.op == B.Return
    ensures IStep(p, s) == Returned(IAnswer(s.stack[|vstack| - 1], s.locals))
    ensures Step(Meaning(ext), f, t) == Returned(Answer(s.stack[|vstack| - 1], t.locals))
  {
    StepReturn(ext, f, t, vstack[|vstack| - 1]);
  }
}
