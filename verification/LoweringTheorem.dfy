/** The simulation: bytecode instruction by bytecode instruction, and then over whole runs. */
module LoweringTheorem {
  import opened Int64
  import V = Valuation
  import B = Bytecode
  import opened Interpreter
  import opened Machines
  import opened Tier1
  import opened Lowering
  import opened LoweredShape
  import opened LoweringCorrect

  ghost predicate TraceAgrees(p: Program, trace: seq<LState>)
    requires |trace| == p.size + 1
  {
    forall k: nat, m: nat {:trigger LeadsTo(p, k, m)} ::
      k < p.size && m < p.size && LeadsTo(p, k, m) ==> trace[k + 1].vstack == trace[m].vstack
  }

  ghost predicate Setting(p: Program, trace: seq<LState>, f: Function) {
    && Decodable(p) && Walk(p, Targets(p), trace) && f.insts == trace[p.size].insts && TraceAgrees(p, trace)
  }

  lemma LowerableSetting(p: Program)
    requires Lowerable(p)
    ensures Setting(p, TraceOf(p, Targets(p)), Lowered(p))
  {
    TraceWalks(p, Targets(p));
    TraceSame(p);
  }

  lemma TraceSame(p: Program)
    requires StacksAgree(p)
    ensures TraceAgrees(p, TraceOf(p, Targets(p)))
  {
    forall k: nat, m: nat | k < p.size && m < p.size && LeadsTo(p, k, m)
      ensures TraceOf(p, Targets(p))[k + 1].vstack == TraceOf(p, Targets(p))[m].vstack
    {
      assert SameStack(p, k, m);
    }
  }

  // ----- one instruction -----

  /** The k-th instruction as the walk leaves it: an optional label, then what is lowered for it. */
  lemma Located(p: Program, trace: seq<LState>, f: Function, k: nat) returns (i: B.Instr, st: LState)
    requires Setting(p, trace, f) && IsInstr(p, k)
    ensures k < p.size && i == InstrAt(p, k) && i.op in LOWERED
    ensures st == WithLabel(Targets(p), At(p, k), trace[k]) && trace[k + 1] == LowerInstr(p, Targets(p), i, st)
    ensures trace[k + 1].insts <= f.insts && StackInRange(trace[k]) && StackInRange(st)
  {
    InstrBound(p, k);
    i := InstrAt(p, k);
    st := WithLabel(Targets(p), At(p, k), trace[k]);
    assert Walked(p, Targets(p), trace, k);
    WalkExtends(p, Targets(p), trace, k + 1, p.size);
    WalkInRange(p, Targets(p), trace, k);
  }

  /** The label, if there is one, is stepped over. */
  lemma PassLabel(ext: V.Ext, p: Program, trace: seq<LState>, f: Function, k: nat, st: LState, t: State)
      returns (u: State)
    requires k < |trace| && t.pc == |trace[k].insts|
    requires st == WithLabel(Targets(p), At(p, k), trace[k]) && st.insts <= f.insts
    ensures Reaches(Steps(Meaning(ext), f), t, u) && u == State(|st.insts|, t.regs, t.locals)
  {
    u := State(|st.insts|, t.regs, t.locals);
    ReachesSelf(Steps(Meaning(ext), f), t);
    if At(p, k) in Targets(p) {
      assert f.insts[t.pc] == Inst(Label, 0, 0, 0, LabelOf(Targets(p), At(p, k)));
      ReachesThen(Steps(Meaning(ext), f), t, t);
    }
  }

  /** What the interpreter can execute has its operands on the stack. */
  lemma EnoughOperands(p: Program, s: IState)
    requires IStep(p, s) != Stuck
    ensures s.ip in p.listing
    ensures var i := p.listing[s.ip]; Pops(i.op) <= |s.stack| && (i.op == B.Pop ==> |s.stack| >= 1)
  {
  }

  lemma Faces(p: Program, f: Function, i: B.Instr, st: LState, s: IState, u: State)
    requires i.op in LOWERED && i.op != B.Pop && s.ip in p.listing && i == p.listing[s.ip] && Pops(i.op) <= |s.stack|
    requires Holds(s.stack, st.vstack, u.regs) && SameLocals(s.locals, u.locals) && u.pc == |st.insts|
    requires LowerInstr(p, Targets(p), i, st).insts <= f.insts
    ensures Facing(p, Targets(p), f, i, s, u, st.vregs, st.vstack)
  {
    LowersPlainly(p, Targets(p), i, st);
    assert f.insts[|st.insts|] == LowerInstr(p, Targets(p), i, st).insts[|st.insts|];
  }

  /** Where a taken jump leads. */
  lemma JumpLands(p: Program, trace: seq<LState>, f: Function, k: nat) returns (m: nat)
    requires Setting(p, trace, f) && IsInstr(p, k) && k < p.size && HasTarget(InstrAt(p, k).op)
    ensures m < p.size && LeadsTo(p, k, m)
    ensures var i := InstrAt(p, k);
      JumpTo(p.size, i.next, i.operand) == At(p, m) && Target(f.insts, LabelOf(Targets(p), TargetOf(i))) ==
          |trace[m].insts| < |f.insts|
    ensures trace[k + 1].vstack == trace[m].vstack
  {
    assert Lands(p, k);
    m :| LeadsTo(p, k, m);
    InstrBound(p, m);
    AtGrows(p, m, p.size);
    TargetExact(InstrAt(p, k), At(p, m));
    TargetFound(p, k, p.size);
    TargetIs(p, Targets(p), trace, m);
  }

  lemma TargetExact(i: B.Instr, t: nat)
    requires t == i.next + i.operand && t < 0x1_0000_0000
    ensures TargetOf(i) == t
  {
  }

  /** What the state after the k-th instruction looks like, when nothing was missing from the stack. */
  lemma NextState(p: Program, trace: seq<LState>, k: nat, i: B.Instr, st: LState)
    requires k + 1 < |trace| && trace[k + 1] == LowerInstr(p, Targets(p), i, st)
    requires i.op in LOWERED && i.op != B.Pop && Pops(i.op) <= |st.vstack|
    ensures |trace[k + 1].insts| == |st.insts| + 1
    ensures trace[k + 1].vstack ==
      if Produces(i.op) then st.vstack[..|st.vstack| - Pops(i.op)] + [st.vregs + 1]
      else if i.op == B.StoreLocal then st.vstack else st.vstack[..|st.vstack| - Pops(i.op)]
  {
    var n := |st.vstack|;
    LowersPlainly(p, Targets(p), i, st);
    if i.op == B.StoreLocal { assert st.vstack[..n - 1] + [st.vstack[n - 1]] == st.vstack; }
  }

  /** Both machines step, to related states. */
  ghost predicate Together(ext: V.Ext, p: Program, trace: seq<LState>, f: Function, s: IState, u: State, a: IState,
      b: State) {
    IStep(p, s) == Running(a) && Step(Meaning(ext), f, u) == Running(b) && Related(p, trace, a, b)
  }

  ghost predicate Related(p: Program, trace: seq<LState>, s: IState, t: State) {
    exists k :: Sim(p, trace, k, s, t)
  }

  lemma ProducesTogether(ext: V.Ext, p: Program, trace: seq<LState>, f: Function, k: nat, i: B.Instr, st: LState,
                         s: IState, u: State) returns (a: IState, b: State)
    requires k + 1 < |trace| && s.ip == At(p, k) && trace[k + 1] == LowerInstr(p, Targets(p), i, st)
    requires Facing(p, Targets(p), f, i, s, u, st.vregs, st.vstack) && u.pc == |st.insts| && StackInRange(st)
    requires IStep(p, s).Running? && Produces(i.op)
    ensures Together(ext, p, trace, f, s, u, a, b)
  {
    var x := ExecProduces(ext, p, Targets(p), f, i, s, u, st.vregs, st.vstack);
    a, b := IStep(p, s).state, Step(Meaning(ext), f, u).state;
    ProducedRelated(p, trace, f, k, i, st, s, u, x);
  }

  lemma ProducedRelated(p: Program, trace: seq<LState>, f: Function, k: nat, i: B.Instr, st: LState, s: IState,
      u: State, x: i64)
    requires k + 1 < |trace| && s.ip == At(p, k) && trace[k + 1] == LowerInstr(p, Targets(p), i, st)
    requires Facing(p, Targets(p), f, i, s, u, st.vregs, st.vstack) && u.pc == |st.insts| && StackInRange(st)
    requires Produces(i.op) && Pops(i.op) <= |s.stack|
    ensures Related(p, trace, IState(i.next, s.stack[..|s.stack| - Pops(i.op)] + [x], s.locals),
                    State(u.pc + 1, u.regs[st.vregs + 1 := x], u.locals))
  {
    NextState(p, trace, k, i, st);
    ProducedSim(p, trace, k, i, st, s.stack, s.locals, u.regs, u.locals, |s.stack| - Pops(i.op), x);
  }

  lemma ProducedSim(p: Program, trace: seq<LState>, k: nat, i: B.Instr, st: LState, stack: seq<i64>, il: seq<Local>,
                    regs: map<nat, i64>, tl: seq<i64>, m: nat, x: i64)
    requires k + 1 < |trace| && At(p, k + 1) == i.next && |trace[k + 1].insts| == |st.insts| + 1 && StackInRange(st)
    requires Holds(stack, st.vstack, regs) && SameLocals(il, tl) && m <= |stack|
    requires trace[k + 1].vstack == st.vstack[..m] + [st.vregs + 1]
    ensures Related(p, trace, IState(i.next, stack[..m] + [x], il), State(|st.insts| + 1, regs[st.vregs + 1 := x], tl))
  {
    HoldsPush(stack, st.vstack, regs, m, st.vregs + 1, x);
    assert Sim(p, trace, k + 1, IState(i.next, stack[..m] + [x], il),
        State(|st.insts| + 1, regs[st.vregs + 1 := x], tl));
  }

  lemma StoresTogether(ext: V.Ext, p: Program, trace: seq<LState>, f: Function, k: nat, i: B.Instr, st: LState,
      s: IState, u: State) returns (a: IState, b: State)
    requires k + 1 < |trace| && s.ip == At(p, k) && trace[k + 1] == LowerInstr(p, Targets(p), i, st)
    requires Facing(p, Targets(p), f, i, s, u, st.vregs, st.vstack) && u.pc == |st.insts|
    requires IStep(p, s).Running? && i.op == B.StoreLocal
    ensures Together(ext, p, trace, f, s, u, a, b)
  {
    NextState(p, trace, k, i, st);
    a, b := ExecStore(ext, p, Targets(p), f, i, s, u, st.vregs, st.vstack);
    assert Sim(p, trace, k + 1, a, b);
  }

  /** The k-th instruction jumps to the m-th. */
  ghost predicate JumpsTo(p: Program, trace: seq<LState>, f: Function, k: nat, m: nat, i: B.Instr) {
    && k + 1 < |trace| && m < |trace| && trace[k + 1].vstack == trace[m].vstack
    && JumpTo(p.size, i.next, i.operand) == At(p, m) && Target(f.insts, LabelOf(Targets(p), TargetOf(i))) ==
        |trace[m].insts| < |f.insts|
  }

  lemma GotoTogether(ext: V.Ext, p: Program, trace: seq<LState>, f: Function, k: nat, m: nat, i: B.Instr, st: LState,
      s: IState, u: State) returns (a: IState, b: State)
    requires JumpsTo(p, trace, f, k, m, i) && trace[k + 1].vstack == st.vstack
    requires Facing(p, Targets(p), f, i, s, u, st.vregs, st.vstack) && i.op == B.Jump
    ensures Together(ext, p, trace, f, s, u, a, b)
  {
    ExecGoto(ext, p, Targets(p), f, i, s, u, st.vregs, st.vstack);
    a, b := IState(At(p, m), s.stack, s.locals), State(|trace[m].insts|, u.regs, u.locals);
    assert Sim(p, trace, m, a, b);
  }

  lemma BranchTogether(ext: V.Ext, p: Program, trace: seq<LState>, f: Function, k: nat, m: nat, i: B.Instr,
      st: LState, s: IState, u: State) returns (a: IState, b: State)
    requires JumpsTo(p, trace, f, k, m, i) && |st.vstack| >= 1 && trace[k + 1].vstack == st.vstack[..|st.vstack| - 1]
    requires i.next == At(p, k + 1) && u.pc + 1 == |trace[k + 1].insts|
    requires Facing(p, Targets(p), f, i, s, u, st.vregs, st.vstack) && i.op == B.JumpIfFalse
    ensures Together(ext, p, trace, f, s, u, a, b)
  {
    var taken := ExecBranch(ext, p, Targets(p), f, i, s, u, st.vregs, st.vstack);
    var n := if taken then m else k + 1;
    a, b := IState(At(p, n), s.stack[..|s.stack| - 1], s.locals), State(|trace[n].insts|, u.regs, u.locals);
    HoldsTake(s.stack, st.vstack, u.regs, |s.stack| - 1);
    assert Sim(p, trace, n, a, b);
  }

  lemma JumpsTogether(ext: V.Ext, p: Program, trace: seq<LState>, f: Function, k: nat, i: B.Instr, st: LState,
      s: IState, u: State) returns (a: IState, b: State)
    requires Setting(p, trace, f) && k < p.size && IsInstr(p, k) && i == InstrAt(p, k)
    requires trace[k + 1] == LowerInstr(p, Targets(p), i, st) && u.pc == |st.insts|
    requires Facing(p, Targets(p), f, i, s, u, st.vregs, st.vstack) && i.op in {B.Jump, B.JumpIfFalse}
    ensures Together(ext, p, trace, f, s, u, a, b)
  {
    var m := JumpLands(p, trace, f, k);
    NextState(p, trace, k, i, st);
    if i.op == B.Jump {
      assert st.vstack[..|st.vstack|] == st.vstack;
      a, b := GotoTogether(ext, p, trace, f, k, m, i, st, s, u);
    } else {
      a, b := BranchTogether(ext, p, trace, f, k, m, i, st, s, u);
    }
  }

  // ----- whole runs -----

  /** The same value, and the same contents of every assigned local. */
  ghost predicate SameAnswer(r: IAnswer, a: Answer) {
    r.value == a.value && SameLocals(r.locals, a.locals)
  }

  ghost predicate StepMatched(ext: V.Ext, p: Program, trace: seq<LState>, f: Function, s: IState, t: State) {
    Matches(ISteps(p), Steps(Meaning(ext), f), (x, y) => Related(p, trace, x, y), (r, a) => SameAnswer(r, a), s, t)
  }

  lemma InstrTogether(ext: V.Ext, p: Program, trace: seq<LState>, f: Function, k: nat, i: B.Instr, st: LState,
      s: IState, u: State) returns (a: IState, b: State)
    requires Setting(p, trace, f) && k < p.size && IsInstr(p, k) && i == InstrAt(p, k) && s.ip == At(p, k)
    requires i.op in LOWERED && i.op != B.Pop && i.op != B.Return && StackInRange(st)
        && trace[k + 1] == LowerInstr(p, Targets(p), i, st)
    requires Facing(p, Targets(p), f, i, s, u, st.vregs, st.vstack) && u.pc == |st.insts| && IStep(p, s).Running?
    ensures Together(ext, p, trace, f, s, u, a, b)
  {
    if Produces(i.op) {
      a, b := ProducesTogether(ext, p, trace, f, k, i, st, s, u);
    } else if i.op == B.StoreLocal {
      a, b := StoresTogether(ext, p, trace, f, k, i, st, s, u);
    } else {
      a, b := JumpsTogether(ext, p, trace, f, k, i, st, s, u);
    }
  }

  lemma ReturnTogether(ext: V.Ext, p: Program, f: Function, i: B.Instr, st: LState, s: IState, u: State)
    requires Facing(p, Targets(p), f, i, s, u, st.vregs, st.vstack) && i.op == B.Return
    ensures IStep(p, s).Returned? && Step(Meaning(ext), f, u).Returned?
        && SameAnswer(IStep(p, s).result, Step(Meaning(ext), f, u).result)
  {
    ExecReturn(ext, p, Targets(p), f, i, s, u, st.vregs, st.vstack);
  }

  lemma MatchedRunning(ext: V.Ext, p: Program, trace: seq<LState>, f: Function, s: IState, t: State, a: IState,
      b: State)
    requires IStep(p, s) == Running(a) && Reaches(Steps(Meaning(ext), f), t, b) && Related(p, trace, a, b)
    ensures StepMatched(ext, p, trace, f, s, t)
  {
  }

  lemma MatchedReturned(ext: V.Ext, p: Program, trace: seq<LState>, f: Function, s: IState, t: State, r: IAnswer,
      a: Answer)
    requires IStep(p, s) == Returned(r) && Ends(Steps(Meaning(ext), f), t, a) && SameAnswer(r, a)
    ensures StepMatched(ext, p, trace, f, s, t)
  {
  }

  /** Each step of the interpreter is matched by at most two steps of the lowered code. */
  lemma StepSimulates(ext: V.Ext, p: Program, trace: seq<LState>, f: Function, s: IState, t: State)
    requires Setting(p, trace, f) && Related(p, trace, s, t)
    ensures StepMatched(ext, p, trace, f, s, t)
  {
    if IStep(p, s) != Stuck {
      EnoughOperands(p, s);
      var k :| Sim(p, trace, k, s, t);
      var i, st := Located(p, trace, f, k);
      var u := PassLabel(ext, p, trace, f, k, st, t);
      InstrSimulates(ext, p, trace, f, k, i, st, s, t, u);
    }
  }

  lemma InstrSimulates(ext: V.Ext, p: Program, trace: seq<LState>, f: Function, k: nat, i: B.Instr, st: LState,
      s: IState, t: State, u: State)
    requires Setting(p, trace, f) && k < p.size && IsInstr(p, k) && i == InstrAt(p, k) && s.ip == At(p, k)
        && i.op in LOWERED
    requires trace[k + 1] == LowerInstr(p, Targets(p), i, st) && trace[k + 1].insts <= f.insts && StackInRange(st)
    requires Holds(s.stack, st.vstack, u.regs) && SameLocals(s.locals, u.locals) && u.pc == |st.insts|
    requires IStep(p, s) != Stuck && Pops(i.op) <= |s.stack| && (i.op == B.Pop ==> |s.stack| >= 1)
    requires Reaches(Steps(Meaning(ext), f), t, u)
    ensures StepMatched(ext, p, trace, f, s, t)
  {
    if i.op == B.Pop {
      PopTogether(p, trace, k, i, st, s, u);
      MatchedRunning(ext, p, trace, f, s, t, IStep(p, s).state, u);
    } else {
      Faces(p, f, i, st, s, u);
      ReachesThen(Steps(Meaning(ext), f), t, u);
      if i.op == B.Return {
        ReturnTogether(ext, p, f, i, st, s, u);
        MatchedReturned(ext, p, trace, f, s, t, IStep(p, s).result, Step(Meaning(ext), f, u).result);
      } else {
        NotReturned(p, s, i);
        var a, b := InstrTogether(ext, p, trace, f, k, i, st, s, u);
        MatchedRunning(ext, p, trace, f, s, t, a, b);
      }
    }
  }

  lemma NotReturned(p: Program, s: IState, i: B.Instr)
    requires s.ip in p.listing && i == p.listing[s.ip] && i.op != B.Return && IStep(p, s) != Stuck
    ensures IStep(p, s).Running?
  {
  }

  lemma PopTogether(p: Program, trace: seq<LState>, k: nat, i: B.Instr, st: LState, s: IState, u: State)
    requires k + 1 < |trace| && s.ip == At(p, k) && s.ip in p.listing && i == p.listing[s.ip] && i.op == B.Pop
    requires trace[k + 1] == LowerInstr(p, Targets(p), i, st) && |s.stack| >= 1
    requires Holds(s.stack, st.vstack, u.regs) && SameLocals(s.locals, u.locals) && u.pc == |st.insts|
    ensures IStep(p, s).Running? && Related(p, trace, IStep(p, s).state, u)
  {
    HoldsTake(s.stack, st.vstack, u.regs, |s.stack| - 1);
    assert Sim(p, trace, k + 1, IStep(p, s).state, u);
  }

  /** If the interpreter returns, after however many steps, the lowered function returns the same value and
      leaves every assigned local as the interpreter does. */
  lemma LoweringPreserves(ext: V.Ext, p: Program, il: seq<Local>, tl: seq<i64>, r: IAnswer) returns (a: Answer)
    requires Lowerable(p) && SameLocals(il, tl) && Interprets(p, il, r)
    ensures Answers(Meaning(ext), Lowered(p), tl, a) && SameAnswer(r, a)
  {
    var trace, f := TraceOf(p, Targets(p)), Lowered(p);
    LowerableSetting(p);
    var s, t := IState(0, [], il), State(0, map[], tl);
    assert Sim(p, trace, 0, s, t);
    forall x, y | Related(p, trace, x, y) ensures StepMatched(ext, p, trace, f, x, y) {
      StepSimulates(ext, p, trace, f, x, y);
    }
    var n: nat :| Run(ISteps(p), s, n) == Returned(r);
    a := Simulates(ISteps(p), Steps(Meaning(ext), f), (x, y) => Related(p, trace, x, y), (r, a) => SameAnswer(r, a),
        s, t, n);
  }
}
