/** Branch-free integer functions that read locals, and what they compute. */
module StraightLine {
  import opened Int64
  import opened Machines
  import opened Tier1

  const BODY: set<Op> := {LoadConst, LoadConstImm, LoadLocal, Mov, Add, Mul, Neg, Shl, Shr, Eq, Ne, And, Or, Not}

  /** Only instructions of the integer fragment, and one Return at the end. */
  predicate IsStraightLine(f: Function) {
    && |f.insts| > 0 && f.insts[|f.insts| - 1].op == Return
    && forall j :: 0 <= j < |f.insts| - 1 ==> f.insts[j].op in BODY
  }

  /** The registers it reads are written, and the local it loads is there. */
  predicate Executable(i: Inst, locals: seq<i64>, regs: map<nat, i64>) {
    OperandsDefined(i, regs) && (i.op == LoadLocal ==> 0 <= i.payload < |locals|)
  }

  function Computed(alu: Alu, i: Inst, locals: seq<i64>, regs: map<nat, i64>): map<nat, i64>
    requires Executable(i, locals, regs)
  {
    regs[i.dst :=
      if i.op == LoadLocal then locals[i.payload]
      else alu(i, Operand(Reads1(i.op), regs, i.src1), Operand(Reads2(i.op), regs, i.src2))]
  }

  lemma BodyStep(alu: Alu, f: Function, s: State)
    requires s.pc < |f.insts| && f.insts[s.pc].op in BODY
    ensures Step(alu, f, s) ==
      if Executable(f.insts[s.pc], s.locals, s.regs) then
        Running(State(s.pc + 1, Computed(alu, f.insts[s.pc], s.locals, s.regs), s.locals))
      else Stuck
  {
  }

  /** Instructions that, run on these locals from the start of a function, leave these registers. */
  ghost predicate Leaves(alu: Alu, insts: seq<Inst>, locals: seq<i64>, regs: map<nat, i64>) {
    forall f: Function {:trigger Steps(alu, f)} ::
      insts <= f.insts ==> Reaches(Steps(alu, f), State(0, map[], locals), State(|insts|, regs, locals))
  }

  lemma LeavesNothing(alu: Alu, locals: seq<i64>)
    ensures Leaves(alu, [], locals, map[])
  {
    forall f: Function ensures Reaches(Steps(alu, f), State(0, map[], locals), State(0, map[], locals)) {
      ReachesSelf(Steps(alu, f), State(0, map[], locals));
    }
  }

  /** One more instruction. */
  lemma LeavesMore(alu: Alu, insts: seq<Inst>, locals: seq<i64>, regs: map<nat, i64>, i: Inst)
    requires Leaves(alu, insts, locals, regs) && i.op in BODY && Executable(i, locals, regs)
    ensures Leaves(alu, insts + [i], locals, Computed(alu, i, locals, regs))
  {
    forall f: Function | insts + [i] <= f.insts
      ensures Reaches(Steps(alu, f), State(0, map[], locals),
          State(|insts + [i]|, Computed(alu, i, locals, regs), locals))
    {
      var s, t := State(0, map[], locals), State(|insts|, regs, locals);
      assert insts <= insts + [i] <= f.insts;
      assert f.insts[|insts|] == (insts + [i])[|insts|] == i;
      assert Reaches(Steps(alu, f), s, t);
      BodyStep(alu, f, t);
      ReachesThen(Steps(alu, f), s, t);
    }
  }

  /** A label between body and return is stepped over. */
  lemma LeavesPastLabel(alu: Alu, insts: seq<Inst>, locals: seq<i64>, regs: map<nat, i64>, id: int)
    requires Leaves(alu, insts, locals, regs)
    ensures Leaves(alu, insts + [Inst(Label, 0, 0, 0, id)], locals, regs)
  {
    var i := Inst(Label, 0, 0, 0, id);
    forall f: Function | insts + [i] <= f.insts
      ensures Reaches(Steps(alu, f), State(0, map[], locals), State(|insts + [i]|, regs, locals))
    {
      var s, t := State(0, map[], locals), State(|insts|, regs, locals);
      assert insts <= insts + [i] <= f.insts;
      assert f.insts[|insts|] == (insts + [i])[|insts|] == i;
      assert Reaches(Steps(alu, f), s, t);
      assert Step(alu, f, t) == Running(State(|insts| + 1, regs, locals));
      ReachesThen(Steps(alu, f), s, t);
    }
  }

  lemma LeavesReturn(alu: Alu, f: Function, regs: map<nat, i64>, v: nat, locals: seq<i64>)
    requires |f.insts| > 0 && f.insts[|f.insts| - 1] == Inst(Return, 0, v, 0, 0) && v in regs
    requires Leaves(alu, f.insts[..|f.insts| - 1], locals, regs)
    ensures Answers(alu, f, locals, Answer(regs[v], locals))
  {
    var s, t := State(0, map[], locals), State(|f.insts| - 1, regs, locals);
    assert f.insts[..|f.insts| - 1] <= f.insts;
    assert Reaches(Steps(alu, f), s, t);
    assert Step(alu, f, t) == Returned(Answer(regs[v], locals));
    ReachesThen(Steps(alu, f), s, t);
  }

  // ----- a run, register file by register file -----

  /** The registers before the i-th instruction. */
  function RegsAt(alu: Alu, f: Function, locals: seq<i64>, i: nat): map<nat, i64>
    requires i <= |f.insts|
  {
    if i == 0 then map[] else Advanced(alu, f.insts[i - 1], locals, RegsAt(alu, f, locals, i - 1))
  }

  function Advanced(alu: Alu, i: Inst, locals: seq<i64>, regs: map<nat, i64>): map<nat, i64> {
    if Executable(i, locals, regs) then Computed(alu, i, locals, regs) else regs
  }

  /** No register is read before it is written, and no local that is not there. */
  ghost predicate DefinedAt(alu: Alu, f: Function, locals: seq<i64>, i: nat)
    requires i < |f.insts|
  {
    Executable(f.insts[i], locals, RegsAt(alu, f, locals, i))
  }

  ghost predicate AllDefined(alu: Alu, f: Function, locals: seq<i64>) {
    forall i: nat {:trigger DefinedAt(alu, f, locals, i)} :: i < |f.insts| ==> DefinedAt(alu, f, locals, i)
  }

  /** The value of the last instruction's operand. */
  function ReturnValue(alu: Alu, f: Function, locals: seq<i64>): i64
    requires IsStraightLine(f)
  {
    var regs, v := RegsAt(alu, f, locals, |f.insts| - 1), f.insts[|f.insts| - 1].src1;
    if v in regs then regs[v] else 0
  }

  /** The states a run can only pass through. */
  function States(alu: Alu, f: Function, locals: seq<i64>): seq<State> {
    seq(|f.insts|, i requires 0 <= i < |f.insts| => State(i, RegsAt(alu, f, locals, i), locals))
  }

  lemma BodyLeadsOn(alu: Alu, f: Function, locals: seq<i64>, i: nat)
    requires IsStraightLine(f) && i < |f.insts| - 1
    ensures LeadsOn(Steps(alu, f), States(alu, f, locals), i)
  {
    BodyStep(alu, f, State(i, RegsAt(alu, f, locals, i), locals));
    assert RegsAt(alu, f, locals, i + 1) == Advanced(alu, f.insts[i], locals, RegsAt(alu, f, locals, i));
  }

  lemma UnstuckDefined(alu: Alu, f: Function, locals: seq<i64>, i: nat)
    requires IsStraightLine(f) && i < |f.insts| && Steps(alu, f)(States(alu, f, locals)[i]) != Stuck
    ensures DefinedAt(alu, f, locals, i)
    ensures i == |f.insts| - 1 ==>
        Steps(alu, f)(States(alu, f, locals)[i]) ==
        Returned(Answer(ReturnValue(alu, f, locals), locals))
  {
    var s := State(i, RegsAt(alu, f, locals, i), locals);
    if i < |f.insts| - 1 { BodyStep(alu, f, s); }
  }

  /** A straight-line function that returns has read only written registers and locals that are there, and returns its
      return value. */
  lemma AnswerIsReturnValue(alu: Alu, f: Function, locals: seq<i64>, a: Answer)
    requires IsStraightLine(f) && Answers(alu, f, locals, a)
    ensures AllDefined(alu, f, locals) && a == Answer(ReturnValue(alu, f, locals), locals)
  {
    var trace, last := States(alu, f, locals), |f.insts| - 1;
    assert trace[0] == State(0, map[], locals);
    var n: nat :| Run(Steps(alu, f), trace[0], n) == Returned(a);
    forall i | 0 <= i < |trace| - 1 ensures LeadsOn(Steps(alu, f), trace, i) { BodyLeadsOn(alu, f, locals, i); }
    forall j: nat | j < |f.insts| ensures DefinedAt(alu, f, locals, j) {
      FollowsTrace(Steps(alu, f), trace, j, n);
      UnstuckDefined(alu, f, locals, j);
    }
    FollowsTrace(Steps(alu, f), trace, last, n);
    UnstuckDefined(alu, f, locals, last);
    FirstStep(Steps(alu, f), trace[last], n - last);
  }
}
