/** The baseline tier as a whole: bytecode lowered to register IR, then given machine registers. */
module Jolt {
  import opened Int64
  import V = Valuation
  import B = Bytecode
  import opened Interpreter
  import opened Machines
  import opened Tier1
  import opened Lowering
  import opened LoweredShape
  import opened LoweringCorrect
  import opened LoweringTheorem
  import opened LoopHeads
  import opened Liveness
  import opened LiveRanges
  import opened LinearScan
  import opened RegisterMachine

  // ----- lowered code is well formed -----

  predicate InstsOk(insts: seq<Inst>, count: nat) {
    forall j :: 0 <= j < |insts| ==> OperandsInRange(insts[j], count)
  }

  lemma InstsMore(insts: seq<Inst>, count: nat, inst: Inst, more: nat)
    requires InstsOk(insts, count) && count <= more && OperandsInRange(inst, more)
    ensures InstsOk(insts + [inst], more)
  {
  }

  predicate StateOk(st: LState) { StackInRange(st) && InstsOk(st.insts, st.vregs) }

  lemma PoppedOk(st: LState)
    requires StateOk(st)
    ensures StateOk(st.Popped()) && 0 < st.Top() <= st.Popped().vregs && st.vregs <= st.Popped().vregs
  {
    if |st.vstack| == 0 { InstsMore(st.insts, st.vregs, Inst(LoadConstImm, st.Fresh(), 0, 0, 0), st.vregs + 1); }
  }

  lemma InstOfInRange(p: Program, targets: seq<nat>, i: B.Instr, dst: nat, a: nat, b: nat, count: nat)
    requires i.op in LOWERED && i.op != B.Pop && (Produces(i.op) ==> 0 < dst <= count)
    requires (Pops(i.op) == 2 ==> 0 < a <= count) && (Pops(i.op) >= 1 ==> 0 < b <= count)
    ensures OperandsInRange(InstOf(p, targets, i, dst, a, b), count)
  {
  }

  lemma EmitOk(op: B.OpCode, inst: Inst, st: LState, top: nat)
    requires StateOk(st) && (op == B.StoreLocal ==> 0 < top <= st.vregs)
    requires OperandsInRange(inst, if Produces(op) then st.vregs + 1 else st.vregs)
    ensures StateOk(Emit(op, inst, st, top))
  {
    InstsMore(st.insts, st.vregs, inst, if Produces(op) then st.vregs + 1 else st.vregs);
  }

  lemma InstrOk(p: Program, targets: seq<nat>, i: B.Instr, st: LState)
    requires StateOk(st)
    ensures StateOk(LowerInstr(p, targets, i, st))
  {
    PoppedOk(st);
    if i.op in LOWERED && i.op != B.Pop {
      var st1 := if Pops(i.op) >= 1 then st.Popped() else st;
      var st2 := if Pops(i.op) == 2 then st1.Popped() else st1;
      PoppedOk(st1);
      assert StateOk(st2) && st1.vregs <= st2.vregs;
      InstOfInRange(p, targets, i, st2.Fresh(), st1.Top(), st.Top(),
          if Produces(i.op) then st2.vregs + 1 else st2.vregs);
      EmitOk(i.op, InstOf(p, targets, i, st2.Fresh(), st1.Top(), st.Top()), st2, st.Top());
    }
  }

  lemma NextOk(p: Program, targets: seq<nat>, k: nat, st: LState)
    requires StateOk(st)
    ensures StateOk(LowerNext(p, targets, k, st))
  {
    if IsInstr(p, k) {
      var labelled := WithLabel(targets, At(p, k), st);
      if At(p, k) in targets {
        InstsMore(st.insts, st.vregs, Inst(Label, 0, 0, 0, LabelOf(targets, At(p, k))), st.vregs);
      }
      assert StateOk(labelled);
      InstrOk(p, targets, InstrAt(p, k), labelled);
    }
  }

  lemma {:induction false} TraceOk(p: Program, targets: seq<nat>, trace: seq<LState>, k: nat)
    requires Walk(p, targets, trace) && k <= p.size
    ensures StateOk(trace[k])
  {
    if k > 0 {
      TraceOk(p, targets, trace, k - 1);
      NextStateOk(p, targets, trace, k - 1);
    }
  }

  lemma NextStateOk(p: Program, targets: seq<nat>, trace: seq<LState>, k: nat)
    requires Walk(p, targets, trace) && k < p.size && StateOk(trace[k])
    ensures StateOk(trace[k + 1])
  {
    assert Walked(p, targets, trace, k);
    NextOk(p, targets, k, trace[k]);
  }

  lemma LoweredWellFormed(p: Program)
    ensures WellFormed(Lowered(p))
  {
    TraceWalks(p, Targets(p));
    TraceOk(p, Targets(p), TraceOf(p, Targets(p)), p.size);
  }

  // ----- the tier -----

  /** Bytecode whose lowered form the live intervals are right for: what the interpreter returns, after however many
      rounds, the machine code returns, for every sound allocation and whatever the registers and slots hold at first.
      */
  lemma JoltPreserves(ext: V.Ext, p: Program, ra: Allocated, il: seq<Local>, tl: seq<i64>, file: File, r: IAnswer)
      returns (a: Answer)
    requires Lowerable(p) && LoopsCovered(Lowered(p)) && Sound(Lowered(p), ra) && |Lowered(p).insts| < NEVER
    requires SameLocals(il, tl) && Interprets(p, il, r)
    ensures Ends(PSteps(Meaning(ext), Lowered(p), ra), PState(0, file, tl), a) && SameAnswer(r, a)
  {
    a := LoweringPreserves(ext, p, il, tl, r);
    LoweredWellFormed(p);
    CoversIff(Lowered(p));
    AllocationPreserves(Meaning(ext), Lowered(p), ra, tl, file, a);
  }

  /** Among them: all whose jumps go forward, and all whose loops start with an empty operand stack. */
  lemma WhichAreCovered(p: Program)
    requires Lowerable(p) && (JumpsForward(p) || LoopsStartEmpty(p))
    ensures LoopsCovered(Lowered(p))
  {
    if JumpsForward(p) {
      ForwardStaysForward(p);
      ForwardCovered(Lowered(p));
    } else {
      EmptyLoopsCovered(p);
    }
  }
}
