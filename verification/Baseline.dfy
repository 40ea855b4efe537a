/** The baseline compiler end to end, from the bytes of a chunk to machine registers. */
module Baseline {
  import opened Int64
  import V = Valuation
  import B = Bytecode
  import opened Interpreter
  import opened Machines
  import opened Tier1
  import opened Lowering
  import opened LoweredShape
  import opened LoweringCorrect
  import opened LoweringTheorem
  import opened LoopHeads
  import opened LoweringWalk
  import opened Liveness
  import opened LiveRanges
  import opened LinearScan
  import opened RegisterMachine
  import opened Jolt

  lemma InstrSize(p: Program, targets: seq<nat>, i: B.Instr, st: LState)
    ensures |LowerInstr(p, targets, i, st).insts| <= |st.insts| + 3
  {
  }

  lemma NextSize(p: Program, targets: seq<nat>, k: nat, st: LState)
    ensures |LowerNext(p, targets, k, st).insts| <= |st.insts| + 4
  {
    if IsInstr(p, k) { InstrSize(p, targets, InstrAt(p, k), WithLabel(targets, At(p, k), st)); }
  }

  /** At most four instructions for each of the bytecode. */
  lemma {:induction false} TraceSize(p: Program, targets: seq<nat>, trace: seq<LState>, k: nat)
    requires Walk(p, targets, trace) && k <= p.size
    ensures |trace[k].insts| <= 4 * k
  {
    if k > 0 {
      TraceSize(p, targets, trace, k - 1);
      StepSize(p, targets, trace, k - 1);
    }
  }

  lemma StepSize(p: Program, targets: seq<nat>, trace: seq<LState>, k: nat)
    requires Walk(p, targets, trace) && k < p.size
    ensures |trace[k + 1].insts| <= |trace[k].insts| + 4
  {
    assert Walked(p, targets, trace, k);
    NextSize(p, targets, k, trace[k]);
  }

  lemma LoweredSize(p: Program)
    ensures |Lowered(p).insts| <= 4 * p.size
  {
    TraceWalks(p, Targets(p));
    TraceSize(p, Targets(p), TraceOf(p, Targets(p)), p.size);
  }

  /** The machine, started with any contents of registers and slots, answers as the interpreter does. */
  ghost predicate MachineAnswers(ext: V.Ext, f: Function, ra: Allocated, tl: seq<i64>, file: File, r: IAnswer) {
    exists a :: Ends(PSteps(Meaning(ext), f, ra), PState(0, file, tl), a) && SameAnswer(r, a)
  }

  /** For every chunk whose live intervals cover what its loops carry around: if the interpreter returns an integer, so
      does the compiled code. */
  method CompileChunk(code: seq<B.byte>, constants: seq<Const>, ghost ext: V.Ext) returns (f: Function, ra: Allocated)
    requires Lowerable(Load(code, constants)) && LoopsCovered(Lowered(Load(code, constants))) && |code| < 0x3FFF_FFFF
    ensures forall il, tl, file: File, r :: SameLocals(il, tl) && Interprets(Load(code, constants), il, r) ==>
      MachineAnswers(ext, f, ra, tl, file, r)
  {
    ghost var p := Load(code, constants);
    f := LowerChunk(code, constants);
    LoweredSize(p);
    ra := Allocate(f);
    forall il, tl, file: File, r | SameLocals(il, tl) && Interprets(p, il, r)
        ensures MachineAnswers(ext, f, ra, tl, file, r) {
      var a := JoltPreserves(ext, p, ra, il, tl, file, r);
    }
  }
}
