/** What lowered code may still need at an instruction boundary is what the compile-time stack holds there. So
    the register scan is right for every loop that starts with an empty operand stack. */
module LoopHeads {
  import opened Int64
  import B = Bytecode
  import opened Interpreter
  import opened Tier1
  import opened Liveness
  import opened LiveRanges
  import opened Lowering
  import opened LoweredShape
  import opened LoweringTheorem

  predicate RegRead(i: Inst, v: nat) {
    (Reads1(i.op) && i.src1 == v) || (Reads2(i.op) && i.src2 == v)
  }

  predicate RegWritten(i: Inst, v: nat) { Writes(i) && i.dst == v }

  predicate WrittenIn(insts: seq<Inst>, a: nat, b: nat, v: nat)
    requires b <= |insts|
  {
    exists j :: a <= j < b && RegWritten(insts[j], v)
  }

  /** On the stack at st0, or computed since. */
  predicate Known(st0: LState, st: LState, v: nat) {
    v in st0.vstack || WrittenIn(st.insts, |st0.insts|, |st.insts|, v)
  }

  ghost predicate ReadsKnown(st0: LState, insts: seq<Inst>, j: nat)
    requires j < |insts|
  {
    forall v {:trigger RegRead(insts[j], v)} ::
      RegRead(insts[j], v) ==> v in st0.vstack || WrittenIn(insts, |st0.insts|, j, v)
  }

  /** Everything that the added instructions read, and everything left on the stack. */
  ghost predicate AllKnown(st0: LState, st: LState) {
    && st0.insts <= st.insts
    && (forall i :: 0 <= i < |st.vstack| ==> Known(st0, st, st.vstack[i]))
    && (forall j {:trigger ReadsKnown(st0, st.insts, j)} ::
          |st0.insts| <= j < |st.insts| ==> ReadsKnown(st0, st.insts, j))
  }

  lemma KnownLonger(st0: LState, st: LState, next: LState, v: nat)
    requires st.insts <= next.insts && Known(st0, st, v)
    ensures Known(st0, next, v)
  {
    if v !in st0.vstack {
      var j :| |st0.insts| <= j < |st.insts| && RegWritten(st.insts[j], v);
      assert RegWritten(next.insts[j], v);
    }
  }

  lemma ReadsLonger(st0: LState, insts: seq<Inst>, more: seq<Inst>, j: nat)
    requires insts <= more && j < |insts| && ReadsKnown(st0, insts, j)
    ensures ReadsKnown(st0, more, j)
  {
    forall v | RegRead(more[j], v) ensures v in st0.vstack || WrittenIn(more, |st0.insts|, j, v) {
      assert RegRead(insts[j], v);
      if v !in st0.vstack {
        var o :| |st0.insts| <= o < j && RegWritten(insts[o], v);
        assert RegWritten(more[o], v);
      }
    }
  }

  /** One instruction more, whose operands are known. */
  lemma InstKnown(st0: LState, st: LState, inst: Inst, next: LState)
    requires AllKnown(st0, st) && next.insts == st.insts + [inst]
    requires forall v :: RegRead(inst, v) ==> Known(st0, st, v)
    requires forall i :: 0 <= i < |next.vstack| ==> RegWritten(inst, next.vstack[i]) || Known(st0, st, next.vstack[i])
    ensures AllKnown(st0, next)
  {
    var n := |st.insts|;
    assert next.insts[n] == inst;
    forall i | 0 <= i < |next.vstack| ensures Known(st0, next, next.vstack[i]) {
      if Known(st0, st, next.vstack[i]) { KnownLonger(st0, st, next, next.vstack[i]); }
    }
    forall j | |st0.insts| <= j < |next.insts| ensures ReadsKnown(st0, next.insts, j) {
      if j < n {
        assert ReadsKnown(st0, st.insts, j);
        ReadsLonger(st0, st.insts, next.insts, j);
      } else {
        LastReads(st0, st, inst, next.insts);
      }
    }
  }

  lemma LastReads(st0: LState, st: LState, inst: Inst, more: seq<Inst>)
    requires more == st.insts + [inst] && forall v :: RegRead(inst, v) ==> Known(st0, st, v)
    ensures ReadsKnown(st0, more, |st.insts|)
  {
    forall v | RegRead(more[|st.insts|], v) ensures v in st0.vstack || WrittenIn(more, |st0.insts|, |st.insts|, v) {
      assert Known(st0, st, v);
      if v !in st0.vstack {
        var o :| |st0.insts| <= o < |st.insts| && RegWritten(st.insts[o], v);
        assert RegWritten(more[o], v);
      }
    }
  }

  lemma PoppedKnown(st0: LState, st: LState)
    requires AllKnown(st0, st)
    ensures AllKnown(st0, st.Popped()) && Known(st0, st.Popped(), st.Top())
    ensures forall v :: Known(st0, st, v) ==> Known(st0, st.Popped(), v)
  {
    var next := st.Popped();
    forall v | Known(st0, st, v) ensures Known(st0, next, v) { KnownLonger(st0, st, next, v); }
    if |st.vstack| == 0 {
      var zero := Inst(LoadConstImm, st.Fresh(), 0, 0, 0);
      InstKnown(st0, st, zero, next);
      assert RegWritten(next.insts[|st.insts|], st.Fresh());
    }
  }

  lemma InstOfReads(p: Program, targets: seq<nat>, i: B.Instr, dst: nat, a: nat, b: nat, v: nat)
    requires i.op in LOWERED && i.op != B.Pop && RegRead(InstOf(p, targets, i, dst, a, b), v)
    ensures (Pops(i.op) == 2 && v == a) || (Pops(i.op) >= 1 && v == b)
  {
  }

  lemma InstOfWrites(p: Program, targets: seq<nat>, i: B.Instr, dst: nat, a: nat, b: nat)
    requires i.op in LOWERED && i.op != B.Pop && Produces(i.op)
    ensures RegWritten(InstOf(p, targets, i, dst, a, b), dst)
  {
  }

  lemma EmitKnown(st0: LState, st: LState, op: B.OpCode, inst: Inst, top: nat)
    requires AllKnown(st0, st) && forall v :: RegRead(inst, v) ==> Known(st0, st, v)
    requires Produces(op) ==> RegWritten(inst, st.Fresh())
    requires op == B.StoreLocal ==> Known(st0, st, top)
    ensures AllKnown(st0, Emit(op, inst, st, top))
  {
    InstKnown(st0, st, inst, Emit(op, inst, st, top));
  }

  lemma InstrKnown(p: Program, targets: seq<nat>, i: B.Instr, st0: LState, st: LState)
    requires AllKnown(st0, st)
    ensures AllKnown(st0, LowerInstr(p, targets, i, st))
  {
    PoppedKnown(st0, st);
    if i.op in LOWERED && i.op != B.Pop {
      var st1 := if Pops(i.op) >= 1 then st.Popped() else st;
      var st2 := if Pops(i.op) == 2 then st1.Popped() else st1;
      PoppedKnown(st0, st1);
      var inst := InstOf(p, targets, i, st2.Fresh(), st1.Top(), st.Top());
      forall v | RegRead(inst, v) ensures Known(st0, st2, v) {
        InstOfReads(p, targets, i, st2.Fresh(), st1.Top(), st.Top(), v);
      }
      if Produces(i.op) { InstOfWrites(p, targets, i, st2.Fresh(), st1.Top(), st.Top()); }
      EmitKnown(st0, st2, i.op, inst, st.Top());
    }
  }

  lemma NextKnown(p: Program, targets: seq<nat>, trace: seq<LState>, k: nat)
    requires Walk(p, targets, trace) && k < p.size
    ensures AllKnown(trace[k], trace[k + 1])
  {
    var st := trace[k];
    assert Walked(p, targets, trace, k);
    assert AllKnown(st, st);
    if IsInstr(p, k) {
      var labelled := WithLabel(targets, At(p, k), st);
      if At(p, k) in targets { InstKnown(st, st, Inst(Label, 0, 0, 0, LabelOf(targets, At(p, k))), labelled); }
      InstrKnown(p, targets, InstrAt(p, k), st, labelled);
    }
  }

  // ----- paths through lowered code -----

  /** The instruction at which the walk goes on from a boundary; what is skipped only takes things off the stack. */
  lemma {:induction false} GroupFrom(p: Program, targets: seq<nat>, trace: seq<LState>, m: nat) returns (k: nat)
    requires Walk(p, targets, trace) && m <= p.size && |trace[m].insts| < |trace[p.size].insts|
    ensures m <= k < p.size && |trace[k].insts| == |trace[m].insts| < |trace[k + 1].insts|
    ensures forall v :: v in trace[k].vstack ==> v in trace[m].vstack
    decreases p.size - m
  {
    k := m;
    NextKnown(p, targets, trace, m);
    if |trace[m].insts| == |trace[m + 1].insts| {
      k := GroupFrom(p, targets, trace, m + 1);
      forall v | v in trace[m + 1].vstack ensures v in trace[m].vstack { SkippedStack(trace[m], trace[m + 1], v); }
    }
  }

  lemma SkippedStack(st: LState, next: LState, v: nat)
    requires AllKnown(st, next) && |st.insts| == |next.insts| && v in next.vstack
    ensures v in st.vstack
  {
    var i :| 0 <= i < |next.vstack| && next.vstack[i] == v;
    assert Known(st, next, next.vstack[i]);
  }

  /** The instruction that a position was lowered for. */
  lemma {:induction false} GroupOf(p: Program, targets: seq<nat>, trace: seq<LState>, n: nat, j: nat) returns (k: nat)
    requires Walk(p, targets, trace) && n <= p.size && j < |trace[n].insts|
    ensures k < n && |trace[k].insts| <= j < |trace[k + 1].insts|
  {
    k := n - 1;
    if j < |trace[k].insts| { k := GroupOf(p, targets, trace, k, j); }
  }

  /** Popping adds no jump. */
  lemma PoppedNoJump(st: LState, j: nat)
    requires |st.insts| <= j < |st.Popped().insts|
    ensures !IsJump(st.Popped().insts[j].op)
  {
  }

  /** A jump comes last of what is lowered for its instruction. */
  lemma JumpLast(p: Program, targets: seq<nat>, i: B.Instr, st: LState, j: nat)
    requires |st.insts| <= j < |LowerInstr(p, targets, i, st).insts|
        && IsJump(LowerInstr(p, targets, i, st).insts[j].op)
    ensures j == |LowerInstr(p, targets, i, st).insts| - 1 && HasTarget(i.op)
    ensures LowerInstr(p, targets, i, st).insts[j].payload == LabelOf(targets, TargetOf(i))
  {
    if i.op in LOWERED && i.op != B.Pop {
      var st1 := if Pops(i.op) >= 1 then st.Popped() else st;
      var st2 := if Pops(i.op) == 2 then st1.Popped() else st1;
      assert st.insts <= st1.insts <= st2.insts;
      var inst := InstOf(p, targets, i, st2.Fresh(), st1.Top(), st.Top());
      assert LowerInstr(p, targets, i, st).insts == st2.insts + [inst];
      if j < |st1.insts| { PoppedNoJump(st, j); } else if j < |st2.insts| { PoppedNoJump(st1, j); }
      InstOfJump(p, targets, i, st2.Fresh(), st1.Top(), st.Top());
    } else if i.op == B.Pop && |st.vstack| > 0 {
      assert false;
    }
  }

  lemma InstOfJump(p: Program, targets: seq<nat>, i: B.Instr, dst: nat, a: nat, b: nat)
    requires i.op in LOWERED && i.op != B.Pop
    ensures var inst := InstOf(p, targets, i, dst, a, b);
      IsJump(inst.op) ==> HasTarget(i.op) && inst.payload == LabelOf(targets, TargetOf(i))
  {
  }

  lemma JumpOf(p: Program, targets: seq<nat>, trace: seq<LState>, k: nat, j: nat)
    requires Walk(p, targets, trace) && k < p.size && |trace[k].insts| <= j < |trace[k + 1].insts|
        && IsJump(trace[k + 1].insts[j].op)
    ensures IsInstr(p, k) && HasTarget(InstrAt(p, k).op) && j == |trace[k + 1].insts| - 1
    ensures trace[k + 1].insts[j].payload == LabelOf(targets, TargetOf(InstrAt(p, k)))
  {
    assert Walked(p, targets, trace, k);
    JumpLast(p, targets, InstrAt(p, k), WithLabel(targets, At(p, k), trace[k]), j);
  }

  /** What was on the stack before the k-th instruction, or computed for it before the position pc. */
  predicate KnownAt(trace: seq<LState>, f: Function, k: nat, pc: nat, v: nat)
    requires k < |trace| && pc <= |f.insts|
  {
    v in trace[k].vstack || WrittenIn(f.insts, |trace[k].insts|, pc, v)
  }

  lemma ReadKnownAt(p: Program, trace: seq<LState>, f: Function, k: nat, pc: nat, v: nat)
    requires Setting(p, trace, f) && k < p.size && |trace[k].insts| <= pc < |trace[k + 1].insts| && IsRead(f, pc, v)
    ensures KnownAt(trace, f, k, pc, v)
  {
    NextKnown(p, Targets(p), trace, k);
    WalkExtends(p, Targets(p), trace, k + 1, p.size);
    assert ReadsKnown(trace[k], trace[k + 1].insts, pc) && RegRead(trace[k + 1].insts[pc], v);
    if v !in trace[k].vstack {
      var o :| |trace[k].insts| <= o < pc && RegWritten(trace[k + 1].insts[o], v);
      assert RegWritten(f.insts[o], v);
    }
  }

  /** What is on the stack afterwards and not written by the last instruction. */
  lemma StackKnownAt(p: Program, trace: seq<LState>, f: Function, k: nat, pc: nat, v: nat)
    requires Setting(p, trace, f) && k < p.size && |trace[k].insts| <= pc && pc + 1 == |trace[k + 1].insts|
    requires v in trace[k + 1].vstack && !IsWritten(f, pc, v)
    ensures pc < |f.insts| && KnownAt(trace, f, k, pc, v)
  {
    NextKnown(p, Targets(p), trace, k);
    WalkExtends(p, Targets(p), trace, k + 1, p.size);
    assert Known(trace[k], trace[k + 1], v);
    if v !in trace[k].vstack {
      var o :| |trace[k].insts| <= o < |trace[k + 1].insts| && RegWritten(trace[k + 1].insts[o], v);
      assert RegWritten(f.insts[o], v) && o != pc;
    }
  }

  lemma RestNeeds(f: Function, path: seq<nat>, v: nat)
    requires Needs(f, path, v) && |path| > 1
    ensures Needs(f, path[1..], v) && Arc(f, path[0], path[1]) && !IsWritten(f, path[0], v) && path[1] < |f.insts|
  {
    var rest := path[1..];
    assert ArcAt(f, path, 0);
    forall i | 0 <= i < |rest| - 1 ensures ArcAt(f, rest, i) && !IsWritten(f, rest[i], v) {
      assert ArcAt(f, path, i + 1);
    }
    if |rest| > 1 { assert ArcAt(f, rest, 0); }
  }

  /** Whatever a path needs is known where it starts. */
  lemma {:induction false} NeedKnown(p: Program, trace: seq<LState>, f: Function, path: seq<nat>, v: nat, k: nat)
    requires Setting(p, trace, f) && Needs(f, path, v)
    requires k < p.size && |trace[k].insts| <= path[0] < |trace[k + 1].insts|
    ensures path[0] < |f.insts| && KnownAt(trace, f, k, path[0], v)
    decreases |path|, 0
  {
    var pc := path[0];
    WalkExtends(p, Targets(p), trace, k + 1, p.size);
    if |path| == 1 {
      ReadKnownAt(p, trace, f, k, pc, v);
    } else {
      RestNeeds(f, path, v);
      if path[1] == pc + 1 < |trace[k + 1].insts| {
        NeedKnown(p, trace, f, path[1..], v, k);
        if v !in trace[k].vstack {
          var o :| |trace[k].insts| <= o < pc + 1 && RegWritten(f.insts[o], v);
          assert o != pc;
        }
      } else {
        var m := Boundary(p, trace, f, k, pc, path[1]);
        NeededOnStack(p, trace, f, path[1..], v, m);
        StackKnownAt(p, trace, f, k, pc, v);
      }
    }
  }

  /** An arc that leaves the instructions lowered for one bytecode leads to a boundary with the same stack. */
  lemma Boundary(p: Program, trace: seq<LState>, f: Function, k: nat, pc: nat, q: nat) returns (m: nat)
    requires Setting(p, trace, f) && k < p.size && |trace[k].insts| <= pc < |trace[k + 1].insts|
    requires Arc(f, pc, q) && !(q == pc + 1 < |trace[k + 1].insts|)
    ensures m <= p.size && q == |trace[m].insts| && trace[m].vstack == trace[k + 1].vstack
    ensures pc + 1 == |trace[k + 1].insts|
  {
    WalkExtends(p, Targets(p), trace, k + 1, p.size);
    if IsJump(f.insts[pc].op) && q == Target(f.insts, f.insts[pc].payload) {
      JumpOf(p, Targets(p), trace, k, pc);
      m := JumpLands(p, trace, f, k);
    } else {
      m := k + 1;
    }
  }

  /** At a boundary, only what is on the stack may still be needed. */
  lemma {:induction false} NeededOnStack(p: Program, trace: seq<LState>, f: Function, path: seq<nat>, v: nat, m: nat)
    requires Setting(p, trace, f) && Needs(f, path, v) && m <= p.size && path[0] == |trace[m].insts| < |f.insts|
    ensures v in trace[m].vstack
    decreases |path|, 1
  {
    var k := GroupFrom(p, Targets(p), trace, m);
    NeedKnown(p, trace, f, path, v, k);
  }

  // ----- loops -----

  ghost predicate JumpsForward(p: Program) {
    forall k: nat {:trigger IsInstr(p, k)} :: IsInstr(p, k) && HasTarget(InstrAt(p, k).op) ==>
        InstrAt(p, k).operand >= 0
  }

  /** Forward jumps of the bytecode become forward jumps of the IR. */
  lemma ForwardStaysForward(p: Program)
    requires Lowerable(p) && JumpsForward(p)
    ensures ForwardOnly(Lowered(p))
  {
    var trace, f := TraceOf(p, Targets(p)), Lowered(p);
    LowerableSetting(p);
    forall j: nat | j < |f.insts| && IsJump(f.insts[j].op) ensures j < Target(f.insts, f.insts[j].payload) {
      var k, m := LoopHead(p, trace, f, j);
      AtGrows(p, k, k + 1);
      if m <= k { AtGrows(p, m, k); }
    }
  }

  /** Wherever a jump goes back to, the lowerer's stack is empty. */
  ghost predicate LoopsStartEmpty(p: Program) {
    forall k: nat, m: nat {:trigger LeadsTo(p, k, m)} :: LeadsTo(p, k, m) && m <= k ==>
        LowerTo(p, Targets(p), m).vstack == []
  }

  lemma EmptyLoopsCovered(p: Program)
    requires Lowerable(p) && LoopsStartEmpty(p)
    ensures LoopsCovered(Lowered(p))
  {
    var trace, f := TraceOf(p, Targets(p)), Lowered(p);
    LowerableSetting(p);
    forall j: nat, v: nat ensures LoopCovered(f, j, v) {
      if j < |f.insts| && IsJump(f.insts[j].op) {
        var q := Target(f.insts, f.insts[j].payload);
        if q <= j && Live(f, v, q) { NothingCarried(p, trace, f, j, v); }
      }
    }
  }

  lemma NothingCarried(p: Program, trace: seq<LState>, f: Function, j: nat, v: nat)
    requires Lowerable(p) && LoopsStartEmpty(p) && Setting(p, trace, f) && trace == TraceOf(p, Targets(p))
    requires j < |f.insts| && IsJump(f.insts[j].op) && Target(f.insts, f.insts[j].payload) <= j
    ensures !Live(f, v, Target(f.insts, f.insts[j].payload))
  {
    var q := Target(f.insts, f.insts[j].payload);
    var k, m := LoopHead(p, trace, f, j);
    StartsEmpty(p, k, m);
    if Live(f, v, q) {
      var path :| Needs(f, path, v) && path[0] == q;
      NeededOnStack(p, trace, f, path, v, m);
    }
  }

  /** A jump of the lowered code goes back only where one of the bytecode does. */
  lemma LoopHead(p: Program, trace: seq<LState>, f: Function, j: nat) returns (k: nat, m: nat)
    requires Setting(p, trace, f) && j < |f.insts| && IsJump(f.insts[j].op)
    ensures k < p.size && m < p.size && LeadsTo(p, k, m)
    ensures Target(f.insts, f.insts[j].payload) == |trace[m].insts| < |f.insts|
    ensures Target(f.insts, f.insts[j].payload) <= j ==> m <= k
  {
    k := GroupOf(p, Targets(p), trace, p.size, j);
    WalkExtends(p, Targets(p), trace, k + 1, p.size);
    JumpOf(p, Targets(p), trace, k, j);
    m := JumpLands(p, trace, f, k);
    if m > k { WalkExtends(p, Targets(p), trace, k + 1, m); }
  }

  lemma StartsEmpty(p: Program, k: nat, m: nat)
    requires LoopsStartEmpty(p) && LeadsTo(p, k, m) && m <= k
    ensures LowerTo(p, Targets(p), m).vstack == []
  {
  }
}
