/** The shape of lowered code: how the walk's states extend each other, and where its labels stand. */
module LoweredShape {
  import opened Int64
  import B = Bytecode
  import opened Interpreter
  import opened Tier1
  import opened Lowering

  /** The states of the walk, one per instruction boundary. */
  ghost predicate Walk(p: Program, targets: seq<nat>, trace: seq<LState>) {
    && |trace| == p.size + 1 && trace[0] == LState([], 0, [])
    && forall k: nat {:trigger Walked(p, targets, trace, k)} :: k < p.size ==> Walked(p, targets, trace, k)
  }

  ghost predicate Walked(p: Program, targets: seq<nat>, trace: seq<LState>, k: nat)
    requires k + 1 < |trace|
  {
    trace[k + 1] == LowerNext(p, targets, k, trace[k])
  }

  ghost function TraceOf(p: Program, targets: seq<nat>): seq<LState> {
    seq(p.size + 1, k requires 0 <= k < p.size + 1 => LowerTo(p, targets, k))
  }

  lemma TraceWalks(p: Program, targets: seq<nat>)
    ensures Walk(p, targets, TraceOf(p, targets))
  {
    forall k: nat | k < p.size ensures Walked(p, targets, TraceOf(p, targets), k) {}
  }

  predicate StackInRange(st: LState) {
    forall i :: 0 <= i < |st.vstack| ==> 0 < st.vstack[i] <= st.vregs
  }

  predicate Extends(st: LState, next: LState) {
    st.insts <= next.insts && st.vregs <= next.vregs && (StackInRange(st) ==> StackInRange(next))
  }

  /** Among the instructions added for the k-th one, only the first can be a label. */
  predicate OnlyLabel(p: Program, targets: seq<nat>, k: nat, st: LState, next: LState) {
    forall j :: |st.insts| <= j < |next.insts| && next.insts[j].op == Label ==>
      j == |st.insts| && IsInstr(p, k) && At(p, k) in targets && next.insts[j].payload == LabelOf(targets, At(p, k))
  }

  /** The instructions that are added make no labels of their own. */
  predicate NoLabels(st: LState, next: LState) {
    |st.insts| <= |next.insts| && forall j :: |st.insts| <= j < |next.insts| ==> next.insts[j].op != Label
  }

  predicate Grows(st: LState, next: LState) { Extends(st, next) && NoLabels(st, next) }

  lemma PoppedGrows(st: LState)
    ensures Grows(st, st.Popped()) && (StackInRange(st) ==> 0 < st.Top() <= st.Popped().vregs)
  {
  }

  lemma EmitGrows(op: B.OpCode, inst: Inst, st: LState, top: nat)
    requires inst.op != Label && (StackInRange(st) && op == B.StoreLocal ==> 0 < top <= st.vregs)
    ensures Grows(st, Emit(op, inst, st, top))
  {
  }

  lemma GrowsTransitive(a: LState, b: LState, c: LState)
    requires Grows(a, b) && Grows(b, c)
    ensures Grows(a, c)
  {
  }

  lemma InstOfNoLabel(p: Program, targets: seq<nat>, i: B.Instr, dst: nat, a: nat, b: nat)
    ensures InstOf(p, targets, i, dst, a, b).op != Label
  {
  }

  lemma InstrGrows(p: Program, targets: seq<nat>, i: B.Instr, st: LState)
    requires StackInRange(st)
    ensures Grows(st, LowerInstr(p, targets, i, st))
  {
    PoppedGrows(st);
    if i.op in LOWERED && i.op != B.Pop {
      var st1 := if Pops(i.op) >= 1 then st.Popped() else st;
      var st2 := if Pops(i.op) == 2 then st1.Popped() else st1;
      var inst := InstOf(p, targets, i, st2.Fresh(), st1.Top(), st.Top());
      PoppedGrows(st1);
      assert Grows(st, st1) && Grows(st1, st2);
      InstOfNoLabel(p, targets, i, st2.Fresh(), st1.Top(), st.Top());
      EmitGrows(i.op, inst, st2, st.Top());
      GrowsTransitive(st, st1, st2);
      GrowsTransitive(st, st2, Emit(i.op, inst, st2, st.Top()));
    }
  }

  lemma NextExtends(p: Program, targets: seq<nat>, k: nat, st: LState)
    requires StackInRange(st)
    ensures Extends(st, LowerNext(p, targets, k, st)) && OnlyLabel(p, targets, k, st, LowerNext(p, targets, k, st))
  {
    if IsInstr(p, k) { InstrGrows(p, targets, InstrAt(p, k), WithLabel(targets, At(p, k), st)); }
  }

  lemma LabelHere(p: Program, targets: seq<nat>, k: nat, st: LState)
    requires IsInstr(p, k) && At(p, k) in targets
    ensures var next := LowerNext(p, targets, k, st).insts;
      |next| > |st.insts| && next[|st.insts|] == Inst(Label, 0, 0, 0, LabelOf(targets, At(p, k)))
  {
  }

  lemma {:induction false} WalkInRange(p: Program, targets: seq<nat>, trace: seq<LState>, k: nat)
    requires Walk(p, targets, trace) && k <= p.size
    ensures StackInRange(trace[k])
  {
    if k > 0 {
      WalkInRange(p, targets, trace, k - 1);
      StaysInRange(p, targets, trace, k - 1);
    }
  }

  lemma StaysInRange(p: Program, targets: seq<nat>, trace: seq<LState>, k: nat)
    requires Walk(p, targets, trace) && k < p.size && StackInRange(trace[k])
    ensures StackInRange(trace[k + 1])
  {
    assert Walked(p, targets, trace, k);
    NextExtends(p, targets, k, trace[k]);
  }

  lemma WalkStep(p: Program, targets: seq<nat>, trace: seq<LState>, k: nat)
    requires Walk(p, targets, trace) && k < p.size
    ensures Extends(trace[k], trace[k + 1]) && OnlyLabel(p, targets, k, trace[k], trace[k + 1])
  {
    assert Walked(p, targets, trace, k);
    WalkInRange(p, targets, trace, k);
    NextExtends(p, targets, k, trace[k]);
  }

  lemma {:induction false} WalkExtends(p: Program, targets: seq<nat>, trace: seq<LState>, j: nat, k: nat)
    requires Walk(p, targets, trace) && j <= k <= p.size
    ensures trace[j].insts <= trace[k].insts && trace[j].vregs <= trace[k].vregs
  {
    if j < k {
      WalkExtends(p, targets, trace, j, k - 1);
      WalkStep(p, targets, trace, k - 1);
    }
  }

  /** Each label stands where the walk crossed its offset, and nowhere else. */
  lemma {:induction false} LabelPlaces(p: Program, targets: seq<nat>, trace: seq<LState>, k: nat, j: nat)
      returns (m: nat)
    requires Walk(p, targets, trace) && k <= p.size && j < |trace[k].insts| && trace[k].insts[j].op == Label
    ensures m < k && IsInstr(p, m) && At(p, m) in targets && j == |trace[m].insts|
    ensures trace[k].insts[j].payload == LabelOf(targets, At(p, m))
  {
    m := k - 1;
    WalkStep(p, targets, trace, m);
    if j < |trace[m].insts| {
      m := LabelPlaces(p, targets, trace, m, j);
    }
  }

  /** A jump to the m-th instruction arrives at the first instruction lowered for it. */
  lemma TargetIs(p: Program, targets: seq<nat>, trace: seq<LState>, m: nat)
    requires WellListed(p) && Walk(p, targets, trace) && m < p.size && IsInstr(p, m) && At(p, m) in targets
    ensures |trace[m].insts| < |trace[p.size].insts|
    ensures Target(trace[p.size].insts, LabelOf(targets, At(p, m))) == |trace[m].insts|
  {
    var n, id, here := p.size, LabelOf(targets, At(p, m)), |trace[m].insts|;
    var insts := trace[n].insts;
    assert Walked(p, targets, trace, m);
    LabelHere(p, targets, m, trace[m]);
    WalkExtends(p, targets, trace, m + 1, n);
    assert insts[here] == Inst(Label, 0, 0, 0, id);
    var k := Target(insts, id);
    var o := LabelPlaces(p, targets, trace, n, k);
    LabelOfIs(targets, At(p, m));
    LabelOfIs(targets, At(p, o));
    if o < m { AtGrows(p, o, m); }
    if m < o { AtGrows(p, m, o); }
  }

  lemma WithTargetKeeps(p: Program, k: nat, found: seq<nat>)
    ensures found <= WithTarget(p, k, found)
    ensures IsInstr(p, k) && HasTarget(InstrAt(p, k).op) ==> TargetOf(InstrAt(p, k)) in WithTarget(p, k, found)
  {
  }

  /** The targets are those of the instructions walked over. */
  lemma {:induction false} TargetFound(p: Program, j: nat, k: nat)
    requires j < k && IsInstr(p, j) && HasTarget(InstrAt(p, j).op)
    ensures TargetOf(InstrAt(p, j)) in TargetsTo(p, k)
  {
    WithTargetKeeps(p, k - 1, TargetsTo(p, k - 1));
    if j < k - 1 { TargetFound(p, j, k - 1); }
  }

  /** There are no more instructions than bytes. */
  lemma InstrBound(p: Program, k: nat)
    requires WellListed(p) && WellCoded(p) && IsInstr(p, k)
    ensures k < p.size
  {
    if k >= p.size { AtGrows(p, p.size, k); }
  }
}
