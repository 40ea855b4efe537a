/** A chunk with a loop that carries a value on the operand stack, and what it is lowered to. */
module LoopChunk {
  import B = Bytecode
  import opened Interpreter
  import opened Tier1
  import opened Lowering

  /** LoadConst 5; L: StoreLocal 0; LoadLocal 1; LoadConst 9; StoreLocal 1; Pop; JumpIfFalse L; LoadLocal 0; Return. */
  const LOOP_BYTES: seq<B.byte> :=
    [0, 0, 0, 0, 4, 0, 2, 1, 0, 0, 0, 1, 4, 1, 29, 21, 255, 242, 2, 0, 23]

  function OffsetOf(k: nat): nat
    requires k <= 9
  {
    [0, 4, 6, 8, 12, 14, 15, 18, 20, 21][k]
  }

  function CodeAt(k: nat): B.Instr
    requires k < 9
  {
    match k
    case 0 => B.Instr(B.LoadConst, 0, 4)
    case 1 => B.Instr(B.StoreLocal, 0, 6)
    case 2 => B.Instr(B.LoadLocal, 1, 8)
    case 3 => B.Instr(B.LoadConst, 1, 12)
    case 4 => B.Instr(B.StoreLocal, 1, 14)
    case 5 => B.Instr(B.Pop, 0, 15)
    case 6 => B.Instr(B.JumpIfFalse, -14, 18)
    case 7 => B.Instr(B.LoadLocal, 0, 20)
    case 8 => B.Instr(B.Return, 0, 21)
  }

  ghost predicate Listed(p: Program, k: nat) {
    k < 9 && OffsetOf(k) in p.listing && p.listing[OffsetOf(k)] == CodeAt(k)
  }

  ghost predicate LoopCode(p: Program) {
    && WellListed(p) && p.size == 21 && p.constants == [IntConst(5), IntConst(9)]
    && forall k: nat {:trigger Listed(p, k)} :: k < 9 ==> Listed(p, k)
  }

  lemma LoadedAt(p: Program, k: nat)
    requires p == Load(LOOP_BYTES, [IntConst(5), IntConst(9)]) && k < 9
    ensures Listed(p, k)
  {
    var ip := OffsetOf(k);
    assert B.Complete(LOOP_BYTES, ip) && B.Decode(LOOP_BYTES, ip) == CodeAt(k);
  }

  lemma LoadedLoop()
    ensures LoopCode(Load(LOOP_BYTES, [IntConst(5), IntConst(9)]))
  {
    var p := Load(LOOP_BYTES, [IntConst(5), IntConst(9)]);
    LoadWellListed(LOOP_BYTES, p.constants);
    forall k: nat | k < 9 ensures Listed(p, k) { LoadedAt(p, k); }
  }

  // ----- what it is lowered to -----

  lemma {:induction false} LoopAt(p: Program, k: nat)
    requires LoopCode(p)
    ensures At(p, k) == if k < 9 then OffsetOf(k) else 21
    ensures IsInstr(p, k) <==> k < 9
    ensures k < 9 ==> InstrAt(p, k) == CodeAt(k)
  {
    if k > 0 {
      LoopAt(p, k - 1);
    }
    if k < 9 { assert Listed(p, k); }
  }

  lemma {:induction false} LoopTargets(p: Program, k: nat)
    requires LoopCode(p)
    ensures TargetsTo(p, k) == if k <= 6 then [] else [4]
  {
    if k > 0 {
      LoopTargets(p, k - 1);
      LoopAt(p, k - 1);
    }
  }

  function LoopInst(j: nat): Inst
    requires j < 9
  {
    match j
    case 0 => Inst(LoadConstImm, 1, 0, 0, 5)
    case 1 => Inst(Label, 0, 0, 0, 0)
    case 2 => Inst(StoreLocal, 0, 1, 0, 0)
    case 3 => Inst(LoadLocal, 2, 0, 0, 1)
    case 4 => Inst(LoadConstImm, 3, 0, 0, 9)
    case 5 => Inst(StoreLocal, 0, 3, 0, 1)
    case 6 => Inst(BranchIfFalse, 0, 2, 0, 0)
    case 7 => Inst(LoadLocal, 4, 0, 0, 0)
    case 8 => Inst(Return, 0, 4, 0, 0)
  }

  function LoopInsts(n: nat): seq<Inst>
    requires n <= 9
  {
    seq(n, j requires 0 <= j < n => LoopInst(j))
  }

  /** The state of the walk before the k-th instruction. */
  function LoopState(k: nat): LState
    requires k <= 9
  {
    match k
    case 0 => LState(LoopInsts(0), 0, [])
    case 1 => LState(LoopInsts(1), 1, [1])
    case 2 => LState(LoopInsts(3), 1, [1])
    case 3 => LState(LoopInsts(4), 2, [1, 2])
    case 4 => LState(LoopInsts(5), 3, [1, 2, 3])
    case 5 => LState(LoopInsts(6), 3, [1, 2, 3])
    case 6 => LState(LoopInsts(6), 3, [1, 2])
    case 7 => LState(LoopInsts(7), 3, [1])
    case 8 => LState(LoopInsts(8), 4, [1, 4])
    case 9 => LState(LoopInsts(9), 4, [1])
  }

  lemma LoopInstsMore(n: nat)
    requires n < 9
    ensures LoopInsts(n + 1) == LoopInsts(n) + [LoopInst(n)]
  {
  }

  lemma LoopConst(p: Program, k: nat)
    requires LoopCode(p) && (k == 0 || k == 3)
    ensures LowerNext(p, [4], k, LoopState(k)) == LoopState(k + 1)
  {
    LoopAt(p, k);
    LoopInstsMore(|LoopState(k).insts|);
  }

  lemma LoopLocal(p: Program, k: nat)
    requires LoopCode(p) && (k == 2 || k == 7)
    ensures LowerNext(p, [4], k, LoopState(k)) == LoopState(k + 1)
  {
    LoopAt(p, k);
    LoopInstsMore(|LoopState(k).insts|);
  }

  lemma LoopStoreFirst(p: Program)
    requires LoopCode(p)
    ensures LowerNext(p, [4], 1, LoopState(1)) == LoopState(2)
  {
    LoopAt(p, 1);
    LoopInstsMore(1);
    LoopInstsMore(2);
  }

  lemma LoopStore(p: Program)
    requires LoopCode(p)
    ensures LowerNext(p, [4], 4, LoopState(4)) == LoopState(5)
  {
    LoopAt(p, 4);
    LoopInstsMore(5);
  }

  lemma LoopPop(p: Program, k: nat)
    requires LoopCode(p) && k == 5
    ensures LowerNext(p, [4], k, LoopState(k)) == LoopState(k + 1)
  {
    LoopAt(p, k);
  }

  lemma LoopBranch(p: Program, k: nat)
    requires LoopCode(p) && k == 6
    ensures LowerNext(p, [4], k, LoopState(k)) == LoopState(k + 1)
  {
    LoopAt(p, k);
    LoopInstsMore(|LoopState(k).insts|);
  }

  lemma LoopReturn(p: Program, k: nat)
    requires LoopCode(p) && k == 8
    ensures LowerNext(p, [4], k, LoopState(k)) == LoopState(k + 1)
  {
    LoopAt(p, k);
    LoopInstsMore(|LoopState(k).insts|);
  }

  lemma LoopNext(p: Program, k: nat)
    requires LoopCode(p) && k < 9
    ensures LowerNext(p, [4], k, LoopState(k)) == LoopState(k + 1)
  {
    match k
    case 0 | 3 => LoopConst(p, k);
    case 2 | 7 => LoopLocal(p, k);
    case 1 => LoopStoreFirst(p);
    case 4 => LoopStore(p);
    case 5 => LoopPop(p, k);
    case 6 => LoopBranch(p, k);
    case 8 => LoopReturn(p, k);
  }

  lemma {:induction false} LoopWalk(p: Program, k: nat)
    requires LoopCode(p)
    ensures LowerTo(p, [4], k) == if k < 9 then LoopState(k) else LoopState(9)
  {
    if k > 0 {
      LoopWalk(p, k - 1);
      if k - 1 < 9 { LoopNext(p, k - 1); } else { LoopAt(p, k - 1); }
    }
  }

  ghost predicate LoopFunction(f: Function) {
    f.insts == LoopInsts(9) && f.vregCount == 4 && f.labelCount == 1
  }

  lemma LoopLowered(p: Program)
    requires LoopCode(p)
    ensures LoopFunction(Lowered(p)) && Targets(p) == [4]
  {
    LoopTargets(p, 21);
    LoopWalk(p, 21);
  }

  // ----- it is code that the lowering theorem covers -----

  lemma LoopJump(p: Program, k: nat, m: nat)
    requires LoopCode(p)
    ensures LeadsTo(p, k, m) <==> k == 6 && m == 1
  {
    LoopAt(p, k);
    LoopAt(p, m);
  }

  lemma LoopLowerable(p: Program)
    requires LoopCode(p)
    ensures Lowerable(p)
  {
    LoopAt(p, 21);
    forall k: nat | IsInstr(p, k) ensures InstrAt(p, k).op in LOWERED { LoopAt(p, k); }
    forall k: nat | IsInstr(p, k) && HasTarget(InstrAt(p, k).op) ensures Lands(p, k) {
      LoopAt(p, k);
      LoopJump(p, k, 1);
    }
    forall k: nat, m: nat | LeadsTo(p, k, m) ensures SameStack(p, k, m) {
      LoopJump(p, k, m);
      LoopTargets(p, 21);
      LoopWalk(p, 7);
      LoopWalk(p, 1);
    }
  }
}
