/** Short chunks from their bytes to the answers of the interpreter and of the compiled code. */
module BytePrograms {
  import opened Int64
  import V = Valuation
  import B = Bytecode
  import opened Machines
  import opened Interpreter
  import opened DispatchLoop
  import T = Tier1
  import opened Lowering
  import opened LoweringCorrect
  import opened LoweringTheorem
  import opened LoopHeads
  import opened LiveRanges
  import LinearScan
  import opened RegisterMachine
  import opened Jolt
  import opened Baseline
  import opened Arithmetic
  import opened ByteMeaning

  type byte = B.byte

  // ----- running -----

  lemma RunNext(p: Program, s: IState, t: IState, n: nat)
    requires IStep(p, s) == Running(t)
    ensures Run(ISteps(p), s, n + 1) == Run(ISteps(p), t, n)
  {
  }

  lemma RunLast(p: Program, s: IState, a: IAnswer, n: nat)
    requires IStep(p, s) == Returned(a)
    ensures Run(ISteps(p), s, n + 1) == Returned(a)
  {
  }

  /** The constant whose index is written in these bytes. */
  predicate ConstantAt(constants: seq<Const>, a: byte, b: byte, c: byte, x: i64) {
    Index(a, b, c) < |constants| && constants[Index(a, b, c)] == IntConst(x)
  }

  // ----- what chunks answer -----

  /** LoadConst x; LoadConst y; op; Return. */
  predicate CombinesTwo(code: seq<byte>, constants: seq<Const>, op: byte, x: i64, y: i64) {
    && |code| == 10 && code[0] == 0 && code[4] == 0 && code[8] == op && code[9] == 23
    && op in {5, 6, 7, 12, 13, 14, 15, 16, 17, 18, 19}
    && ConstantAt(constants, code[1], code[2], code[3], x) && ConstantAt(constants, code[5], code[6], code[7], y)
  }

  lemma TwoLoaded(code: seq<byte>, constants: seq<Const>, x: i64, y: i64, locals: seq<Local>, n: nat)
    requires |code| >= 8 && code[0] == 0 && code[4] == 0
    requires ConstantAt(constants, code[1], code[2], code[3], x) && ConstantAt(constants, code[5], code[6], code[7], y)
    ensures Run(ISteps(Load(code, constants)), IState(0, [], locals), n + 2) ==
      Run(ISteps(Load(code, constants)), IState(8, [x, y], locals), n)
  {
    var p := Load(code, constants);
    ConstByte(code, constants, IState(0, [], locals), x);
    ConstByte(code, constants, IState(4, [x], locals), y);
    assert [] + [x] == [x] && [x] + [y] == [x, y];
    RunNext(p, IState(0, [], locals), IState(4, [x], locals), n + 1);
    RunNext(p, IState(4, [x], locals), IState(8, [x, y], locals), n);
  }

  lemma TwoCombined(code: seq<byte>, constants: seq<Const>, op: byte, x: i64, y: i64, locals: seq<Local>)
      returns (z: i64)
    requires CombinesTwo(code, constants, op, x, y)
    ensures Gives(op, x, y, z)
    ensures Run(ISteps(Load(code, constants)), IState(0, [], locals), 4) == Returned(IAnswer(z, locals))
  {
    TwoLoaded(code, constants, x, y, locals, 2);
    z := CombinedReturned(code, constants, 8, op, x, y, locals);
  }

  lemma CombinedReturned(code: seq<byte>, constants: seq<Const>, ip: nat, op: byte, x: i64, y: i64,
      locals: seq<Local>) returns (z: i64)
    requires ip + 1 < |code| && code[ip] == op && op in {5, 6, 7, 12, 13, 14, 15, 16, 17, 18, 19} && code[ip + 1] == 23
    ensures Gives(op, x, y, z)
    ensures Run(ISteps(Load(code, constants)), IState(ip, [x, y], locals), 2) == Returned(IAnswer(z, locals))
  {
    var p := Load(code, constants);
    assert [x, y][0..] == [x, y];
    z := BinaryByte(code, constants, IState(ip, [x, y], locals), x, y);
    assert [x, y][..0] + [z] == [z];
    ReturnByte(code, constants, IState(ip + 1, [z], locals));
    RunNext(p, IState(ip, [x, y], locals), IState(ip + 1, [z], locals), 1);
    RunLast(p, IState(ip + 1, [z], locals), IAnswer(z, locals), 0);
  }

  /** LoadConst x; op; Return. */
  predicate ChangesOne(code: seq<byte>, constants: seq<Const>, op: byte, x: i64) {
    && |code| == 6 && code[0] == 0 && code[4] == op && code[5] == 23 && op in {10, 11}
    && ConstantAt(constants, code[1], code[2], code[3], x)
  }

  lemma OneChanged(code: seq<byte>, constants: seq<Const>, op: byte, x: i64, locals: seq<Local>) returns (z: i64)
    requires ChangesOne(code, constants, op, x)
    ensures GivesOne(op, x, z)
    ensures Run(ISteps(Load(code, constants)), IState(0, [], locals), 3) == Returned(IAnswer(z, locals))
  {
    var p := Load(code, constants);
    ConstByte(code, constants, IState(0, [], locals), x);
    assert [] + [x] == [x];
    z := UnaryByte(code, constants, IState(4, [x], locals), x);
    assert [x][..0] + [z] == [z];
    ReturnByte(code, constants, IState(5, [z], locals));
    RunNext(p, IState(0, [], locals), IState(4, [x], locals), 2);
    RunNext(p, IState(4, [x], locals), IState(5, [z], locals), 1);
    RunLast(p, IState(5, [z], locals), IAnswer(z, locals), 0);
  }

  /** LoadConst x; StoreLocal slot; Pop; LoadLocal slot; Return. */
  predicate StoresAndLoads(code: seq<byte>, constants: seq<Const>, slot: byte, x: i64) {
    && |code| == 10 && code[0] == 0 && code[4] == 4 && code[5] == slot && code[6] == 29
    && code[7] == 2 && code[8] == slot && code[9] == 23 && ConstantAt(constants, code[1], code[2], code[3], x)
  }

  lemma Reloaded(code: seq<byte>, constants: seq<Const>, slot: byte, x: i64, after: seq<Local>)
    requires StoresAndLoads(code, constants, slot, x) && slot < |after| && after[slot] == Int(x)
    ensures Run(ISteps(Load(code, constants)), IState(6, [x], after), 3) == Returned(IAnswer(x, after))
  {
    var p := Load(code, constants);
    assert [x][..0] == [] && [] + [x] == [x];
    PopByte(code, constants, IState(6, [x], after));
    LocalByte(code, constants, IState(7, [], after));
    ReturnByte(code, constants, IState(9, [x], after));
    RunNext(p, IState(6, [x], after), IState(7, [], after), 2);
    RunNext(p, IState(7, [], after), IState(9, [x], after), 1);
    RunLast(p, IState(9, [x], after), IAnswer(x, after), 0);
  }

  lemma StoredLoaded(code: seq<byte>, constants: seq<Const>, slot: byte, x: i64, locals: seq<Local>)
    requires StoresAndLoads(code, constants, slot, x) && slot < |locals|
    ensures Run(ISteps(Load(code, constants)), IState(0, [], locals), 5) ==
      Returned(IAnswer(x, locals[slot := Int(x)]))
  {
    var p, after := Load(code, constants), locals[slot := Int(x)];
    ConstByte(code, constants, IState(0, [], locals), x);
    assert [] + [x] == [x];
    LocalByte(code, constants, IState(4, [x], locals));
    RunNext(p, IState(0, [], locals), IState(4, [x], locals), 4);
    RunNext(p, IState(4, [x], locals), IState(6, [x], after), 3);
    Reloaded(code, constants, slot, x, after);
  }

  /** LoadConst c; JumpIfFalse else; LoadConst x; Return; else: LoadConst y; Return. */
  predicate Chooses(code: seq<byte>, constants: seq<Const>, c: i64, x: i64, y: i64) {
    && |code| == 17 && code[0] == 0 && code[4..7] == [21, 0, 5] && code[7] == 0 && code[11] == 23 && code[12] == 0
    && code[16] == 23 && ConstantAt(constants, code[1], code[2], code[3], c)
    && ConstantAt(constants, code[8], code[9], code[10], x) && ConstantAt(constants, code[13], code[14], code[15], y)
  }

  lemma Chosen(code: seq<byte>, constants: seq<Const>, c: i64, x: i64, y: i64, locals: seq<Local>)
    requires Chooses(code, constants, c, x, y)
    ensures Run(ISteps(Load(code, constants)), IState(0, [], locals), 4) ==
      Returned(IAnswer(if c == 0 then y else x, locals))
  {
    var p := Load(code, constants);
    var k, z := if c == 0 then 12 else 7, if c == 0 then y else x;
    assert code[4] == code[4..7][0] && code[5] == code[4..7][1] && code[6] == code[4..7][2];
    ConstByte(code, constants, IState(0, [], locals), c);
    assert [] + [c] == [c] && [c][..0] == [] && [] + [z] == [z];
    BranchByte(code, constants, IState(4, [c], locals));
    ConstByte(code, constants, IState(k, [], locals), z);
    ReturnByte(code, constants, IState(k + 4, [z], locals));
    RunNext(p, IState(0, [], locals), IState(4, [c], locals), 3);
    RunNext(p, IState(4, [c], locals), IState(k, [], locals), 2);
    RunNext(p, IState(k, [], locals), IState(k + 4, [z], locals), 1);
    RunLast(p, IState(k + 4, [z], locals), IAnswer(z, locals), 0);
  }

  /** Jump over; LoadConst x; Return; over: LoadConst y; Return. */
  predicate JumpsOver(code: seq<byte>, constants: seq<Const>, x: i64, y: i64) {
    && |code| == 13 && code[0..3] == [20, 0, 5] && code[3] == 0 && code[7] == 23 && code[8] == 0 && code[12] == 23
    && ConstantAt(constants, code[4], code[5], code[6], x) && ConstantAt(constants, code[9], code[10], code[11], y)
  }

  lemma JumpedOver(code: seq<byte>, constants: seq<Const>, x: i64, y: i64, locals: seq<Local>)
    requires JumpsOver(code, constants, x, y)
    ensures Run(ISteps(Load(code, constants)), IState(0, [], locals), 3) == Returned(IAnswer(y, locals))
  {
    var p := Load(code, constants);
    assert code[0] == code[0..3][0] && code[1] == code[0..3][1] && code[2] == code[0..3][2];
    JumpByte(code, constants, IState(0, [], locals));
    ConstByte(code, constants, IState(8, [], locals), y);
    assert [] + [y] == [y];
    ReturnByte(code, constants, IState(12, [y], locals));
    RunNext(p, IState(0, [], locals), IState(8, [], locals), 2);
    RunNext(p, IState(8, [], locals), IState(12, [y], locals), 1);
    RunLast(p, IState(12, [y], locals), IAnswer(y, locals), 0);
  }

  // ----- which of them the lowering theorem covers -----

  /** These are the instructions, from the start to the end of the code. */
  ghost predicate Spells(p: Program, instrs: seq<B.Instr>) {
    && WellListed(p) && 0 < |instrs| && p.size < 1000 && StartOf(instrs, |instrs|) == p.size
    && forall k {:trigger SpellsAt(p, instrs, k)} :: 0 <= k < |instrs| ==> SpellsAt(p, instrs, k)
  }

  ghost predicate SpellsAt(p: Program, instrs: seq<B.Instr>, k: nat)
    requires k < |instrs|
  {
    StartOf(instrs, k) in p.listing && p.listing[StartOf(instrs, k)] == instrs[k]
  }

  function StartOf(instrs: seq<B.Instr>, k: nat): nat
    requires k <= |instrs|
  {
    if k == 0 then 0 else instrs[k - 1].next
  }

  lemma {:induction false} SpelledAt(p: Program, instrs: seq<B.Instr>, k: nat)
    requires Spells(p, instrs)
    ensures At(p, k) == if k < |instrs| then StartOf(instrs, k) else p.size
    ensures IsInstr(p, k) <==> k < |instrs|
    ensures k < |instrs| ==> InstrAt(p, k) == instrs[k]
  {
    if k > 0 { SpelledAt(p, instrs, k - 1); }
    if k < |instrs| { assert SpellsAt(p, instrs, k); }
  }

  lemma {:induction false} SpelledLength(p: Program, instrs: seq<B.Instr>, k: nat)
    requires Spells(p, instrs) && k <= |instrs|
    ensures k <= StartOf(instrs, k)
  {
    if k > 0 {
      SpelledLength(p, instrs, k - 1);
      assert SpellsAt(p, instrs, k - 1);
    }
  }

  /** Instruction k jumps to instruction m, which finds the stack that k leaves. */
  ghost predicate JumpsTo(p: Program, instrs: seq<B.Instr>, k: nat, m: nat) {
    && k < |instrs| && m < |instrs| && StartOf(instrs, m) == instrs[k].next + instrs[k].operand
    && SameStack(p, k, m)
  }

  /** An instruction of the fragment that jumps forward if at all. */
  ghost predicate IsFine(p: Program, instrs: seq<B.Instr>, k: nat)
    requires k < |instrs|
  {
    && instrs[k].op in LOWERED
    && (HasTarget(instrs[k].op) ==> instrs[k].operand >= 0 && exists m: nat :: JumpsTo(p, instrs, k, m))
  }

  lemma JumpUnique(p: Program, instrs: seq<B.Instr>, k: nat, m: nat, n: nat)
    requires Spells(p, instrs) && LeadsTo(p, k, m) && JumpsTo(p, instrs, k, n)
    ensures m == n
  {
    SpelledAt(p, instrs, k);
    SpelledAt(p, instrs, m);
    SpelledAt(p, instrs, n);
    if m <= n { AtGrows(p, m, n); } else { AtGrows(p, n, m); }
  }

  lemma SpelledDecodable(p: Program, instrs: seq<B.Instr>)
    requires Spells(p, instrs)
    requires forall k {:trigger IsFine(p, instrs, k)} :: 0 <= k < |instrs| ==> IsFine(p, instrs, k)
    ensures Decodable(p) && JumpsForward(p)
  {
    SpelledLength(p, instrs, |instrs|);
    SpelledAt(p, instrs, p.size);
    forall k: nat | IsInstr(p, k) ensures k < |instrs| && InstrAt(p, k) == instrs[k] && IsFine(p, instrs, k) {
      SpelledAt(p, instrs, k);
    }
    forall k: nat | IsInstr(p, k) && HasTarget(InstrAt(p, k).op) ensures Lands(p, k) {
      var m: nat :| JumpsTo(p, instrs, k, m);
      SpelledAt(p, instrs, m);
      assert LeadsTo(p, k, m);
    }
  }

  lemma SpelledLowerable(p: Program, instrs: seq<B.Instr>)
    requires Spells(p, instrs)
    requires forall k {:trigger IsFine(p, instrs, k)} :: 0 <= k < |instrs| ==> IsFine(p, instrs, k)
    ensures Lowerable(p) && JumpsForward(p)
  {
    SpelledDecodable(p, instrs);
    forall k: nat, m: nat | LeadsTo(p, k, m) ensures SameStack(p, k, m) {
      SpelledAt(p, instrs, k);
      assert IsFine(p, instrs, k);
      var n: nat :| JumpsTo(p, instrs, k, n);
      JumpUnique(p, instrs, k, m, n);
    }
  }

  // ----- what the compiled code answers -----

  /** Whatever registers and slots hold, the machine returns z and leaves the locals as after. */
  ghost predicate Returns(ext: V.Ext, f: T.Function, ra: LinearScan.Allocated, tl: seq<i64>, file: File, z: i64,
      after: seq<i64>) {
    Ends(PSteps(T.Meaning(ext), f, ra), PState(0, file, tl), T.Answer(z, after))
  }

  function Ints(tl: seq<i64>): seq<Local> { seq(|tl|, i requires 0 <= i < |tl| => Int(tl[i])) }

  /** Compiling a chunk whose jumps go forward. */
  method CompileForward(code: seq<byte>, constants: seq<Const>, ghost ext: V.Ext)
    returns (f: T.Function, ra: LinearScan.Allocated)
    requires Lowerable(Load(code, constants)) && JumpsForward(Load(code, constants)) && |code| < 1000
    ensures forall tl, file: File, z, after {:trigger Returns(ext, f, ra, tl, file, z, after)} ::
      Interprets(Load(code, constants), Ints(tl), IAnswer(z, Ints(after))) ==> Returns(ext, f, ra, tl, file, z, after)
  {
    WhichAreCovered(Load(code, constants));
    f, ra := CompileChunk(code, constants, ext);
    forall tl, file: File, z, after | Interprets(Load(code, constants), Ints(tl), IAnswer(z, Ints(after)))
      ensures Returns(ext, f, ra, tl, file, z, after)
    {
      assert SameLocals(Ints(tl), tl);
      assert MachineAnswers(ext, f, ra, tl, file, IAnswer(z, Ints(after)));
      var a :| Ends(PSteps(T.Meaning(ext), f, ra), PState(0, file, tl), a) && SameAnswer(IAnswer(z, Ints(after)), a);
      assert a.locals == after;
    }
  }

  lemma ReturnDecoded(code: seq<byte>, constants: seq<Const>, ip: nat)
    requires ip < |code| && code[ip] in {23, 29}
    ensures var p := Load(code, constants);
      ip in p.listing && p.listing[ip] == B.Instr(if code[ip] == 23 then B.Return else B.Pop, 0, ip + 1)
  {
  }

  lemma LocalDecoded(code: seq<byte>, constants: seq<Const>, ip: nat)
    requires ip + 2 <= |code| && code[ip] in {2, 4}
    ensures var p := Load(code, constants);
      ip in p.listing
      && p.listing[ip] == B.Instr(if code[ip] == 2 then B.LoadLocal else B.StoreLocal, code[ip + 1], ip + 2)
  {
  }

  lemma JumpDecoded(code: seq<byte>, constants: seq<Const>, ip: nat)
    requires ip + 3 <= |code| && code[ip] in {20, 21}
    ensures var p := Load(code, constants);
      ip in p.listing
      && p.listing[ip] ==
           B.Instr(if code[ip] == 20 then B.Jump else B.JumpIfFalse, Offset(code[ip + 1], code[ip + 2]), ip + 3)
  {
  }

  lemma TwoCombinedLowerable(code: seq<byte>, constants: seq<Const>, op: byte, x: i64, y: i64)
    requires CombinesTwo(code, constants, op, x, y)
    ensures Lowerable(Load(code, constants)) && JumpsForward(Load(code, constants))
  {
    var p := Load(code, constants);
    var instrs := [B.Instr(B.LoadConst, Index(code[1], code[2], code[3]), 4),
                   B.Instr(B.LoadConst, Index(code[5], code[6], code[7]), 8), B.Instr(B.OpOf(op), 0, 9),
                   B.Instr(B.Return, 0, 10)];
    DecodedConst(code, constants, 0);
    DecodedConst(code, constants, 4);
    DecodedBinary(code, constants, 8);
    ReturnDecoded(code, constants, 9);
    LoadWellListed(code, constants);
    assert SpellsAt(p, instrs, 0) && SpellsAt(p, instrs, 1) && SpellsAt(p, instrs, 2) && SpellsAt(p, instrs, 3);
    SpelledLowerable(p, instrs);
  }

  lemma OneChangedLowerable(code: seq<byte>, constants: seq<Const>, op: byte, x: i64)
    requires ChangesOne(code, constants, op, x)
    ensures Lowerable(Load(code, constants)) && JumpsForward(Load(code, constants))
  {
    var p := Load(code, constants);
    var instrs := [B.Instr(B.LoadConst, Index(code[1], code[2], code[3]), 4),
                   B.Instr(if op == 10 then B.Neg else B.Not, 0, 5), B.Instr(B.Return, 0, 6)];
    DecodedConst(code, constants, 0);
    DecodedUnary(code, constants, 4);
    ReturnDecoded(code, constants, 5);
    LoadWellListed(code, constants);
    assert SpellsAt(p, instrs, 0) && SpellsAt(p, instrs, 1) && SpellsAt(p, instrs, 2);
    SpelledLowerable(p, instrs);
  }

  lemma StoredLoadedLowerable(code: seq<byte>, constants: seq<Const>, slot: byte, x: i64)
    requires StoresAndLoads(code, constants, slot, x)
    ensures Lowerable(Load(code, constants)) && JumpsForward(Load(code, constants))
  {
    var p := Load(code, constants);
    var instrs := [B.Instr(B.LoadConst, Index(code[1], code[2], code[3]), 4), B.Instr(B.StoreLocal, slot, 6),
                   B.Instr(B.Pop, 0, 7), B.Instr(B.LoadLocal, slot, 9), B.Instr(B.Return, 0, 10)];
    DecodedConst(code, constants, 0);
    LocalDecoded(code, constants, 4);
    ReturnDecoded(code, constants, 6);
    LocalDecoded(code, constants, 7);
    ReturnDecoded(code, constants, 9);
    LoadWellListed(code, constants);
    assert SpellsAt(p, instrs, 0) && SpellsAt(p, instrs, 1) && SpellsAt(p, instrs, 2) && SpellsAt(p, instrs, 3)
        && SpellsAt(p, instrs, 4);
    SpelledLowerable(p, instrs);
  }

  // ----- the stacks of the two chunks that jump -----

  lemma {:induction false} StackAfter(p: Program, instrs: seq<B.Instr>, k: nat)
    requires Spells(p, instrs) && k <= |instrs|
    requires forall i :: 0 <= i < |instrs| ==> instrs[i].op in {B.LoadConst, B.Jump, B.JumpIfFalse, B.Return}
    requires forall i :: 0 <= i < |instrs| ==>
      (instrs[i].op == B.LoadConst <==> i + 1 < |instrs| && instrs[i + 1].op in {B.JumpIfFalse, B.Return})
    requires instrs[0].op in {B.LoadConst, B.Jump}
    ensures LowerTo(p, Targets(p), k).vstack == [] || (k > 0 && instrs[k - 1].op == B.LoadConst)
    ensures k > 0 && instrs[k - 1].op == B.LoadConst ==> |LowerTo(p, Targets(p), k).vstack| == 1
  {
    if k > 0 {
      StackAfter(p, instrs, k - 1);
      SpelledAt(p, instrs, k - 1);
      StackNext(p, Targets(p), k - 1, LowerTo(p, Targets(p), k - 1));
    }
  }

  lemma StackNext(p: Program, targets: seq<nat>, k: nat, st: LState)
    requires IsInstr(p, k) && InstrAt(p, k).op in {B.LoadConst, B.Jump, B.JumpIfFalse, B.Return}
    ensures var stack := LowerNext(p, targets, k, st).vstack;
      && (InstrAt(p, k).op == B.LoadConst && st.vstack == [] ==> |stack| == 1)
      && (InstrAt(p, k).op == B.Jump && st.vstack == [] ==> stack == [])
      && (InstrAt(p, k).op in {B.JumpIfFalse, B.Return} && |st.vstack| <= 1 ==> stack == [])
  {
  }

  lemma ChosenLowerable(code: seq<byte>, constants: seq<Const>, c: i64, x: i64, y: i64)
    requires Chooses(code, constants, c, x, y)
    ensures Lowerable(Load(code, constants)) && JumpsForward(Load(code, constants))
  {
    var p := Load(code, constants);
    var instrs := [B.Instr(B.LoadConst, Index(code[1], code[2], code[3]), 4), B.Instr(B.JumpIfFalse, 5, 7),
                   B.Instr(B.LoadConst, Index(code[8], code[9], code[10]), 11), B.Instr(B.Return, 0, 12),
                   B.Instr(B.LoadConst, Index(code[13], code[14], code[15]), 16), B.Instr(B.Return, 0, 17)];
    assert code[4] == code[4..7][0] && code[5] == code[4..7][1] && code[6] == code[4..7][2];
    DecodedConst(code, constants, 0);
    JumpDecoded(code, constants, 4);
    DecodedConst(code, constants, 7);
    ReturnDecoded(code, constants, 11);
    DecodedConst(code, constants, 12);
    ReturnDecoded(code, constants, 16);
    LoadWellListed(code, constants);
    assert SpellsAt(p, instrs, 0) && SpellsAt(p, instrs, 1) && SpellsAt(p, instrs, 2) && SpellsAt(p, instrs, 3)
        && SpellsAt(p, instrs, 4) && SpellsAt(p, instrs, 5);
    StackAfter(p, instrs, 2);
    StackAfter(p, instrs, 4);
    assert JumpsTo(p, instrs, 1, 4);
    SpelledLowerable(p, instrs);
  }

  lemma JumpedOverLowerable(code: seq<byte>, constants: seq<Const>, x: i64, y: i64)
    requires JumpsOver(code, constants, x, y)
    ensures Lowerable(Load(code, constants)) && JumpsForward(Load(code, constants))
  {
    var p := Load(code, constants);
    var instrs := [B.Instr(B.Jump, 5, 3), B.Instr(B.LoadConst, Index(code[4], code[5], code[6]), 7),
                   B.Instr(B.Return, 0, 8), B.Instr(B.LoadConst, Index(code[9], code[10], code[11]), 12),
                   B.Instr(B.Return, 0, 13)];
    assert code[0] == code[0..3][0] && code[1] == code[0..3][1] && code[2] == code[0..3][2];
    JumpDecoded(code, constants, 0);
    DecodedConst(code, constants, 3);
    ReturnDecoded(code, constants, 7);
    DecodedConst(code, constants, 8);
    ReturnDecoded(code, constants, 12);
    LoadWellListed(code, constants);
    assert SpellsAt(p, instrs, 0) && SpellsAt(p, instrs, 1) && SpellsAt(p, instrs, 2) && SpellsAt(p, instrs, 3)
        && SpellsAt(p, instrs, 4);
    JumpSpelled(p, instrs);
  }

  lemma JumpSpelled(p: Program, instrs: seq<B.Instr>)
    requires Spells(p, instrs) && |instrs| == 5 && instrs[0] == B.Instr(B.Jump, 5, 3) && instrs[2].next == 8
    requires instrs[1].op == instrs[3].op == B.LoadConst && instrs[2].op == instrs[4].op == B.Return
    ensures Lowerable(p) && JumpsForward(p)
  {
    StackAfter(p, instrs, 1);
    StackAfter(p, instrs, 3);
    assert JumpsTo(p, instrs, 0, 3);
    SpelledLowerable(p, instrs);
  }

  // ----- the interpreter and the compiler on these chunks -----

  lemma {:induction false} RunDone(p: Program, s: IState, n: nat, more: nat)
    requires Run(ISteps(p), s, n).Returned?
    ensures Run(ISteps(p), s, n + more) == Run(ISteps(p), s, n)
    decreases n
  {
    FirstStep(ISteps(p), s, n);
    if ISteps(p)(s).Running? { RunDone(p, ISteps(p)(s).state, n - 1, more); }
  }

  lemma RunsFor(p: Program, s: IState, n: nat, budget: nat)
    requires Run(ISteps(p), s, n).Returned? && n <= budget
    ensures Run(ISteps(p), s, budget) == Run(ISteps(p), s, n)
  {
    RunDone(p, s, n, budget - n);
  }

  /** The interpreter, for five turns or more. */
  method InterpretBytes(code: seq<byte>, constants: seq<Const>, locals: seq<Local>, budget: nat)
    returns (o: Outcome<IState, IAnswer>)
    requires budget >= 5
    ensures forall op: byte, x: i64, y: i64, z: i64 :: CombinesTwo(code, constants, op, x, y) && Gives(op, x, y, z) ==>
      o == Returned(IAnswer(z, locals))
    ensures forall op: byte, x: i64, z: i64 :: ChangesOne(code, constants, op, x) && GivesOne(op, x, z) ==>
      o == Returned(IAnswer(z, locals))
    ensures forall slot: byte, x: i64 :: StoresAndLoads(code, constants, slot, x) && slot < |locals| ==>
      o == Returned(IAnswer(x, locals[slot := Int(x)]))
    ensures forall c: i64, x: i64, y: i64 :: Chooses(code, constants, c, x, y) ==>
      o == Returned(IAnswer(if c == 0 then y else x, locals))
    ensures forall x: i64, y: i64 :: JumpsOver(code, constants, x, y) ==> o == Returned(IAnswer(y, locals))
  {
    var p := Load(code, constants);
    var d := new Dispatcher(p, locals);
    o := d.Dispatch(budget);
    ghost var s := IState(0, [], locals);
    forall op: byte, x: i64, y: i64, z: i64 | CombinesTwo(code, constants, op, x, y) && Gives(op, x, y, z)
      ensures o == Returned(IAnswer(z, locals))
    {
      var w := TwoCombined(code, constants, op, x, y, locals);
      GivesOnce(op, x, y, z, w);
      RunsFor(p, s, 4, budget);
    }
    forall op: byte, x: i64, z: i64 | ChangesOne(code, constants, op, x) && GivesOne(op, x, z)
      ensures o == Returned(IAnswer(z, locals))
    {
      var w := OneChanged(code, constants, op, x, locals);
      GivesOneOnce(op, x, z, w);
      RunsFor(p, s, 3, budget);
    }
    forall slot: byte, x: i64 | StoresAndLoads(code, constants, slot, x) && slot < |locals|
      ensures o == Returned(IAnswer(x, locals[slot := Int(x)]))
    {
      StoredLoaded(code, constants, slot, x, locals);
      RunsFor(p, s, 5, budget);
    }
    forall c: i64, x: i64, y: i64 | Chooses(code, constants, c, x, y)
      ensures o == Returned(IAnswer(if c == 0 then y else x, locals))
    {
      Chosen(code, constants, c, x, y, locals);
      RunsFor(p, s, 4, budget);
    }
    forall x: i64, y: i64 | JumpsOver(code, constants, x, y) ensures o == Returned(IAnswer(y, locals)) {
      JumpedOver(code, constants, x, y, locals);
      RunsFor(p, s, 3, budget);
    }
  }

  /** For all integers x and y, a chunk that combines them with a binary opcode returns what the opcode gives. */
  method CompileTwoCombined(code: seq<byte>, constants: seq<Const>, ghost ext: V.Ext, ghost op: byte, ghost x: i64,
      ghost y: i64)
    returns (f: T.Function, ra: LinearScan.Allocated)
    requires CombinesTwo(code, constants, op, x, y)
    ensures forall z, tl, file: File {:trigger Returns(ext, f, ra, tl, file, z, tl)} ::
      Gives(op, x, y, z) ==> Returns(ext, f, ra, tl, file, z, tl)
  {
    TwoCombinedLowerable(code, constants, op, x, y);
    f, ra := CompileForward(code, constants, ext);
    forall z, tl, file: File | Gives(op, x, y, z) ensures Returns(ext, f, ra, tl, file, z, tl) {
      var w := TwoCombined(code, constants, op, x, y, Ints(tl));
      GivesOnce(op, x, y, z, w);
    }
  }

  method CompileOneChanged(code: seq<byte>, constants: seq<Const>, ghost ext: V.Ext, ghost op: byte, ghost x: i64)
    returns (f: T.Function, ra: LinearScan.Allocated)
    requires ChangesOne(code, constants, op, x)
    ensures forall z, tl, file: File {:trigger Returns(ext, f, ra, tl, file, z, tl)} ::
      GivesOne(op, x, z) ==> Returns(ext, f, ra, tl, file, z, tl)
  {
    OneChangedLowerable(code, constants, op, x);
    f, ra := CompileForward(code, constants, ext);
    forall z, tl, file: File | GivesOne(op, x, z) ensures Returns(ext, f, ra, tl, file, z, tl) {
      var w := OneChanged(code, constants, op, x, Ints(tl));
      GivesOneOnce(op, x, z, w);
    }
  }

  /** Storing, dropping and loading: the local has the value afterwards. */
  method CompileStoredLoaded(code: seq<byte>, constants: seq<Const>, ghost ext: V.Ext, ghost slot: byte, ghost x: i64)
    returns (f: T.Function, ra: LinearScan.Allocated)
    requires StoresAndLoads(code, constants, slot, x)
    ensures forall tl, file: File, after {:trigger Returns(ext, f, ra, tl, file, x, after)} ::
      slot < |tl| && after == tl[slot := x] ==> Returns(ext, f, ra, tl, file, x, after)
  {
    StoredLoadedLowerable(code, constants, slot, x);
    f, ra := CompileForward(code, constants, ext);
    forall tl: seq<i64>, file: File, after | slot < |tl| && after == tl[slot := x]
      ensures Returns(ext, f, ra, tl, file, x, after)
    {
      StoredLoaded(code, constants, slot, x, Ints(tl));
      assert Ints(tl)[slot := Int(x)] == Ints(after);
    }
  }

  method CompileChosen(code: seq<byte>, constants: seq<Const>, ghost ext: V.Ext, ghost c: i64, ghost x: i64,
      ghost y: i64)
    returns (f: T.Function, ra: LinearScan.Allocated)
    requires Chooses(code, constants, c, x, y)
    ensures forall z, tl, file: File {:trigger Returns(ext, f, ra, tl, file, z, tl)} ::
      z == (if c == 0 then y else x) ==> Returns(ext, f, ra, tl, file, z, tl)
  {
    ChosenLowerable(code, constants, c, x, y);
    f, ra := CompileForward(code, constants, ext);
    forall z, tl, file: File | z == if c == 0 then y else x ensures Returns(ext, f, ra, tl, file, z, tl) {
      Chosen(code, constants, c, x, y, Ints(tl));
    }
  }

  method CompileJumpedOver(code: seq<byte>, constants: seq<Const>, ghost ext: V.Ext, ghost x: i64, ghost y: i64)
    returns (f: T.Function, ra: LinearScan.Allocated)
    requires JumpsOver(code, constants, x, y)
    ensures forall tl, file: File {:trigger Returns(ext, f, ra, tl, file, y, tl)} ::
      Returns(ext, f, ra, tl, file, y, tl)
  {
    JumpedOverLowerable(code, constants, x, y);
    f, ra := CompileForward(code, constants, ext);
    forall tl: seq<i64>, file: File ensures Returns(ext, f, ra, tl, file, y, tl) {
      JumpedOver(code, constants, x, y, Ints(tl));
    }
  }

  /** An opcode determines its result. */
  lemma GivesOnce(op: byte, x: i64, y: i64, z: i64, w: i64)
    requires op in {5, 6, 7, 12, 13, 14, 15, 16, 17, 18, 19} && Gives(op, x, y, z) && Gives(op, x, y, w)
    ensures z == w
  {
    if op == 5 { AgreesOnce(z, w, x + y); }
    if op == 6 { AgreesOnce(z, w, x - y); }
    if op == 7 { AgreesOnce(z, w, x * y); }
  }

  lemma GivesOneOnce(op: byte, x: int, z: i64, w: i64)
    requires op in {10, 11} && GivesOne(op, x, z) && GivesOne(op, x, w)
    ensures z == w
  {
    if op == 10 { AgreesOnce(z, w, 0 - x); }
  }
}
