/** What the interpreter does at each byte of a chunk: opcodes, operands and results with all numbers written out. */
module ByteMeaning {
  import opened Int64
  import B = Bytecode
  import opened Machines
  import opened Interpreter
  import opened Arithmetic

  type byte = B.byte

  // ----- operands -----

  /** Three bytes, the highest first. */
  function Index(a: byte, b: byte, c: byte): nat {
    var hi: nat, mid: nat, lo: nat := a, b, c;
    hi * 65536 + mid * 256 + lo
  }

  /** Two bytes, the higher first, read as a signed number. */
  function Offset(a: byte, b: byte): int {
    var hi: nat, lo: nat := a, b;
    if hi < 128 then hi * 256 + lo else hi * 256 + lo - 65536
  }

  /** Where the instruction after the one at ip starts: opcodes 0, 1, 3, 34, 35 and 36 have three operand bytes, 20, 21,
      31 and 32 two, and 2, 4, 22 and 28 one. */
  lemma InstructionLengths(code: seq<byte>, ip: nat)
    requires ip < |code|
    ensures var b := code[ip];
      var next := ip + (if b in {0, 1, 3, 34, 35, 36} then 4 else if b in {20, 21, 31, 32} then 3
                        else if b in {2, 4, 22, 28} then 2 else 1);
      && (ip in Load(code, []).listing <==> next <= |code|)
      && (next <= |code| ==> Load(code, []).listing[ip].next == next)
  {
  }

  // ----- one step -----

  /** What a binary opcode puts in the place of x and y. */
  predicate Gives(b: byte, x: i64, y: i64, z: i64) {
    && (b == 5 ==> Agrees(z, x + y)) && (b == 6 ==> Agrees(z, x - y)) && (b == 7 ==> Agrees(z, x * y))
    && (b == 12 ==> z == if x == y then 1 else 0) && (b == 13 ==> z == if x == y then 0 else 1)
    && (b == 14 ==> z == if x < y then 1 else 0) && (b == 15 ==> z == if x > y then 1 else 0)
    && (b == 16 ==> z == if x > y then 0 else 1) && (b == 17 ==> z == if x < y then 0 else 1)
    && (b == 18 ==> z == if x == 0 || y == 0 then 0 else 1)
    && (b == 19 ==> z == if x == 0 && y == 0 then 0 else 1)
  }

  /** Opcodes 5 to 7 and 12 to 19 combine the two values on top of the stack, the lower one first. */
  lemma BinaryByte(code: seq<byte>, constants: seq<Const>, s: IState, x: i64, y: i64) returns (z: i64)
    requires s.ip < |code| && code[s.ip] in {5, 6, 7, 12, 13, 14, 15, 16, 17, 18, 19}
    requires |s.stack| >= 2 && s.stack[|s.stack| - 2..] == [x, y]
    ensures Gives(code[s.ip], x, y, z)
    ensures IStep(Load(code, constants), s) ==
      Running(IState(s.ip + 1, s.stack[..|s.stack| - 2] + [z], s.locals))
  {
    var n := |s.stack|;
    assert s.stack[n - 2] == s.stack[n - 2..][0] == x && s.stack[n - 1] == s.stack[n - 2..][1] == y;
    z := CombinedByte(code[s.ip], x, y);
    DecodedBinary(code, constants, s.ip);
  }

  lemma CombinedByte(b: byte, x: i64, y: i64) returns (z: i64)
    requires b in {5, 6, 7, 12, 13, 14, 15, 16, 17, 18, 19}
    ensures IsBinaryOpCode(B.OpOf(b)) && z == Arith(B.OpOf(b), x, y) && Gives(b, x, y, z)
  {
    InterpreterArithmetic(x, y);
    z := Arith(B.OpOf(b), x, y);
  }

  lemma DecodedBinary(code: seq<byte>, constants: seq<Const>, ip: nat)
    requires ip < |code| && code[ip] in {5, 6, 7, 12, 13, 14, 15, 16, 17, 18, 19}
    ensures var p := Load(code, constants);
      ip in p.listing && p.listing[ip] == B.Instr(B.OpOf(code[ip]), 0, ip + 1)
  {
  }

  /** What a unary opcode puts in the place of x. */
  predicate GivesOne(b: byte, x: int, z: i64) {
    (b == 10 ==> Agrees(z, 0 - x)) && (b == 11 ==> z == if x == 0 then 1 else 0)
  }

  /** Opcode 10 negates the value on top of the stack, 11 tells whether it is zero. */
  lemma UnaryByte(code: seq<byte>, constants: seq<Const>, s: IState, x: i64) returns (z: i64)
    requires s.ip < |code| && code[s.ip] in {10, 11} && |s.stack| >= 1 && s.stack[|s.stack| - 1] == x
    ensures GivesOne(code[s.ip], x, z)
    ensures IStep(Load(code, constants), s) ==
      Running(IState(s.ip + 1, s.stack[..|s.stack| - 1] + [z], s.locals))
  {
    z := OneByte(code[s.ip], x);
    DecodedUnary(code, constants, s.ip);
  }

  lemma OneByte(b: byte, x: i64) returns (z: i64)
    requires b in {10, 11}
    ensures GivesOne(b, x, z) && z == if b == 10 then Negate(x) else if Truthy(x) then 0 else 1
  {
    NegationModulo(x);
    z := if b == 10 then Negate(x) else if x == 0 then 1 else 0;
  }

  lemma DecodedUnary(code: seq<byte>, constants: seq<Const>, ip: nat)
    requires ip < |code| && code[ip] in {10, 11}
    ensures var p := Load(code, constants);
      ip in p.listing && p.listing[ip] == B.Instr(if code[ip] == 10 then B.Neg else B.Not, 0, ip + 1)
  {
  }

  /** Opcode 29 drops the value on top of the stack. */
  lemma PopByte(code: seq<byte>, constants: seq<Const>, s: IState)
    requires s.ip < |code| && code[s.ip] == 29 && |s.stack| >= 1
    ensures IStep(Load(code, constants), s) == Running(IState(s.ip + 1, s.stack[..|s.stack| - 1], s.locals))
  {
  }

  /** Opcode 0 pushes the constant whose index follows. */
  lemma ConstByte(code: seq<byte>, constants: seq<Const>, s: IState, x: i64)
    requires s.ip + 4 <= |code| && code[s.ip] == 0
    requires var i := Index(code[s.ip + 1], code[s.ip + 2], code[s.ip + 3]);
      i < |constants| && constants[i] == IntConst(x)
    ensures IStep(Load(code, constants), s) == Running(IState(s.ip + 4, s.stack + [x], s.locals))
  {
    DecodedConst(code, constants, s.ip);
  }

  lemma DecodedConst(code: seq<byte>, constants: seq<Const>, ip: nat)
    requires ip + 4 <= |code| && code[ip] == 0
    ensures var p := Load(code, constants);
      ip in p.listing && p.listing[ip] == B.Instr(B.LoadConst, Index(code[ip + 1], code[ip + 2], code[ip + 3]), ip + 4)
  {
  }

  /** Opcode 2 pushes the local whose number follows, opcode 4 stores the value on top of the stack there and keeps it.
      */
  lemma LocalByte(code: seq<byte>, constants: seq<Const>, s: IState)
    requires s.ip + 2 <= |code| && code[s.ip] in {2, 4}
    ensures var n, p, slot := |s.stack|, Load(code, constants), code[s.ip + 1];
      && (code[s.ip] == 2 && slot < |s.locals| && s.locals[slot].Int? ==>
            IStep(p, s) == Running(IState(s.ip + 2, s.stack + [s.locals[slot].value], s.locals)))
      && (code[s.ip] == 4 && slot < |s.locals| && n >= 1 ==>
            IStep(p, s) == Running(IState(s.ip + 2, s.stack, s.locals[slot := Int(s.stack[n - 1])])))
  {
  }

  /** Opcode 20 jumps by the offset that follows, counted from the next instruction. */
  lemma JumpByte(code: seq<byte>, constants: seq<Const>, s: IState)
    requires s.ip + 3 <= |code| && code[s.ip] == 20
    requires s.ip + 3 + Offset(code[s.ip + 1], code[s.ip + 2]) >= 0
    ensures IStep(Load(code, constants), s) ==
      Running(IState(s.ip + 3 + Offset(code[s.ip + 1], code[s.ip + 2]), s.stack, s.locals))
  {
  }

  /** Opcode 21 takes the value on top of the stack, and jumps exactly if that is zero. */
  lemma BranchByte(code: seq<byte>, constants: seq<Const>, s: IState)
    requires s.ip + 3 <= |code| && code[s.ip] == 21 && |s.stack| >= 1
    requires s.ip + 3 + Offset(code[s.ip + 1], code[s.ip + 2]) >= 0
    ensures var n := |s.stack|;
      IStep(Load(code, constants), s) == Running(IState(
        s.ip + 3 + (if s.stack[n - 1] == 0 then Offset(code[s.ip + 1], code[s.ip + 2]) else 0),
        s.stack[..n - 1], s.locals))
  {
  }

  /** Opcode 23 returns the value on top of the stack. */
  lemma ReturnByte(code: seq<byte>, constants: seq<Const>, s: IState)
    requires s.ip < |code| && code[s.ip] == 23 && |s.stack| >= 1
    ensures IStep(Load(code, constants), s) == Returned(IAnswer(s.stack[|s.stack| - 1], s.locals))
  {
  }

  /** Everything else gets stuck: the end of the code, opcodes that work on other values, and too few operands. */
  lemma StuckByte(code: seq<byte>, constants: seq<Const>, s: IState)
    requires s.ip < |code| ==>
      || code[s.ip] !in {0, 2, 4, 5, 6, 7, 10, 11, 12, 13, 14, 15, 16, 17, 18, 19, 20, 21, 23, 29}
      || (code[s.ip] in {5, 6, 7, 12, 13, 14, 15, 16, 17, 18, 19} && |s.stack| < 2)
      || (code[s.ip] in {4, 10, 11, 21, 23, 29} && |s.stack| < 1)
    ensures IStep(Load(code, constants), s) == Stuck
  {
  }
}
