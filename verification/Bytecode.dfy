/** Arc bytecode: opcodes, operand encodings, the chunk that is being emitted and the reader that decodes it. */
module Bytecode {
  import opened Powers

  type byte = x: int | 0 <= x < 256

  /** In the order of their byte values. */
  datatype OpCode =
    | LoadConst | LoadVar | LoadLocal | StoreVar | StoreLocal
    | Add | Sub | Mul | Div | Pow | Neg | Not
    | Eq | Ne | Lt | Gt | Lte | Gte | And | Or
    | Jump | JumpIfFalse
    | Call | Return
    | Break | Continue
    | IndexGet | IndexSet | BuildList | Pop
    | ForPrep | ForIter
    | TryPush | TryPop
    | Import
    | PropertyAccess | PropertySet
    | Halt
    | Invalid

  function OpOf(b: byte): OpCode {
    match b
    case 0 => LoadConst
    case 1 => LoadVar
    case 2 => LoadLocal
    case 3 => StoreVar
    case 4 => StoreLocal
    case 5 => Add
    case 6 => Sub
    case 7 => Mul
    case 8 => Div
    case 9 => Pow
    case 10 => Neg
    case 11 => Not
    case 12 => Eq
    case 13 => Ne
    case 14 => Lt
    case 15 => Gt
    case 16 => Lte
    case 17 => Gte
    case 18 => And
    case 19 => Or
    case 20 => Jump
    case 21 => JumpIfFalse
    case 22 => Call
    case 23 => Return
    case 24 => Break
    case 25 => Continue
    case 26 => IndexGet
    case 27 => IndexSet
    case 28 => BuildList
    case 29 => Pop
    case 30 => ForPrep
    case 31 => ForIter
    case 32 => TryPush
    case 33 => TryPop
    case 34 => Import
    case 35 => PropertyAccess
    case 36 => PropertySet
    case 37 => Halt
    case _ => Invalid
  }

  /** How many operand bytes follow an opcode: a constant index, a slot or count, or a jump offset. */
  function OperandBytes(op: OpCode): nat {
    match op
    case LoadConst | LoadVar | StoreVar | PropertyAccess | PropertySet | Import => 3
    case Jump | JumpIfFalse | ForIter | TryPush => 2
    case LoadLocal | StoreLocal | Call | BuildList => 1
    case _ => 0
  }

  // ----- big-endian operands -----

  function ConstIdxBytes(idx: nat): (r: seq<byte>)
    ensures |r| == 3
  {
    [idx / 0x1_0000 % 0x100, idx / 0x100 % 0x100, idx % 0x100]
  }

  function ConstIdxAt(code: seq<byte>, ip: nat): nat
    requires ip + 3 <= |code|
  {
    var hi: nat, mid: nat, lo: nat := code[ip], code[ip + 1], code[ip + 2];
    hi * 0x1_0000 + mid * 0x100 + lo
  }

  type int16 = x: int | -0x8000 <= x < 0x8000

  function ShortBytes(off: int16): (r: seq<byte>)
    ensures |r| == 2
  {
    var u := if off < 0 then off + 0x1_0000 else off;
    [u / 0x100 % 0x100, u % 0x100]
  }

  function ShortAt(code: seq<byte>, ip: nat): int16
    requires ip + 2 <= |code|
  {
    var hi: nat, lo: nat := code[ip], code[ip + 1];
    var u := hi * 0x100 + lo;
    if u < 0x8000 then u else u - 0x1_0000
  }

  lemma ThreeBytes(idx: nat)
    ensures idx / 0x1_0000 % 0x100 * 0x1_0000 + idx / 0x100 % 0x100 * 0x100 + idx % 0x100 == idx % 0x100_0000
  {
    var lo, rest := idx % 0x100, idx / 0x100;
    var mid, high := rest % 0x100, rest / 0x100;
    RemainderUnique(idx, 0x1_0000, high, mid * 0x100 + lo);
    RemainderUnique(idx, 0x100_0000, high / 0x100, high % 0x100 * 0x1_0000 + mid * 0x100 + lo);
  }

  /** The low 24 bits of a constant index are read back: the index survives exactly if it fits. */
  lemma ConstIdxRoundTrip(before: seq<byte>, idx: nat, after: seq<byte>)
    ensures var code := before + ConstIdxBytes(idx) + after;
      ConstIdxAt(code, |before|) == idx % 0x100_0000 && (ConstIdxAt(code, |before|) == idx <==> idx < 0x100_0000)
  {
    var code, bytes := before + ConstIdxBytes(idx) + after, ConstIdxBytes(idx);
    assert code[|before|] == bytes[0] && code[|before| + 1] == bytes[1] && code[|before| + 2] == bytes[2];
    ThreeBytes(idx);
  }

  lemma ShortRoundTrip(before: seq<byte>, off: int16, after: seq<byte>)
    ensures ShortAt(before + ShortBytes(off) + after, |before|) == off
  {
    var code := before + ShortBytes(off) + after;
    assert code[|before|] == ShortBytes(off)[0];
    assert code[|before| + 1] == ShortBytes(off)[1];
  }

  // ----- emitting and patching -----

  class Chunk {
    var code: seq<byte>

    constructor ()
      ensures code == []
    {
      code := [];
    }

    method EmitByte(b: byte)
      modifies this
      ensures code == old(code) + [b]
    {
      code := code + [b];
    }

    method EmitConstIdx(idx: nat)
      modifies this
      ensures code == old(code) + [idx / 65536 % 256, idx / 256 % 256, idx % 256]
      ensures ConstIdxAt(code, |old(code)|) == idx % 0x100_0000
    {
      ghost var before := code;
      code := code + [idx / 0x1_0000 % 0x100];
      code := code + [idx / 0x100 % 0x100];
      code := code + [idx % 0x100];
      assert code == before + ConstIdxBytes(idx) + [];
      ConstIdxRoundTrip(before, idx, []);
    }

    method EmitShort(off: int16)
      modifies this
      ensures code == old(code) + [off % 65536 / 256, off % 256] && ShortAt(code, |old(code)|) == off
    {
      ghost var before := code;
      var bytes := ShortBytes(off);
      code := code + [bytes[0]];
      code := code + [bytes[1]];
      assert code == before + ShortBytes(off) + [];
      ShortRoundTrip(before, off, []);
    }

    /** Overwrites a jump offset once its target is known; out of range it does nothing. */
    method PatchShort(offset: nat, v: int16)
      modifies this
      ensures |code| == |old(code)|
      ensures offset + 1 < |code| ==> ShortAt(code, offset) == v
      ensures code == if offset + 1 < |old(code)| then old(code)[offset := v % 65536 / 256][offset + 1 := v % 256]
          else old(code)
    {
      if offset + 1 < |code| {
        var bytes := ShortBytes(v);
        code := code[offset := bytes[0]];
        code := code[offset + 1 := bytes[1]];
        assert code == code[..offset] + ShortBytes(v) + code[offset + 2..];
        ShortRoundTrip(code[..offset], v, code[offset + 2..]);
      }
    }
  }

  // ----- decoding -----

  /** The instruction at ip: its opcode, its operand, and where the next one starts. */
  datatype Instr = Instr(op: OpCode, operand: int, next: nat)

  predicate Complete(code: seq<byte>, ip: nat) {
    ip < |code| && ip + 1 + OperandBytes(OpOf(code[ip])) <= |code|
  }

  function Decode(code: seq<byte>, ip: nat): (i: Instr)
    requires Complete(code, ip)
    ensures ip < i.next <= |code|
  {
    var op := OpOf(code[ip]);
    var n := OperandBytes(op);
    var operand: int :=
      if n == 3 then ConstIdxAt(code, ip + 1)
      else if n == 2 then ShortAt(code, ip + 1)
      else if n == 1 then code[ip + 1]
      else 0;
    Instr(op, operand, ip + 1 + n)
  }

  /** The instruction that starts at each offset, were it decoded there. */
  function Listing(code: seq<byte>): map<nat, Instr> {
    map ip: nat | ip < |code| && Complete(code, ip) :: Decode(code, ip)
  }

  class Reader {
    const bytes: seq<byte>
    var ip: nat

    constructor (code: seq<byte>)
      ensures bytes == code && ip == 0
    {
      bytes, ip := code, 0;
    }

    method ReadByte() returns (b: byte)
      requires ip < |bytes|
      modifies this
      ensures b == bytes[old(ip)] && ip == old(ip) + 1
    {
      b := bytes[ip];
      ip := ip + 1;
    }

    method ReadOp() returns (op: OpCode)
      requires ip < |bytes|
      modifies this
      ensures op == OpOf(bytes[old(ip)]) && ip == old(ip) + 1
    {
      var b := ReadByte();
      op := OpOf(b);
    }

    method ReadConstIdx() returns (idx: nat)
      requires ip + 3 <= |bytes|
      modifies this
      ensures idx == bytes[old(ip)] as nat * 65536 + bytes[old(ip) + 1] as nat * 256 + bytes[old(ip) + 2] as nat
      ensures idx == ConstIdxAt(bytes, old(ip)) && ip == old(ip) + 3
    {
      idx := ConstIdxAt(bytes, ip);
      ip := ip + 3;
    }

    method ReadShort() returns (off: int16)
      requires ip + 2 <= |bytes|
      modifies this
      ensures var u := bytes[old(ip)] as int * 256 + bytes[old(ip) + 1] as int;
        off == if bytes[old(ip)] < 128 then u else u - 65536
      ensures off == ShortAt(bytes, old(ip)) && ip == old(ip) + 2
    {
      off := ShortAt(bytes, ip);
      ip := ip + 2;
    }
  }
}
