/** What every layer's arithmetic is in terms of ordinary integers: the results modulo 2^64, and the truth values 0
    and 1, with all numbers written out. */
module Arithmetic {
  import opened SeaOfNodes
  import opened Int64
  import opened Valuation
  import opened PassCore
  import opened FoldPasses
  import B = Bytecode
  import I = Interpreter
  import P = Powers
  import T = Tier1

  /** The same number modulo 2^64, and the only one of its class that 64 bits can hold. */
  predicate Agrees(r: int, x: int) {
    -0x8000_0000_0000_0000 <= r < 0x8000_0000_0000_0000 && (r - x) % 0x1_0000_0000_0000_0000 == 0
  }

  /** A 64-bit number is determined by its class. */
  lemma AgreesOnce(r: int, s: int, x: int)
    requires Agrees(r, x) && Agrees(s, x)
    ensures r == s
  {
    assert (r - x) - (s - x) == r - s;
    assert (r - s) % 0x1_0000_0000_0000_0000 == 0;
  }

  /** Truncation is congruent to what is truncated, whatever its size. */
  lemma WrapAgrees(x: int)
    ensures Agrees(Wrap(x), x)
  {
  }

  // ----- the machine's operations -----

  /** Sums, differences and products of any size, and the negation of any number. */
  lemma RingModulo(x: i64, y: i64)
    ensures Agrees(Binary(Add, x, y), x + y) && Agrees(Binary(Sub, x, y), x - y) && Agrees(Binary(Mul, x, y), x * y)
    ensures Agrees(Unary(Neg, x), 0 - x)
  {
    WrapAgrees(x + y);
    WrapAgrees(x - y);
    WrapAgrees(x * y);
    NegationModulo(x);
  }

  lemma NegationModulo(x: int)
    ensures Agrees(Negate(x), 0 - x)
  {
    WrapAgrees(0 - x);
  }

  lemma TruthValues(x: i64, y: i64)
    ensures Binary(Eq, x, y) == (if x == y then 1 else 0) && Binary(Ne, x, y) == (if x == y then 0 else 1)
    ensures Binary(Lt, x, y) == (if x < y then 1 else 0) && Binary(Gt, x, y) == (if x > y then 1 else 0)
    ensures Binary(Lte, x, y) == (if x > y then 0 else 1) && Binary(Gte, x, y) == (if x < y then 0 else 1)
    ensures Binary(And, x, y) == (if x == 0 || y == 0 then 0 else 1)
    ensures Binary(Or, x, y) == (if x == 0 && y == 0 then 0 else 1)
    ensures Unary(Not, x) == (if x == 0 then 1 else 0) && Unary(ToBool, x) == (if x == 0 then 0 else 1)
  {
  }

  /** A left shift by one more doubles, a right shift by one more halves downward; a shift by nothing keeps the number,
      and only the low six bits of the count matter. */
  lemma ShiftsByOne(x: i64, k: nat)
    requires k < 63
    ensures Binary(Shl, x, 0) == x && Binary(Shr, x, 0) == x
    ensures Agrees(Binary(Shl, x, k + 1), 2 * Binary(Shl, x, k))
    ensures 2 * Binary(Shr, x, k + 1) <= Binary(Shr, x, k) <= 2 * Binary(Shr, x, k + 1) + 1
  {
    WrapInRange(x);
    LeftByOne(x, k);
    RightByOne(x, k);
  }

  lemma LeftByOne(x: i64, k: nat)
    requires k < 63
    ensures Agrees(Binary(Shl, x, k + 1), 2 * Binary(Shl, x, k))
  {
    LeftShifted(x, Pow2(k), Pow2(k + 1), Binary(Shl, x, k), Binary(Shl, x, k + 1));
  }

  lemma LeftShifted(x: int, a: int, b: int, r: i64, t: i64)
    requires b == 2 * a && r == Wrap(x * a) && t == Wrap(x * b)
    ensures Agrees(t, 2 * r)
  {
    Doubled(x, a, b);
    DoubledWrap(x * a, x * b);
  }

  lemma Doubled(x: int, a: int, b: int)
    requires b == 2 * a
    ensures x * b == 2 * (x * a)
  {
  }

  lemma DoubledWrap(p: int, q: int)
    requires q == 2 * p
    ensures Agrees(Wrap(q), 2 * Wrap(p))
  {
    WrapAgrees(p);
    WrapAgrees(q);
    DoubledClass(Wrap(q), Wrap(p), p);
  }

  lemma DoubledClass(r: int, s: int, p: int)
    requires Agrees(r, 2 * p) && Agrees(s, p)
    ensures Agrees(r, 2 * s)
  {
    var m: int := 0x1_0000_0000_0000_0000;
    var a, b := (r - 2 * p) / m, (s - p) / m;
    assert r - 2 * p == m * a && s - p == m * b;
    Multiple(r - 2 * s, a - 2 * b);
  }

  lemma Multiple(x: int, q: int)
    requires x == 0x1_0000_0000_0000_0000 * q
    ensures x % 0x1_0000_0000_0000_0000 == 0
  {
  }

  /** A right shift by k rounds the quotient by a power of two down, and the next power is twice as large. */
  lemma RightShiftParts(x: i64, k: nat) returns (d: nat, e: nat)
    requires k < 63
    ensures d > 0 && e == 2 * d && Binary(Shr, x, k) == Wrap(x / d) && Binary(Shr, x, k + 1) == Wrap(x / e)
  {
    d, e := Pow2(k), Pow2(k + 1);
    SmallCount(k);
    SmallCount(k + 1);
  }

  lemma SmallCount(k: nat)
    requires k < 64
    ensures ShiftCount(k) == k
  {
  }

  lemma RightByOne(x: i64, k: nat)
    requires k < 63
    ensures 2 * Binary(Shr, x, k + 1) <= Binary(Shr, x, k) <= 2 * Binary(Shr, x, k + 1) + 1
  {
    var d, e := RightShiftParts(x, k);
    RightShifted(x, d, e, Wrap(x / d), Wrap(x / e));
  }

  lemma RightShifted(x: i64, d: nat, e: nat, r: i64, t: i64)
    requires d > 0 && e == 2 * d && r == Wrap(x / d) && t == Wrap(x / e)
    ensures 2 * t <= r <= 2 * t + 1
  {
    HalvedQuotient(x, d);
    QuotientInRange(x, d);
    QuotientInRange(x, e);
    WrapInRange(x / d);
    WrapInRange(x / e);
  }

  lemma HalvedQuotient(x: int, d: nat)
    requires d > 0
    ensures 2 * (x / (2 * d)) <= x / d <= 2 * (x / (2 * d)) + 1
  {
    var q, r := x / (2 * d), x % (2 * d);
    assert x == d * (2 * q) + r;
    if r < d { QuotientIs(x, d, 2 * q, r); } else { QuotientIs(x, d, 2 * q + 1, r - d); }
  }

  lemma QuotientIs(x: int, d: nat, q: int, t: int)
    requires d > 0 && x == d * q + t && 0 <= t < d
    ensures x / d == q
  {
    P.RemainderUnique(x, d, q, t);
  }

  lemma QuotientInRange(x: int, d: nat)
    requires d > 0 && IsI64(x)
    ensures IsI64(x / d)
  {
    P.DivideBounds(x, d);
  }

  lemma ShiftCounts(x: i64, y: i64, z: i64)
    requires (y - z) % 64 == 0
    ensures Binary(Shl, x, y) == Binary(Shl, x, z) && Binary(Shr, x, y) == Binary(Shr, x, z)
  {
    SameRemainder(y, z);
  }

  lemma SameRemainder(y: int, z: int)
    requires (y - z) % 64 == 0
    ensures y % 64 == z % 64
  {
  }

  /** Division truncates: the remainder is smaller than the divisor and has the dividend's sign. */
  lemma DivisionTruncates(x: i64, y: i64)
    ensures y == 0 ==> Binary(Div, x, y) == x
    ensures y != 0 ==> exists q: int, r: int :: TruncatedBy(x, y, q, r) && Agrees(Binary(Div, x, y), q)
  {
    if y == 0 {
      WrapInRange(x);
    } else {
      var r := QuotientTruncates(x, y);
      WrapAgrees(Quotient(x, y));
    }
  }

  lemma QuotientTruncates(x: int, y: int) returns (r: int)
    requires y != 0
    ensures TruncatedBy(x, y, Quotient(x, y), r)
  {
    var a: int, d: int := Abs(x), Abs(y);
    P.Division(a, d);
    r := if x >= 0 then a % d else 0 - a % d;
    ProductOfQuotient(x, y, a / d);
    TruncatedParts(x, y, Quotient(x, y), r, d * (a / d), a % d);
  }

  lemma TruncatedParts(x: int, y: int, q: int, r: int, w: int, t: int)
    requires q * y == (if x >= 0 then w else 0 - w) && r == (if x >= 0 then t else 0 - t)
    requires (if x < 0 then 0 - x else x) == w + t && 0 <= t < (if y < 0 then 0 - y else y)
    requires w >= 0
    ensures TruncatedBy(x, y, q, r)
  {
  }

  /** With its signs back, the quotient times the divisor. */
  lemma ProductOfQuotient(x: int, y: int, q: int)
    requires y != 0 && q == Abs(x) / Abs(y)
    ensures Quotient(x, y) * y == if x >= 0 then Abs(y) * q else 0 - Abs(y) * q
    ensures Abs(y) * q >= 0
  {
    QuotientSigned(x, y, q);
    ProductParts(x, y, q, Quotient(x, y));
  }

  lemma QuotientSigned(x: int, y: int, q: int)
    requires y != 0 && q == Abs(x) / Abs(y)
    ensures Quotient(x, y) == (if (x >= 0) == (y > 0) then q else 0 - q) && q >= 0
  {
    P.DivideBounds(Abs(x), Abs(y));
  }

  lemma ProductParts(x: int, y: int, q: int, s: int)
    requires y != 0 && q >= 0 && s == if (x >= 0) == (y > 0) then q else 0 - q
    ensures s * y == if x >= 0 then Abs(y) * q else 0 - Abs(y) * q
    ensures Abs(y) * q >= 0
  {
    Signs(y, q);
    if y > 0 { NonNegative(y, q); } else { NonNegative(0 - y, q); }
  }

  lemma NonNegative(a: int, b: int)
    requires a >= 0 && b >= 0
    ensures a * b >= 0
  {
  }

  lemma Signs(y: int, q: int)
    ensures (0 - q) * y == 0 - y * q && (0 - y) * q == 0 - y * q && q * y == y * q
  {
  }

  predicate TruncatedBy(x: int, y: int, q: int, r: int) {
    && x == q * y + r && (r == 0 || (r > 0 <==> x > 0))
    && (if r < 0 then -r else r) < (if y < 0 then -y else y)
  }

  // ----- congruence -----

  /** Operands may be replaced by any of their class. */
  lemma RingCongruent(a: int, b: int, x: int, y: int)
    requires Agrees(a, x) && Agrees(b, y)
    ensures Agrees(Wrap(a + b), x + y) && Agrees(Wrap(a - b), x - y) && Agrees(Wrap(a * b), x * y)
  {
    var m: int := 0x1_0000_0000_0000_0000;
    var p, q := (a - x) / m, (b - y) / m;
    Moved(a, x, p);
    Moved(b, y, q);
    ProductMoved(x, y, p, q);
    WrapMoved(a + b, x + y, p + q);
    WrapMoved(a - b, x - y, p - q);
    WrapMoved(a * b, x * y, x * q + y * p + m * (p * q));
  }

  lemma Moved(a: int, x: int, p: int)
    requires (a - x) % 0x1_0000_0000_0000_0000 == 0 && p == (a - x) / 0x1_0000_0000_0000_0000
    ensures a == x + 0x1_0000_0000_0000_0000 * p
  {
  }

  lemma ProductMoved(x: int, y: int, p: int, q: int)
    ensures var m: int := 0x1_0000_0000_0000_0000;
      (x + m * p) * (y + m * q) == x * y + m * (x * q + y * p + m * (p * q))
  {
    var m: int := 0x1_0000_0000_0000_0000;
    assert (m * p) * (m * q) == m * (m * (p * q));
    assert x * (m * q) == m * (x * q) && (m * p) * y == m * (y * p);
    assert (x + m * p) * (y + m * q) == x * y + x * (m * q) + (m * p) * y + (m * p) * (m * q);
  }

  lemma WrapMoved(c: int, z: int, k: int)
    requires c == z + 0x1_0000_0000_0000_0000 * k
    ensures Agrees(Wrap(c), z)
  {
    var m: int := 0x1_0000_0000_0000_0000;
    WrapAgrees(c);
    var j := (Wrap(c) - c) / m;
    Moved(Wrap(c), c, j);
    Multiple(Wrap(c) - z, j + k);
  }

  // ----- the interpreter and the register IR -----

  /** Opcode by opcode, what the interpreter computes. */
  lemma InterpreterArithmetic(a: i64, b: i64)
    ensures Agrees(I.Arith(B.Add, a, b), a + b) && Agrees(I.Arith(B.Sub, a, b), a - b)
    ensures Agrees(I.Arith(B.Mul, a, b), a * b)
    ensures I.Arith(B.Eq, a, b) == (if a == b then 1 else 0) && I.Arith(B.Ne, a, b) == (if a == b then 0 else 1)
    ensures I.Arith(B.Lt, a, b) == (if a < b then 1 else 0) && I.Arith(B.Gt, a, b) == (if a > b then 1 else 0)
    ensures I.Arith(B.Lte, a, b) == (if a > b then 0 else 1) && I.Arith(B.Gte, a, b) == (if a < b then 0 else 1)
    ensures I.Arith(B.And, a, b) == (if a == 0 || b == 0 then 0 else 1)
    ensures I.Arith(B.Or, a, b) == (if a == 0 && b == 0 then 0 else 1)
  {
    WrapAgrees(a + b);
    WrapAgrees(a - b);
    WrapAgrees(a * b);
  }

  lemma ResultBinary(ext: Ext, i: T.Inst, x: i64, y: i64, k: NodeKind)
    requires T.IsBinaryOp(i.op) && k == T.KindOf(i.op) && IsBinary(k)
    ensures T.Result(ext, i, x, y) == Binary(k, x, y)
  {
  }

  lemma ResultUnary(ext: Ext, i: T.Inst, x: i64, y: i64, k: NodeKind)
    requires T.IsUnaryOp(i.op) && k == T.KindOf(i.op) && IsUnary(k)
    ensures T.Result(ext, i, x, y) == Unary(k, x)
  {
  }

  /** Instruction by instruction, what the emitted code computes from its operands. */
  lemma InstructionNumbers(ext: Ext, i: T.Inst, x: i64, y: i64)
    ensures var r := T.Result(ext, i, x, y);
      && (i.op in {T.LoadConst, T.LoadConstImm} ==> Agrees(r, i.payload)) && (i.op == T.Mov ==> r == x)
      && (i.op == T.Add ==> Agrees(r, x + y)) && (i.op == T.Sub ==> Agrees(r, x - y))
      && (i.op == T.Mul ==> Agrees(r, x * y)) && (i.op == T.Neg ==> Agrees(r, 0 - x))
      && (i.op == T.Shl ==> r == Binary(Shl, x, y)) && (i.op == T.Shr ==> r == Binary(Shr, x, y))
      && (i.op == T.Div ==> r == Binary(Div, x, y))
  {
    match i.op
    case LoadConst | LoadConstImm => WrapAgrees(i.payload);
    case Add | Sub | Mul =>
      ResultBinary(ext, i, x, y, T.KindOf(i.op));
      RingModulo(x, y);
    case Neg =>
      ResultUnary(ext, i, x, y, Neg);
      NegationModulo(x);
    case Shl => ResultBinary(ext, i, x, y, Shl);
    case Shr => ResultBinary(ext, i, x, y, Shr);
    case Div => ResultBinary(ext, i, x, y, Div);
    case _ =>
  }

  lemma InstructionTruths(ext: Ext, i: T.Inst, x: i64, y: i64)
    ensures var r := T.Result(ext, i, x, y);
      && (i.op == T.Eq ==> r == if x == y then 1 else 0) && (i.op == T.Ne ==> r == if x == y then 0 else 1)
      && (i.op == T.Lt ==> r == if x < y then 1 else 0) && (i.op == T.Gt ==> r == if x > y then 1 else 0)
      && (i.op == T.Lte ==> r == if x > y then 0 else 1) && (i.op == T.Gte ==> r == if x < y then 0 else 1)
      && (i.op == T.And ==> r == if x == 0 || y == 0 then 0 else 1)
      && (i.op == T.Or ==> r == if x == 0 && y == 0 then 0 else 1)
      && (i.op == T.Not ==> r == if x == 0 then 1 else 0) && (i.op == T.IsTruthy ==> r == if x == 0 then 0 else 1)
  {
    TruthValues(x, y);
    match i.op
    case Eq | Ne | Lt | Gt | Lte | Gte | And | Or => ResultBinary(ext, i, x, y, T.KindOf(i.op));
    case Not | IsTruthy => ResultUnary(ext, i, x, y, T.KindOf(i.op));
    case _ =>
  }
}
