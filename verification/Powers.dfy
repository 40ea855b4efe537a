/** Bitwise recognition of powers of two, and what shifts compute. */
module Powers {
  import opened Int64

  /** The bitwise conjunction of two non-negative integers. */
  function BitAnd(x: nat, y: nat): nat {
    if x == 0 || y == 0 then 0 else (x % 2) * (y % 2) + 2 * BitAnd(x / 2, y / 2)
  }

  /** How often x can be halved before reaching 1. */
  function Log2(x: nat): nat {
    if x <= 1 then 0 else 1 + Log2(x / 2)
  }

  ghost predicate IsPowerOfTwo(x: int) {
    exists k: nat :: x == Pow2(k)
  }

  lemma {:induction false} BitAndSelf(x: nat)
    ensures BitAnd(x, x) == x
  {
    if x > 0 { BitAndSelf(x / 2); }
  }

  lemma {:induction false} Log2OfPow2(k: nat)
    ensures Log2(Pow2(k)) == k
  {
    if k > 0 { Log2OfPow2(k - 1); }
  }

  lemma PowerIffLog(x: nat)
    ensures IsPowerOfTwo(x) <==> x == Pow2(Log2(x))
  {
    forall k: nat | x == Pow2(k) ensures x == Pow2(Log2(x)) { Log2OfPow2(k); }
  }

  lemma Halves(x: nat)
    requires x > 1
    ensures x % 2 == 0 ==> x == 2 * (x / 2) && (x - 1) % 2 == 1 && (x - 1) / 2 == x / 2 - 1
    ensures x % 2 != 0 ==> x == 2 * (x / 2) + 1 && (x - 1) % 2 == 0 && (x - 1) / 2 == x / 2
  {
  }

  /** x & (x - 1) clears the lowest set bit, and leaves nothing exactly for the powers of two. */
  lemma {:induction false} ClearLowestBit(x: nat)
    requires x > 0
    ensures BitAnd(x, x - 1) == 0 <==> x == Pow2(Log2(x))
    ensures BitAnd(x, x - 1) == 0 <==> IsPowerOfTwo(x)
  {
    PowerIffLog(x);
    if x > 1 {
      Halves(x);
      if x % 2 == 0 { ClearLowestBit(x / 2); } else { BitAndSelf(x / 2); }
    }
  }

  lemma {:induction false} Pow2Monotone(j: nat, k: nat)
    requires j <= k
    ensures Pow2(j) <= Pow2(k)
  {
    if j < k { Pow2Monotone(j, k - 1); }
  }

  lemma {:induction false} Pow2Sum(j: nat, k: nat)
    ensures Pow2(j + k) == Pow2(j) * Pow2(k)
  {
    if j > 0 { Pow2Sum(j - 1, k); }
  }

  lemma Pow2Of63()
    ensures Pow2(63) == TWO_63
  {
    assert Pow2(7) == 128;
    Pow2Sum(7, 7);
    Pow2Sum(14, 14);
    Pow2Sum(28, 28);
    Pow2Sum(56, 7);
  }

  lemma Pow2Fits(k: nat)
    requires k < 63
    ensures Pow2(k) < TWO_63
  {
    Pow2Monotone(k + 1, 63);
    Pow2Of63();
  }

  /** A positive 64-bit power of two has an exponent that fits the shift count. */
  lemma ExponentFits(x: i64)
    requires x > 0
    ensures x == Pow2(Log2(x)) ==> Log2(x) < 63
  {
    assert IsI64(x);
    if x == Pow2(Log2(x)) && Log2(x) >= 63 {
      Pow2Monotone(63, Log2(x));
      Pow2Of63();
    }
  }

  /** Shifting right by k agrees with truncating division by 2^k exactly where nothing is rounded or the
      dividend is not negative. */
  lemma ShiftIsQuotient(x: int, k: nat)
    requires IsI64(x)
    ensures Wrap(ShiftRight(x, k)) == Wrap(Quotient(x, Pow2(k))) <==> x >= 0 || x % Pow2(k) == 0
  {
    if x < 0 { FloorIsQuotient(x, Pow2(k)); }
  }

  lemma FloorIsQuotient(x: int, d: nat)
    requires IsI64(x) && x < 0 && d > 0
    ensures Wrap(x / d) == Wrap(Quotient(x, d)) <==> x % d == 0
  {
    DivideBounds(x, d);
    DivideBounds(-x, d);
    TruncateOrFloor(-x, d);
    WrapInRange(-(-x / d));
    WrapInRange(x / d);
  }

  lemma DivideBounds(x: int, d: nat)
    requires d > 0
    ensures x >= 0 ==> 0 <= x / d <= x
    ensures x < 0 ==> x <= x / d < 0
  {
    var q, r := x / d, x % d;
    Division(x, d);
    if q >= 0 { Scale(d, q); } else { Scale(d, -q - 1); }
  }

  lemma Division(x: int, d: nat)
    requires d > 0
    ensures x == d * (x / d) + x % d && 0 <= x % d < d
  {
  }

  lemma Scale(d: nat, q: int)
    requires d > 0 && q >= 0
    ensures d * q >= q && d * q == q * d && d * (-q - 1) == -(d * q) - d && (q > 0 ==> d * q >= d)
  {
    assert d * q == q + (d - 1) * q;
    assert (d - 1) * q >= 0;
    if q > 0 {
      assert d * q == d + d * (q - 1);
      assert d * (q - 1) >= 0;
    }
  }

  lemma TruncateOrFloor(a: int, d: nat)
    requires a >= 0 && d > 0
    ensures -a / d == -(a / d) <==> -a % d == 0
  {
    var q, r := a / d, a % d;
    var p, t := -a / d, -a % d;
    Division(a, d);
    Division(-a, d);
    assert d * (p + q) == d * p + d * q;
    assert d * (p + q) == -r - t;
    if t == 0 {
      if p + q > 0 { Scale(d, p + q); }
      if p + q < 0 { Scale(d, -(p + q)); }
    }
  }

  /** Masking with one less than a power of two is the remainder. */
  lemma {:induction false} MaskIsRemainder(x: nat, k: nat)
    ensures BitAnd(x, Pow2(k) - 1) == x % Pow2(k)
  {
    if k > 0 {
      var m := Pow2(k - 1);
      MaskIsRemainder(x / 2, k - 1);
      assert (2 * m - 1) / 2 == m - 1 && (2 * m - 1) % 2 == 1;
      RemainderSplit(x, m);
    }
  }

  lemma RemainderSplit(x: nat, m: nat)
    requires m > 0
    ensures x % (2 * m) == x % 2 + 2 * (x / 2 % m)
  {
    var q, r := x / 2 / m, x / 2 % m;
    Division(x / 2, m);
    Division(x, 2);
    var t := x % 2 + 2 * r;
    assert x == (2 * m) * q + t;
    assert 0 <= t < 2 * m;
    RemainderUnique(x, 2 * m, q, t);
  }

  lemma RemainderUnique(x: int, d: nat, q: int, t: int)
    requires d > 0 && x == d * q + t && 0 <= t < d
    ensures x % d == t && x / d == q
  {
    Division(x, d);
    var p := x / d - q;
    assert d * p == d * (x / d) - d * q;
    if p > 0 { Scale(d, p); }
    if p < 0 { Scale(d, -p); }
  }
}
