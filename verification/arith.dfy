/** Integer arithmetic underneath the exact numeric tower: the Euclidean gcd of
    RationalValue.GCD, C#'s truncating BigInteger division, and the private
    square-and-multiply loop of IntegerValue.Pow.
 */
module Arith {

  /** `d` is a positive divisor of `n`. */
  predicate Divides(d: int, n: int) {
    d > 0 && n % d == 0
  }

  /** No integer above 1 divides both `a` and `b`. */
  ghost predicate Coprime(a: int, b: int) {
    forall d: int {:trigger Divides(d, a), Divides(d, b)} :: d > 1 ==> !(Divides(d, a) && Divides(d, b))
  }

  function Abs(x: int): nat {
    if x < 0 then -x else x
  }

  /** The loop of RationalValue.GCD on the absolute values: reduce the larger
      operand modulo the smaller until one of them is 0, then return the other. */
  function Gcd(a: nat, b: nat): nat
    decreases a + b
  {
    if a == 0 then b
    else if b == 0 then a
    else if a > b then Gcd(a % b, b)
    else Gcd(a, b % a)
  }

  /** The source's BigInteger division, which rounds toward zero; Dafny's `/`
      rounds toward negative infinity for a negative dividend. */
  function TruncDiv(a: int, b: int): (q: int)
    requires b != 0
    ensures Abs(q) == Abs(a) / Abs(b)
    ensures q != 0 ==> ((q < 0) <==> ((a < 0) != (b < 0)))
  {
    DivNonNegative(Abs(a), Abs(b));
    var m: int := Abs(a) / Abs(b);
    if (a < 0) != (b < 0) then -m else m
  }

  lemma DivNonNegative(x: nat, y: nat)
    requires y > 0
    ensures x / y >= 0
  {
    var q := x / y;
    assert x == y * q + x % y;
    if q < 0 {
      MulAtLeast(y, -q);
    }
  }

  /** a to the power n, the reference for exponentiation. */
  function Power(a: int, n: nat): int {
    if n == 0 then 1 else a * Power(a, n - 1)
  }

  // ---------------------------------------------------------------------
  // Divisibility facts

  lemma MulAtLeast(d: int, m: int)
    requires d > 0 && m >= 1
    ensures d * m >= d
  {
    var j := m - 1;
    assert d * m == d * j + d;
    assert d * j >= 0;
  }

  /** Quotient and remainder are the only pair with a remainder in [0, d). */
  lemma DivModUnique(x: int, d: int, q: int, r: int)
    requires d > 0 && 0 <= r < d && x == d * q + r
    ensures q == x / d && r == x % d
  {
    var q0 := x / d;
    var r0 := x % d;
    assert x == d * q0 + r0;
    var m := q - q0;
    assert d * m == r0 - r by { assert d * q - d * q0 == d * (q - q0); }
    if m >= 1 {
      MulAtLeast(d, m);
    } else if m <= -1 {
      MulAtLeast(d, -m);
    }
  }

  lemma MulDivides(d: int, k: int)
    requires d > 0
    ensures Divides(d, d * k) && (d * k) / d == k
  {
    DivModUnique(d * k, d, k, 0);
  }

  lemma DividesWitness(d: int, n: int) returns (k: int)
    requires Divides(d, n)
    ensures n == d * k
  {
    k := n / d;
  }

  lemma DividesLinear(d: int, a: int, b: int, q: int)
    requires Divides(d, a) && Divides(d, b)
    ensures Divides(d, a - b * q)
  {
    var ka := DividesWitness(d, a);
    var kb := DividesWitness(d, b);
    assert a - b * q == d * (ka - kb * q);
    MulDivides(d, ka - kb * q);
  }

  lemma DividesLinearBack(d: int, r: int, b: int, q: int)
    requires Divides(d, r) && Divides(d, b)
    ensures Divides(d, r + b * q)
  {
    DividesLinear(d, r, b, -q);
    assert r - b * (-q) == r + b * q;
  }

  lemma DividesLeq(d: int, n: int)
    requires Divides(d, n) && n > 0
    ensures d <= n
  {
    var k := DividesWitness(d, n);
    assert k >= 1;
  }

  lemma DividesSelf(n: int)
    requires n > 0
    ensures Divides(n, n) && Divides(n, 0)
  {
    MulDivides(n, 1);
    MulDivides(n, 0);
  }

  lemma DividesNeg(d: int, n: int)
    requires Divides(d, n)
    ensures Divides(d, -n) && Divides(d, Abs(n))
  {
    var k := DividesWitness(d, n);
    assert -n == d * (-k);
    MulDivides(d, -k);
  }

  lemma DividesAbs(d: int, n: int)
    requires Divides(d, Abs(n))
    ensures Divides(d, n)
  {
    if n < 0 {
      DividesNeg(d, Abs(n));
    }
  }

  lemma DividesTrans(d: int, e: int, n: int)
    requires Divides(d, e) && Divides(e, n)
    ensures Divides(d, n)
  {
    var k1 := DividesWitness(d, e);
    var k2 := DividesWitness(e, n);
    assert n == d * (k1 * k2);
    MulDivides(d, k1 * k2);
  }

  // ---------------------------------------------------------------------
  // The gcd

  /** A common divisor of `b` and `a % b` divides `a`, and conversely. */
  lemma DividesModStep(d: int, a: nat, b: nat)
    requires b > 0 && Divides(d, b)
    ensures Divides(d, a % b) <==> Divides(d, a)
  {
    var q := a / b;
    assert a == a % b + b * q;
    if Divides(d, a % b) {
      DividesLinearBack(d, a % b, b, q);
    }
    if Divides(d, a) {
      DividesLinear(d, a, b, q);
      assert a - b * q == a % b;
    }
  }

  /** The loop's answer divides both operands, every common divisor divides
      it, and it is 0 only when both operands are 0. */
  lemma {:induction false} GcdIsGreatestCommonDivisor(a: nat, b: nat)
    ensures Gcd(a, b) == 0 <==> a == 0 && b == 0
    ensures Gcd(a, b) > 0 ==> Divides(Gcd(a, b), a) && Divides(Gcd(a, b), b)
    ensures forall d: int {:trigger Divides(d, Gcd(a, b))} :: Divides(d, a) && Divides(d, b) ==> Divides(d, Gcd(a, b))
    decreases a + b
  {
    var g := Gcd(a, b);
    if a == 0 {
      if b > 0 { DividesSelf(b); }
    } else if b == 0 {
      DividesSelf(a);
    } else if a > b {
      GcdIsGreatestCommonDivisor(a % b, b);
      assert g == Gcd(a % b, b);
      if g > 0 {
        DividesModStep(g, a, b);
      }
      forall d: int | Divides(d, a) && Divides(d, b)
        ensures Divides(d, g)
      {
        DividesModStep(d, a, b);
      }
    } else {
      GcdIsGreatestCommonDivisor(a, b % a);
      assert g == Gcd(a, b % a);
      if g > 0 {
        DividesModStep(g, b, a);
      }
      forall d: int | Divides(d, a) && Divides(d, b)
        ensures Divides(d, g)
      {
        DividesModStep(d, b, a);
      }
    }
  }

  /** GCD(a, 0) is |a|: the loop never runs. */
  lemma GcdWithZero(a: int)
    ensures Gcd(Abs(a), 0) == Abs(a) && Gcd(0, Abs(a)) == Abs(a)
  {
  }

  /** If e divides k then e * g divides g * k. */
  lemma ScaledDivides(e: int, g: int, k: int)
    requires Divides(e, k) && g > 0
    ensures Divides(e * g, g * k)
  {
    var m := DividesWitness(e, k);
    assert g * k == (e * g) * m by { assert k == e * m; }
    assert e * g > 0 by { MulAtLeast(g, e); }
    MulDivides(e * g, m);
  }

  /** `g` is the greatest common divisor of `a` and `b`, stated without
      reference to the loop that computes it. */
  ghost predicate IsGcdOf(g: int, a: int, b: int) {
    g > 0 && Divides(g, a) && Divides(g, b) &&
    forall e: int {:trigger Divides(e, g)} :: Divides(e, a) && Divides(e, b) ==> Divides(e, g)
  }

  /** On signed operands the loop, run on their absolute values, computes the
      greatest common divisor unless both are 0. */
  lemma GcdOfSigned(n: int, d: int)
    requires n != 0 || d != 0
    ensures IsGcdOf(Gcd(Abs(n), Abs(d)), n, d)
  {
    var g := Gcd(Abs(n), Abs(d));
    GcdIsGreatestCommonDivisor(Abs(n), Abs(d));
    DividesAbs(g, n);
    DividesAbs(g, d);
    forall e: int | Divides(e, n) && Divides(e, d)
      ensures Divides(e, g)
    {
      DividesNeg(e, n);
      DividesNeg(e, d);
    }
  }

  /** RationalValue.GCD as the loop it is.  Its answer is the greatest common
      divisor of the operands, and 0 exactly when both are 0. */
  method GcdLoop(a0: int, b0: int) returns (g: nat)
    ensures g == Gcd(Abs(a0), Abs(b0))
    ensures g == 0 <==> a0 == 0 && b0 == 0
    ensures a0 != 0 || b0 != 0 ==> IsGcdOf(g, a0, b0)
  {
    var a: nat := Abs(a0);
    var b: nat := Abs(b0);
    while a != 0 && b != 0
      invariant Gcd(a, b) == Gcd(Abs(a0), Abs(b0))
      decreases a + b
    {
      if a > b {
        a := a % b;
      } else {
        b := b % a;
      }
    }
    g := if a == 0 then b else a;
    GcdIsGreatestCommonDivisor(Abs(a0), Abs(b0));
    if a0 != 0 || b0 != 0 {
      GcdOfSigned(a0, b0);
    }
  }

  /** A factor e > 1 common to n / g and d / g would make e * g a common
      divisor of n and d larger than g. */
  lemma NoFactorAboveGcd(n: int, d: int, g: int, e: int)
    requires IsGcdOf(g, n, d) && e > 1
    ensures !(Divides(e, n / g) && Divides(e, d / g))
  {
    if Divides(e, n / g) && Divides(e, d / g) {
      assert n == g * (n / g);
      assert d == g * (d / g);
      ScaledDivides(e, g, n / g);
      ScaledDivides(e, g, d / g);
      assert Divides(e * g, g);
      DividesLeq(e * g, g);
      MulAtLeast(g, e - 1);
    }
  }

  /** Dividing two integers by their greatest common divisor leaves a coprime
      pair with the same ratio. */
  lemma ReducedIsCoprime(n: int, d: int, g: int)
    requires IsGcdOf(g, n, d)
    ensures n == g * (n / g) && d == g * (d / g) && Coprime(n / g, d / g)
  {
    forall e: int | e > 1
      ensures !(Divides(e, n / g) && Divides(e, d / g))
    {
      NoFactorAboveGcd(n, d, g, e);
    }
  }

  // ---------------------------------------------------------------------
  // Powers

  lemma {:induction false} PowerAdd(a: int, m: nat, n: nat)
    ensures Power(a, m + n) == Power(a, m) * Power(a, n)
    decreases m
  {
    if m > 0 {
      PowerAdd(a, m - 1, n);
      assert Power(a, m + n) == a * Power(a, m - 1 + n);
    }
  }

  lemma {:induction false} PowerSquare(a: int, n: nat)
    ensures Power(a * a, n) == Power(a, 2 * n)
    decreases n
  {
    if n > 0 {
      PowerSquare(a, n - 1);
      var p := Power(a, 2 * n - 2);
      assert Power(a, 2 * n - 1) == a * p;
      assert Power(a, 2 * n) == a * (a * p);
      assert a * (a * p) == (a * a) * p;
    }
  }

  /** The private IntegerValue.Pow exactly as written: the running result is
      squared first and then multiplied by `a` when the lowest remaining bit is
      set, while the exponent is consumed from its least significant bit. */
  function PowLoopAsWritten(a: int, exp: nat, r: int): int
    decreases exp
  {
    if exp == 0 then r
    else PowLoopAsWritten(a, exp / 2, if exp % 2 == 1 then r * r * a else r * r)
  }

  /** The private IntegerValue.Pow as written, started with r = 1. */
  function PowAsWritten(a: int, exp: nat): int {
    PowLoopAsWritten(a, exp, 1)
  }

  /** Squaring the result while consuming the exponent from its low bit
      computes a to the bit-reversed exponent: 2 to the power 2 comes out as 2. */
  lemma PowAsWrittenCounterexample()
    ensures PowAsWritten(2, 2) == 2 && Power(2, 2) == 4
    ensures PowAsWritten(3, 6) != Power(3, 6)
  {
    assert PowLoopAsWritten(2, 2, 1) == PowLoopAsWritten(2, 1, 1);
    assert PowLoopAsWritten(2, 1, 1) == PowLoopAsWritten(2, 0, 2);
    assert PowLoopAsWritten(3, 6, 1) == PowLoopAsWritten(3, 3, 1);
    assert PowLoopAsWritten(3, 3, 1) == PowLoopAsWritten(3, 1, 3);
    assert PowLoopAsWritten(3, 1, 3) == PowLoopAsWritten(3, 0, 27);
    assert Power(3, 6) == 729;
  }

  /** Square-and-multiply with the squaring applied to the base rather than to
      the result, consuming the exponent from its low bit: the loop the
      source evidently intends, with `b` the base of the current bit and `r`
      the running result. */
  function PowSqLoop(b: int, exp: nat, r: int): int
    decreases exp
  {
    if exp == 0 then r
    else PowSqLoop(b * b, exp / 2, if exp % 2 == 1 then r * b else r)
  }

  /** The corrected loop started with r = 1. */
  function PowSq(a: int, exp: nat): int {
    PowSqLoop(a, exp, 1)
  }

  /** The loop's invariant: what is still to come is the base raised to the
      remaining exponent. */
  lemma {:induction false} PowSqLoopIsPower(b: int, exp: nat, r: int)
    ensures PowSqLoop(b, exp, r) == r * Power(b, exp)
    decreases exp
  {
    if exp > 0 {
      var r' := if exp % 2 == 1 then r * b else r;
      PowSqLoopIsPower(b * b, exp / 2, r');
      PowerSquare(b, exp / 2);
      var p := Power(b, 2 * (exp / 2));
      if exp % 2 == 1 {
        PowerAdd(b, 1, 2 * (exp / 2));
        assert Power(b, 1) == b;
        assert 1 + 2 * (exp / 2) == exp;
        assert (r * b) * p == r * (b * p);
      } else {
        assert 2 * (exp / 2) == exp;
      }
    }
  }

  /** The corrected loop computes the power. */
  lemma PowSqIsPower(a: int, exp: nat)
    ensures PowSq(a, exp) == Power(a, exp)
  {
    PowSqLoopIsPower(a, exp, 1);
  }
}
