/** The exact part of Osmium's numeric tower: BigInteger integers, rationals
    reduced by their normalising constructor, and complex numbers whose two
    components are exact.  Every arithmetic operator goes through the
    promotion dispatch of NumericOperations.MakeConvertorOp.
 */
module Numbers {
  import opened Wrappers
  import opened Arith

  /** NumberType with its declared ranks; Real (rank 2) is not modelled. */
  datatype NumberType = Integer | Rational | Complex

  function Rank(t: NumberType): nat {
    match t
    case Integer => 0
    case Rational => 1
    case Complex => 3
  }

  /** An IntegerValue or a RationalValue.  A `Rat` built by `MakeRational` is
      reduced; `Neg` builds one through the private constructor, unreduced. */
  datatype Exact = Int(v: int) | Rat(num: int, den: int)

  /** A NumberValue: an exact number, or a ComplexValue of two exact parts. */
  datatype Number = Ex(e: Exact) | Cx(re: Exact, im: Exact)

  const Zero: Exact := Int(0)
  const One: Exact := Int(1)

  function TypeOf(x: Number): NumberType {
    match x
    case Ex(Int(_)) => Integer
    case Ex(Rat(_, _)) => Rational
    case Cx(_, _) => Complex
  }

  // ---------------------------------------------------------------------
  // The normalising rational constructor

  /** `new RationalValue(n, d)`: move the sign to the numerator, then divide
      both by their gcd unless it is 1.  The gcd is 0 only for 0/0, where the
      division throws. */
  function MakeRational(n0: int, d0: int): (r: Result<Exact>)
    ensures r.Err? <==> n0 == 0 && d0 == 0
    ensures r.Err? ==> r.error == DivideByZero
    ensures r.Ok? ==> r.value.Rat? && r.value.den >= 0
    ensures r.Ok? ==> r.value.num * d0 == r.value.den * n0
    ensures r.Ok? ==> Coprime(r.value.num, r.value.den)
    ensures r.Ok? && d0 != 0 ==> r.value.den > 0
  {
    var n := if d0 < 0 then -n0 else n0;
    var d := if d0 < 0 then -d0 else d0;
    var g := Gcd(Abs(n), Abs(d));
    RationalParts(n0, d0);
    if g != 1 then
      if g == 0 then Err(DivideByZero)
      else Ok(Rat(TruncDiv(n, g), TruncDiv(d, g)))
    else Ok(Rat(n, d))
  }

  /** The facts `MakeRational` needs: the gcd is 0 only for 0/0, and the
      sign-moved numerator and denominator, divided by their gcd, are a
      coprime pair with the same ratio and a non-negative denominator. */
  lemma RationalParts(n0: int, d0: int)
    ensures var n := if d0 < 0 then -n0 else n0;
      var d := if d0 < 0 then -d0 else d0;
      var g := Gcd(Abs(n), Abs(d));
      (g == 0 <==> n0 == 0 && d0 == 0) &&
      (g == 1 ==> n * d0 == d * n0 && d >= 0 && (d0 != 0 ==> d > 0) && Coprime(n, d)) &&
      (g > 1 ==>
        TruncDiv(n, g) * d0 == TruncDiv(d, g) * n0 && TruncDiv(d, g) >= 0 &&
        (d0 != 0 ==> TruncDiv(d, g) > 0) && Coprime(TruncDiv(n, g), TruncDiv(d, g)))
  {
    var n := if d0 < 0 then -n0 else n0;
    var d := if d0 < 0 then -d0 else d0;
    var g := Gcd(Abs(n), Abs(d));
    GcdIsGreatestCommonDivisor(Abs(n), Abs(d));
    if g == 1 {
      GcdOfSigned(n, d);
      ReducedIsCoprime(n, d, 1);
      if d0 < 0 {
        assert n * d0 == d * n0;
      }
    } else if g > 1 {
      GcdOfSigned(n, d);
      ReducedIsCoprime(n, d, g);
      ReducedRatio(n, d, g, n0, d0);
    }
  }

  /** The facts `MakeRational` needs about its exact divisions. */
  lemma ReducedRatio(n: int, d: int, g: int, n0: int, d0: int)
    requires IsGcdOf(g, n, d)
    requires (n, d) == (if d0 < 0 then (-n0, -d0) else (n0, d0))
    ensures TruncDiv(n, g) == n / g && TruncDiv(d, g) == d / g
    ensures (n / g) * d0 == (d / g) * n0
    ensures d >= 0 && (d0 != 0 ==> d / g > 0) && d / g >= 0
  {
    ExactTruncDiv(n, g);
    ExactTruncDiv(d, g);
    var p := DividesWitness(g, n);
    var q := DividesWitness(g, d);
    MulDivides(g, p);
    MulDivides(g, q);
    SameRatio(g, p, q, n0, d0);
    if q < 0 {
      MulAtLeast(g, -q);
      MulNeg(g, q);
    }
  }

  /** Dividing a sign-moved pair by a common factor keeps its ratio. */
  lemma SameRatio(g: int, p: int, q: int, n0: int, d0: int)
    requires (g * p, g * q) == (if d0 < 0 then (-n0, -d0) else (n0, d0))
    ensures p * d0 == q * n0
  {
    MulSwap(g, p, q);
    if d0 < 0 {
      MulNeg(p, g * q);
      MulNeg(q, g * p);
    }
  }

  lemma MulSwap(g: int, p: int, q: int)
    ensures p * (g * q) == q * (g * p)
  {
  }

  lemma MulNeg(a: int, b: int)
    ensures a * -b == -(a * b)
  {
  }

  /** On an exact division, rounding toward zero and Dafny's `/` agree. */
  lemma ExactTruncDiv(n: int, g: int)
    requires Divides(g, n)
    ensures TruncDiv(n, g) == n / g
  {
    if n < 0 {
      var k := DividesWitness(g, n);
      MulDivides(g, k);
      MulDivides(g, -k);
      assert Abs(n) == g * (-k);
    }
  }

  lemma GcdWithOne(a: nat)
    ensures Gcd(a, 1) == 1
  {
    if a > 1 {
      assert Gcd(a, 1) == Gcd(a % 1, 1);
    } else if a == 1 {
      assert Gcd(1, 1) == Gcd(1, 1 % 1);
    }
  }

  /** Converting an integer to a rational: `new RationalValue(v, 1)`. */
  lemma IntegerAsRational(v: int)
    ensures MakeRational(v, 1) == Ok(Rat(v, 1))
  {
    GcdWithOne(Abs(v));
  }

  // ---------------------------------------------------------------------
  // Normalisation and equality

  /** Exact `Normalize`: a rational with denominator 1 becomes an integer. */
  function NormalizeExact(e: Exact): (r: Exact)
    ensures r.Rat? ==> r == e && e.den != 1
    ensures e.Int? ==> r == e
  {
    match e
    case Int(_) => e
    case Rat(n, d) => if d == 1 then Int(n) else e
  }

  /** ComplexValue.Normalize: an imaginary part normalising to integer 0
      collapses the number to its normalised real part. */
  function Normalize(x: Number): (r: Number)
    ensures r.Cx? ==> x.Cx? && r.im != Int(0)
    ensures Size(r) <= Size(x)
    ensures x.Ex? ==> r.Ex?
  {
    match x
    case Ex(e) => Ex(NormalizeExact(e))
    case Cx(re, im) =>
      var imN := NormalizeExact(im);
      if imN == Int(0) then Ex(NormalizeExact(re))
      else Cx(NormalizeExact(re), imN)
  }

  /** NormalEquals of each class: same class and the same stored fields; a
      complex compares its components with the normalising `Equals`. */
  function NormalEquals(x: Number, y: Number): bool
    decreases Size(x) + Size(y), 0
  {
    match (x, y)
    case (Ex(Int(a)), Ex(Int(b))) => a == b
    case (Ex(Rat(a, b)), Ex(Rat(c, d))) => a == c && b == d
    case (Cx(a, b), Cx(c, d)) => NumberEq(Ex(c), Ex(a)) && NumberEq(Ex(d), Ex(b))
    case _ => false
  }

  /** NumberValue.Equals: normalise both sides, then NormalEquals. */
  function NumberEq(x: Number, y: Number): bool
    decreases Size(x) + Size(y), 1
  {
    NormalEquals(Normalize(x), Normalize(y))
  }

  /** Two numbers are equal exactly when their normal forms coincide. */
  lemma NumberEqIsNormalFormEquality(x: Number, y: Number)
    ensures NumberEq(x, y) <==> Normalize(x) == Normalize(y)
  {
    NormalizeIdempotent(x);
    NormalizeIdempotent(y);
    var nx := Normalize(x);
    var ny := Normalize(y);
    if nx.Cx? && ny.Cx? {
      assert NumberEq(Ex(ny.re), Ex(nx.re)) <==> ny.re == nx.re;
      assert NumberEq(Ex(ny.im), Ex(nx.im)) <==> ny.im == nx.im;
    }
  }

  lemma NormalizeIdempotent(x: Number)
    ensures Normalize(Normalize(x)) == Normalize(x)
    ensures forall e: Exact {:trigger NormalizeExact(e)} :: NormalizeExact(NormalizeExact(e)) == NormalizeExact(e)
  {
  }

  /** Numeric equality is an equivalence relation. */
  lemma NumberEqIsEquivalence(x: Number, y: Number, z: Number)
    ensures NumberEq(x, x)
    ensures NumberEq(x, y) ==> NumberEq(y, x)
    ensures NumberEq(x, y) && NumberEq(y, z) ==> NumberEq(x, z)
  {
    NumberEqIsNormalFormEquality(x, x);
    NumberEqIsNormalFormEquality(x, y);
    NumberEqIsNormalFormEquality(y, x);
    NumberEqIsNormalFormEquality(y, z);
    NumberEqIsNormalFormEquality(x, z);
  }

  // ---------------------------------------------------------------------
  // Conversion and promotion

  /** ConvertTo of each class for the non-Real targets.  A complex converted
      down keeps only its real part; a rational converted to an integer
      divides with truncation, which throws on a zero denominator. */
  function ConvertTo(x: Number, t: NumberType): (r: Result<Number>)
    ensures r.Ok? && Rank(t) >= Rank(TypeOf(x)) ==> TypeOf(r.value) == t
    ensures Rank(t) > Rank(TypeOf(x)) ==> r.Ok?
    ensures t == TypeOf(x) ==> r == Ok(x)
    ensures x.Ex? && x.e.Int? && t == Rational ==> r == Ok(Ex(Rat(x.e.v, 1)))
    ensures x.Ex? && x.e.Rat? && t == Integer ==>
      r == (if x.e.den == 0 then Err(DivideByZero) else Ok(Ex(Int(TruncDiv(x.e.num, x.e.den)))))
    ensures x.Ex? && t == Complex ==> r == Ok(Cx(x.e, Zero))
    ensures x.Cx? && t != Complex ==> r == ConvertTo(Ex(x.re), t)
    decreases Size(x)
  {
    match x
    case Ex(Int(v)) =>
      (match t
       case Integer => Ok(x)
       case Rational => IntegerAsRational(v); Ok(Ex(Rat(v, 1)))
       case Complex => Ok(Cx(Int(v), Zero)))
    case Ex(Rat(n, d)) =>
      (match t
       case Integer => if d == 0 then Err(DivideByZero) else Ok(Ex(Int(TruncDiv(n, d))))
       case Rational => Ok(x)
       case Complex => Ok(Cx(Rat(n, d), Zero)))
    case Cx(re, _) =>
      (match t
       case Complex => Ok(x)
       case _ => ConvertTo(Ex(re), t))
  }

  /** MakeConvertorOp: operands of equal type go through unchanged; otherwise
      the lower-ranked operand is converted to the other's type. */
  function Promote(a: Number, b: Number): (r: (Number, Number))
    ensures TypeOf(r.0) == TypeOf(r.1)
    ensures Rank(TypeOf(r.0)) == Max(Rank(TypeOf(a)), Rank(TypeOf(b)))
    ensures TypeOf(a) == TypeOf(b) ==> r == (a, b)
    ensures Rank(TypeOf(a)) >= Rank(TypeOf(b)) ==> r.0 == a
    ensures Rank(TypeOf(b)) >= Rank(TypeOf(a)) ==> r.1 == b
  {
    if TypeOf(a) == TypeOf(b) then (a, b)
    else if Rank(TypeOf(a)) > Rank(TypeOf(b)) then
      (a, ConvertTo(b, TypeOf(a)).value)
    else
      (ConvertTo(a, TypeOf(b)).value, b)
  }

  function Max(a: nat, b: nat): nat {
    if a >= b then a else b
  }

  // ---------------------------------------------------------------------
  // Arithmetic

  /** Size of a number for the recursion from complex to exact operations. */
  function Size(x: Number): nat {
    if x.Cx? then 1 else 0
  }

  /** IntegerValue.Neg, RationalValue.Neg (numerator only, not re-reduced) and
      ComplexValue.Neg (both parts). */
  function Neg(x: Number): (r: Number)
    ensures TypeOf(r) == TypeOf(x)
    ensures x.Ex? ==> r == Ex(NegExact(x.e))
    ensures x.Cx? ==> r == Cx(NegExact(x.re), NegExact(x.im))
  {
    match x
    case Ex(e) => Ex(NegExact(e))
    case Cx(re, im) => Cx(NegExact(re), NegExact(im))
  }

  function NegExact(e: Exact): (r: Exact)
    ensures r.Int? == e.Int?
    ensures e.Int? ==> r == Int(-e.v)
    ensures e.Rat? ==> r.Rat? && r.num == -e.num && r.den == e.den
  {
    match e
    case Int(v) => Int(-v)
    case Rat(n, d) => Rat(-n, d)
  }

  /** NumericOperations.Add after promotion: integer sum, the rational
      (ad + cb)/(bd) through the normalising constructor, componentwise for
      complex numbers. */
  function Add(a: Number, b: Number): (r: Result<Number>)
    ensures r.Ok? && a.Ex? && b.Ex? ==> r.value.Ex?
    decreases Size(a) + Size(b)
  {
    var (x, y) := Promote(a, b);
    match (x, y)
    case (Ex(Int(p)), Ex(Int(q))) => Ok(Ex(Int(p + q)))
    case (Ex(Rat(an, ad)), Ex(Rat(bn, bd))) =>
      var s :- MakeRational(an * bd + bn * ad, ad * bd);
      Ok(Ex(s))
    case (Cx(ar, ai), Cx(br, bi)) =>
      var re :- Add(Ex(ar), Ex(br));
      var im :- Add(Ex(ai), Ex(bi));
      Ok(Cx(re.e, im.e))
    case _ => Err(NotModelled)
  }

  /** NumericOperations.Mul after promotion: integer product, the rational
      (ac)/(bd) through the normalising constructor, and for complex numbers
      (ac + Neg(bd), ad + bc). */
  function Mul(a: Number, b: Number): (r: Result<Number>)
    ensures r.Ok? && a.Ex? && b.Ex? ==> r.value.Ex?
    decreases Size(a) + Size(b)
  {
    var (x, y) := Promote(a, b);
    match (x, y)
    case (Ex(Int(p)), Ex(Int(q))) => Ok(Ex(Int(p * q)))
    case (Ex(Rat(an, ad)), Ex(Rat(bn, bd))) =>
      var s :- MakeRational(an * bn, ad * bd);
      Ok(Ex(s))
    case (Cx(ar, ai), Cx(br, bi)) =>
      var rr :- Mul(Ex(ar), Ex(br));
      var ii :- Mul(Ex(ai), Ex(bi));
      var re :- Add(rr, Neg(ii));
      var ri :- Mul(Ex(ar), Ex(bi));
      var ir :- Mul(Ex(ai), Ex(br));
      var im :- Add(ri, ir);
      Ok(Cx(re.e, im.e))
    case _ => Err(NotModelled)
  }

  /** IntegerValue.Inv (1 and -1 are their own inverse, otherwise the
      normalised 1/n), RationalValue.Inv (the normalised d/n) and
      ComplexValue.Inv (re/fac and Neg(im)/fac with fac = re*re + im*im). */
  function Inv(x: Number): (r: Result<Number>)
    ensures r.Ok? && x.Ex? ==> r.value.Ex?
    decreases Size(x)
  {
    match x
    case Ex(Int(v)) =>
      if v == 1 || v == -1 then Ok(x)
      else
        Ok(Ex(NormalizeExact(MakeRational(1, v).value)))
    case Ex(Rat(n, d)) =>
      var q :- MakeRational(d, n);
      Ok(Ex(NormalizeExact(q)))
    case Cx(re, im) =>
      var rr :- Mul(Ex(re), Ex(re));
      var ii :- Mul(Ex(im), Ex(im));
      var fac :- Add(rr, ii);
      var inv :- Inv(fac);
      var re' :- Mul(Ex(re), inv);
      var im' :- Mul(Neg(Ex(im)), inv);
      Ok(Cx(re'.e, im'.e))
  }

  /** `a - b` is `a + Neg(b)`. */
  function Sub(a: Number, b: Number): Result<Number> {
    Add(a, Neg(b))
  }

  /** `a / b` is `a * Inv(b)`. */
  function Div(a: Number, b: Number): Result<Number> {
    var i :- Inv(b);
    Mul(a, i)
  }

  /** Public IntegerValue.Pow: a positive exponent uses the private loop, a
      negative one builds the unnormalised rational 1/Pow(a, -b), and a zero
      exponent gives 1.  `build` selects the loop as written or corrected. */
  function IntPow(build: Build, a: int, b: int): (r: Exact)
    ensures build == Corrected && b > 0 ==> r == Int(Power(a, b))
    ensures build == Corrected && b < 0 ==> r.Rat? && r.num * Power(a, -b) == r.den
    ensures b == 0 ==> r == One
  {
    if b > 0 then Int(PowLoop(build, a, b))
    else if b < 0 then
      var p := PowLoop(build, a, -b);
      var q := MakeRational(1, p);
      if q.Ok? then q.value else Zero
    else One
  }

  /** The private IntegerValue.Pow: as written, or the corrected loop that
      squares the base. */
  function PowLoop(build: Build, a: int, e: nat): (r: int)
    ensures build == Corrected ==> r == Power(a, e)
  {
    if build == AsWritten then PowAsWritten(a, e)
    else
      PowSqIsPower(a, e);
      PowSq(a, e)
  }

  // ---------------------------------------------------------------------
  // Arithmetic meets the rational numbers

  /** A well-formed exact number: integer, or rational with nonzero
      denominator. */
  predicate Valid(e: Exact) {
    e.Int? || e.den != 0
  }

  function NumOf(e: Exact): int {
    if e.Int? then e.v else e.num
  }

  function DenOf(e: Exact): int {
    if e.Int? then 1 else e.den
  }

  /** `x` and `y` denote the same rational number. */
  predicate SameValue(x: Exact, y: Exact) {
    NumOf(x) * DenOf(y) == NumOf(y) * DenOf(x)
  }

  /** The normalising step of `Inv` and `Normalize` keeps the value. */
  lemma NormalizeExactKeepsValue(e: Exact)
    ensures Valid(NormalizeExact(e)) == Valid(e)
    ensures SameValue(NormalizeExact(e), e)
  {
  }

  /** On well-formed operands, exact addition never faults and yields the
      sum of the two rationals. */
  lemma AddExactIsSum(x: Exact, y: Exact)
    requires Valid(x) && Valid(y)
    ensures Add(Ex(x), Ex(y)).Ok?
    ensures var z := Add(Ex(x), Ex(y)).value.e;
      Valid(z) &&
      NumOf(z) * (DenOf(x) * DenOf(y)) == DenOf(z) * (NumOf(x) * DenOf(y) + NumOf(y) * DenOf(x))
  {
    if !(x.Int? && y.Int?) {
      var an, ad, bn, bd := NumOf(x), DenOf(x), NumOf(y), DenOf(y);
      AddAfterPromote(Ex(x), Ex(y));
      PromoteMixed(x, y);
      AddRationals(an, ad, bn, bd);
      RationalSum(an, ad, bn, bd);
      var z := MakeRational(an * bd + bn * ad, ad * bd).value;
      assert NumOf(z) == z.num && DenOf(z) == z.den;
    }
  }

  /** `Add` only looks at its promoted operands. */
  lemma AddAfterPromote(a: Number, b: Number)
    ensures Add(a, b) == Add(Promote(a, b).0, Promote(a, b).1)
  {
  }

  /** `Add` of two rationals goes through the normalising constructor. */
  lemma AddRationals(an: int, ad: int, bn: int, bd: int)
    ensures var m := MakeRational(an * bd + bn * ad, ad * bd);
      Add(Ex(Rat(an, ad)), Ex(Rat(bn, bd))) == (if m.Ok? then Ok(Ex(m.value)) else Err(m.error))
  {
  }

  /** An integer meeting a rational is promoted to n/1; two rationals are
      left as they are. */
  lemma PromoteMixed(x: Exact, y: Exact)
    requires !(x.Int? && y.Int?)
    ensures Promote(Ex(x), Ex(y)) == (Ex(Rat(NumOf(x), DenOf(x))), Ex(Rat(NumOf(y), DenOf(y))))
  {
    IntegerAsRational(NumOf(x));
    IntegerAsRational(NumOf(y));
  }

  /** The rational branch of `Add`: (an/ad) + (bn/bd) built through the
      normalising constructor. */
  lemma RationalSum(an: int, ad: int, bn: int, bd: int)
    requires ad != 0 && bd != 0
    ensures var m := MakeRational(an * bd + bn * ad, ad * bd);
      m.Ok? && Valid(m.value) && m.value.den != 0 &&
      m.value.num * (ad * bd) == m.value.den * (an * bd + bn * ad)
  {
    assert ad * bd != 0;
  }

  /** On well-formed operands, exact multiplication never faults and yields
      the product of the two rationals. */
  lemma MulExactIsProduct(x: Exact, y: Exact)
    requires Valid(x) && Valid(y)
    ensures Mul(Ex(x), Ex(y)).Ok?
    ensures var z := Mul(Ex(x), Ex(y)).value.e;
      Valid(z) &&
      NumOf(z) * (DenOf(x) * DenOf(y)) == DenOf(z) * (NumOf(x) * NumOf(y))
  {
    var (a, b) := Promote(Ex(x), Ex(y));
    if x.Int? && y.Int? {
    } else {
      IntegerAsRational(NumOf(x));
      IntegerAsRational(NumOf(y));
      assert a == Ex(Rat(NumOf(x), DenOf(x)));
      assert b == Ex(Rat(NumOf(y), DenOf(y)));
      assert DenOf(x) * DenOf(y) != 0;
    }
  }

  /** A well-formed nonzero exact number has a well-formed inverse whose
      product with it is 1. */
  lemma InvExactIsReciprocal(x: Exact)
    requires Valid(x) && NumOf(x) != 0
    ensures Inv(Ex(x)).Ok?
    ensures var z := Inv(Ex(x)).value.e;
      Valid(z) && NumOf(z) * NumOf(x) == DenOf(z) * DenOf(x)
  {
    match x
    case Int(v) =>
      if v != 1 && v != -1 {
        NormalizeExactKeepsValue(MakeRational(1, v).value);
      }
    case Rat(n, d) =>
      NormalizeExactKeepsValue(MakeRational(d, n).value);
  }

  /** IntegerValue.Inv of 0 does not throw: it builds the rational 1/0. */
  lemma InvOfZeroIsOneOverZero()
    ensures Inv(Ex(Zero)) == Ok(Ex(Rat(1, 0)))
  {
    assert Gcd(1, 0) == 1;
  }

  /** Negation is an involution and keeps the number's type. */
  lemma NegInvolution(x: Number)
    ensures Neg(Neg(x)) == x
    ensures TypeOf(Neg(x)) == TypeOf(x)
  {
  }

  /** Subtraction undoes addition on well-formed exact numbers: (x + y) - y
      has the value of x. */
  lemma SubUndoesAdd(x: Exact, y: Exact) returns (s: Exact, z: Exact)
    requires Valid(x) && Valid(y)
    ensures Add(Ex(x), Ex(y)) == Ok(Ex(s))
    ensures Sub(Ex(s), Ex(y)) == Ok(Ex(z))
    ensures SameValue(z, x)
  {
    AddExactIsSum(x, y);
    s := Add(Ex(x), Ex(y)).value.e;
    var ny := NegExact(y);
    AddExactIsSum(s, ny);
    z := Add(Ex(s), Ex(ny)).value.e;
    SubAlgebra(NumOf(x), DenOf(x), NumOf(y), DenOf(y), NumOf(s), DenOf(s), NumOf(z), DenOf(z), NumOf(ny), DenOf(ny));
  }

  /** The integer identity behind `SubUndoesAdd`. */
  lemma SubAlgebra(a: int, b: int, c: int, d: int, p: int, q: int, u: int, w: int, c2: int, d2: int)
    requires b != 0 && d != 0 && q != 0 && c2 == -c && d2 == d
    requires p * (b * d) == q * (a * d + c * b)
    requires u * (q * d2) == w * (p * d2 + c2 * q)
    ensures u * b == a * w
  {
    var k := q * d;
    var m := p * d + c2 * q;
    RegroupLeft(u, b, k);
    assert b * (u * k) == b * (w * m);
    RegroupRight(w, p, q, b, c, d);
    assert w * (p * (b * d)) == w * (q * (a * d + c * b));
    RegroupTarget(w, q, a, d, c, b);
    assert (u * b) * k == (a * w) * k;
    MulCancel(u * b, a * w, k);
  }

  lemma RegroupLeft(u: int, b: int, k: int)
    ensures (u * b) * k == b * (u * k)
  {
  }

  lemma RegroupRight(w: int, p: int, q: int, b: int, c: int, d: int)
    ensures b * (w * (p * d + -c * q)) == w * (p * (b * d)) - w * (c * (q * b))
  {
  }

  lemma RegroupTarget(w: int, q: int, a: int, d: int, c: int, b: int)
    ensures w * (q * (a * d + c * b)) == (a * w) * (q * d) + w * (c * (q * b))
  {
  }

  lemma MulCancel(x: int, y: int, k: int)
    requires k != 0 && x * k == y * k
    ensures x == y
  {
    assert (x - y) * k == 0;
  }

  // ---------------------------------------------------------------------
  // Conversion, negation and complex arithmetic meet the rationals

  /** Converting an exact number up the tower and back gives it back: an
      integer n becomes n/1, which truncates back to n; a complex number made
      from an exact one has it as its real part. */
  lemma ConvertUpAndBack(x: Exact, t: NumberType)
    requires Rank(t) >= Rank(TypeOf(Ex(x)))
    ensures ConvertTo(Ex(x), t).Ok?
    ensures ConvertTo(ConvertTo(Ex(x), t).value, TypeOf(Ex(x))) == Ok(Ex(x))
  {
    if x.Int? && t == Rational {
      TruncDivByOne(x.v);
    }
  }

  lemma TruncDivByOne(v: int)
    ensures TruncDiv(v, 1) == v
  {
    var q := TruncDiv(v, 1);
    assert Abs(q) == Abs(v);
  }

  /** Promotion of an exact operand against a complex one pairs it with a
      zero imaginary part, whichever side it is on. */
  lemma PromoteToComplex(x: Exact, re: Exact, im: Exact)
    ensures Promote(Ex(x), Cx(re, im)) == (Cx(x, Zero), Cx(re, im))
    ensures Promote(Cx(re, im), Ex(x)) == (Cx(re, im), Cx(x, Zero))
  {
  }

  /** `z` is well formed and denotes the rational n/d. */
  predicate Denotes(z: Exact, n: int, d: int) {
    Valid(z) && d != 0 && NumOf(z) * d == DenOf(z) * n
  }

  lemma ValidDenominator(x: Exact)
    requires Valid(x)
    ensures DenOf(x) != 0
  {
  }

  /** Negation denotes minus the value and keeps the denominator. */
  lemma NegDenotes(x: Exact, a: int, b: int)
    requires Denotes(x, a, b)
    ensures Denotes(NegExact(x), -a, b)
    ensures NumOf(NegExact(x)) == -NumOf(x) && DenOf(NegExact(x)) == DenOf(x)
  {
    MulNeg(DenOf(x), a);
    assert -NumOf(x) * b == -(NumOf(x) * b);
  }

  /** A number plus its negation is zero. */
  lemma AddNegIsZero(x: Exact)
    requires Valid(x)
    ensures Add(Ex(x), Ex(NegExact(x))).Ok?
    ensures NumOf(Add(Ex(x), Ex(NegExact(x))).value.e) == 0
  {
    var n, d := NumOf(x), DenOf(x);
    ValidDenominator(x);
    NegDenotes(x, n, d);
    AddDenotes(x, NegExact(x), n, d, -n, d);
    DenotesZero(Add(Ex(x), Ex(NegExact(x))).value.e, n, d);
  }

  /** Adding exact numbers respects the values they denote. */
  lemma AddDenotes(x: Exact, y: Exact, a: int, b: int, c: int, d: int)
    requires Denotes(x, a, b) && Denotes(y, c, d)
    ensures Add(Ex(x), Ex(y)).Ok?
    ensures Denotes(Add(Ex(x), Ex(y)).value.e, a * d + c * b, b * d)
  {
    AddExactIsSum(x, y);
    var z := Add(Ex(x), Ex(y)).value.e;
    ValidDenominator(x);
    ValidDenominator(y);
    FracSumRespects(a, b, c, d, NumOf(x), DenOf(x), NumOf(y), DenOf(y), NumOf(z), DenOf(z));
    assert b * d != 0;
  }

  /** If x = a/b, y = c/d and z = x + y then z = (ad + cb)/(bd). */
  lemma FracSumRespects(a: int, b: int, c: int, d: int, xn: int, xd: int, yn: int, yd: int, zn: int, zd: int)
    requires b != 0 && d != 0 && xd != 0 && yd != 0
    requires xn * b == xd * a && yn * d == yd * c
    requires zn * (xd * yd) == zd * (xn * yd + yn * xd)
    ensures zn * (b * d) == zd * (a * d + c * b)
  {
    var k := xd * yd;
    assert k != 0;
    SumRegroupLeft(zn, b * d, k);
    SumRegroupMid(zd, xn, yd, yn, xd, b, d);
    SumRegroupRight(zd, xd, a, yd, d, c, b);
    MulCancel(zn * (b * d), zd * (a * d + c * b), k);
  }

  lemma SumRegroupLeft(zn: int, m: int, k: int)
    ensures (zn * m) * k == (zn * k) * m
  {
  }

  lemma SumRegroupMid(zd: int, xn: int, yd: int, yn: int, xd: int, b: int, d: int)
    ensures (zd * (xn * yd + yn * xd)) * (b * d) == zd * ((xn * b) * (yd * d) + (yn * d) * (xd * b))
  {
  }

  lemma SumRegroupRight(zd: int, xd: int, a: int, yd: int, d: int, c: int, b: int)
    ensures zd * ((xd * a) * (yd * d) + (yd * c) * (xd * b)) == (zd * (a * d + c * b)) * (xd * yd)
  {
  }

  /** ComplexValue addition on well-formed parts: the real part denotes
      ar + br and the imaginary part ai + bi. */
  lemma ComplexAddIsComponentwise(ar: Exact, ai: Exact, br: Exact, bi: Exact)
    requires Valid(ar) && Valid(ai) && Valid(br) && Valid(bi)
    ensures Add(Cx(ar, ai), Cx(br, bi)).Ok?
    ensures var z := Add(Cx(ar, ai), Cx(br, bi)).value;
      z.Cx? &&
      Denotes(z.re, NumOf(ar) * DenOf(br) + NumOf(br) * DenOf(ar), DenOf(ar) * DenOf(br)) &&
      Denotes(z.im, NumOf(ai) * DenOf(bi) + NumOf(bi) * DenOf(ai), DenOf(ai) * DenOf(bi))
  {
    ComplexAddRealPart(ar, ai, br, bi);
    ComplexAddImagPart(ar, ai, br, bi);
  }

  /** The real part of a complex sum denotes ar + br. */
  lemma ComplexAddRealPart(ar: Exact, ai: Exact, br: Exact, bi: Exact)
    requires Valid(ar) && Valid(ai) && Valid(br) && Valid(bi)
    ensures Add(Cx(ar, ai), Cx(br, bi)).Ok?
    ensures var z := Add(Cx(ar, ai), Cx(br, bi)).value;
      z.Cx? && Denotes(z.re, NumOf(ar) * DenOf(br) + NumOf(br) * DenOf(ar), DenOf(ar) * DenOf(br))
  {
    AddExactIsSum(ar, br);
    AddExactIsSum(ai, bi);
    assert Add(Cx(ar, ai), Cx(br, bi)) == Ok(Cx(Add(Ex(ar), Ex(br)).value.e, Add(Ex(ai), Ex(bi)).value.e));
    ValidDenominator(ar);
    ValidDenominator(br);
    assert DenOf(ar) * DenOf(br) != 0;
  }

  /** The imaginary part of a complex sum denotes ai + bi. */
  lemma ComplexAddImagPart(ar: Exact, ai: Exact, br: Exact, bi: Exact)
    requires Valid(ar) && Valid(ai) && Valid(br) && Valid(bi)
    ensures Add(Cx(ar, ai), Cx(br, bi)).Ok?
    ensures var z := Add(Cx(ar, ai), Cx(br, bi)).value;
      z.Cx? && Denotes(z.im, NumOf(ai) * DenOf(bi) + NumOf(bi) * DenOf(ai), DenOf(ai) * DenOf(bi))
  {
    AddExactIsSum(ar, br);
    AddExactIsSum(ai, bi);
    assert Add(Cx(ar, ai), Cx(br, bi)) == Ok(Cx(Add(Ex(ar), Ex(br)).value.e, Add(Ex(ai), Ex(bi)).value.e));
    ValidDenominator(ai);
    ValidDenominator(bi);
    assert DenOf(ai) * DenOf(bi) != 0;
  }

  /** A complex number plus its negation has both parts zero. */
  lemma ComplexAddNegIsZero(re: Exact, im: Exact)
    requires Valid(re) && Valid(im)
    ensures Add(Cx(re, im), Neg(Cx(re, im))).Ok?
    ensures var z := Add(Cx(re, im), Neg(Cx(re, im))).value;
      z.Cx? && NumOf(z.re) == 0 && NumOf(z.im) == 0
  {
    var nre, nim := NegExact(re), NegExact(im);
    assert Neg(Cx(re, im)) == Cx(nre, nim);
    ValidDenominator(re);
    ValidDenominator(im);
    NegDenotes(re, NumOf(re), DenOf(re));
    NegDenotes(im, NumOf(im), DenOf(im));
    ComplexAddIsComponentwise(re, im, nre, nim);
    var z := Add(Cx(re, im), Cx(nre, nim)).value;
    AddNegatedIsZero(re, z.re);
    AddNegatedIsZero(im, z.im);
  }

  /** A part that denotes x + (-x) is zero. */
  lemma AddNegatedIsZero(x: Exact, z: Exact)
    requires Valid(x)
    requires Denotes(z, NumOf(x) * DenOf(NegExact(x)) + NumOf(NegExact(x)) * DenOf(x), DenOf(x) * DenOf(NegExact(x)))
    ensures NumOf(z) == 0
  {
    ValidDenominator(x);
    NegDenotes(x, NumOf(x), DenOf(x));
    DenotesZero(z, NumOf(x), DenOf(x));
  }

  /** n/d + (-n)/d is zero. */
  lemma DenotesZero(z: Exact, n: int, d: int)
    requires Denotes(z, n * d + -n * d, d * d)
    ensures NumOf(z) == 0
  {
    assert n * d + -n * d == 0;
    MulCancel(NumOf(z), 0, d * d);
  }

  /** ComplexValue multiplication on well-formed parts: with p = ar*br,
      q = ai*bi, s = ar*bi and t = ai*br, the real part denotes p - q and the
      imaginary part s + t. */
  lemma ComplexMulIsProduct(ar: Exact, ai: Exact, br: Exact, bi: Exact) returns (z: Number)
    requires Valid(ar) && Valid(ai) && Valid(br) && Valid(bi)
    ensures Mul(Cx(ar, ai), Cx(br, bi)) == Ok(z) && z.Cx?
    ensures var pn, pd := NumOf(ar) * NumOf(br), DenOf(ar) * DenOf(br);
      var qn, qd := NumOf(ai) * NumOf(bi), DenOf(ai) * DenOf(bi);
      Denotes(z.re, pn * qd - qn * pd, pd * qd)
    ensures var sn, sd := NumOf(ar) * NumOf(bi), DenOf(ar) * DenOf(bi);
      var tn, td := NumOf(ai) * NumOf(br), DenOf(ai) * DenOf(br);
      Denotes(z.im, sn * td + tn * sd, sd * td)
  {
    var rr := ProductDenotes(ar, br);
    var ii := ProductDenotes(ai, bi);
    var ri := ProductDenotes(ar, bi);
    var ir := ProductDenotes(ai, br);
    var re := DiffDenotes(rr, ii, NumOf(ar) * NumOf(br), DenOf(ar) * DenOf(br), NumOf(ai) * NumOf(bi), DenOf(ai) * DenOf(bi));
    AddDenotes(ri, ir, NumOf(ar) * NumOf(bi), DenOf(ar) * DenOf(bi), NumOf(ai) * NumOf(br), DenOf(ai) * DenOf(br));
    var im := Add(Ex(ri), Ex(ir)).value.e;
    ComplexMulSteps(ar, ai, br, bi, rr, ii, ri, ir);
    z := Cx(re, im);
  }

  /** Subtracting through `Add` and `Neg`, as the complex product does,
      denotes the difference. */
  lemma DiffDenotes(x: Exact, y: Exact, a: int, b: int, c: int, d: int) returns (z: Exact)
    requires Denotes(x, a, b) && Denotes(y, c, d)
    ensures Add(Ex(x), Ex(NegExact(y))) == Ok(Ex(z))
    ensures Denotes(z, a * d - c * b, b * d)
  {
    NegDenotes(y, c, d);
    AddDenotes(x, NegExact(y), a, b, -c, d);
    z := Add(Ex(x), Ex(NegExact(y))).value.e;
    assert -c * b == -(c * b);
  }

  /** `Mul` of two complex numbers from the four exact products. */
  lemma ComplexMulSteps(ar: Exact, ai: Exact, br: Exact, bi: Exact, rr: Exact, ii: Exact, ri: Exact, ir: Exact)
    requires Mul(Ex(ar), Ex(br)) == Ok(Ex(rr)) && Mul(Ex(ai), Ex(bi)) == Ok(Ex(ii))
    requires Mul(Ex(ar), Ex(bi)) == Ok(Ex(ri)) && Mul(Ex(ai), Ex(br)) == Ok(Ex(ir))
    requires Add(Ex(rr), Ex(NegExact(ii))).Ok? && Add(Ex(ri), Ex(ir)).Ok?
    ensures Mul(Cx(ar, ai), Cx(br, bi)) ==
      Ok(Cx(Add(Ex(rr), Ex(NegExact(ii))).value.e, Add(Ex(ri), Ex(ir)).value.e))
  {
    assert Promote(Cx(ar, ai), Cx(br, bi)) == (Cx(ar, ai), Cx(br, bi));
    assert Neg(Ex(ii)) == Ex(NegExact(ii));
  }

  /** The product of two well-formed exact numbers, which denotes the
      product of their values. */
  lemma ProductDenotes(x: Exact, y: Exact) returns (z: Exact)
    requires Valid(x) && Valid(y)
    ensures Mul(Ex(x), Ex(y)) == Ok(Ex(z))
    ensures Denotes(z, NumOf(x) * NumOf(y), DenOf(x) * DenOf(y))
  {
    MulExactIsProduct(x, y);
    z := Mul(Ex(x), Ex(y)).value.e;
    ValidDenominator(x);
    ValidDenominator(y);
    assert DenOf(x) * DenOf(y) != 0;
  }
}
