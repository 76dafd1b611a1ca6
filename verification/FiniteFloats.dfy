/** Finite IEEE-754 doubles as 64-bit patterns, negative zero normalized away. */
module FiniteFloats {
  import opened Wrappers
  import opened Bytes

  const SIGN_BIT: nat := 0x8000_0000_0000_0000
  const HIDDEN_BIT: nat := 0x10_0000_0000_0000
  const EXPONENT_MASK: nat := 0x7FF

  function Exponent(bits: u64): (e: nat)
    ensures e <= EXPONENT_MASK
  {
    bits % SIGN_BIT / HIDDEN_BIT
  }

  function Fraction(bits: u64): (f: nat)
    ensures f < HIDDEN_BIT
  {
    bits % HIDDEN_BIT
  }

  predicate IsNegative(bits: u64) {
    bits >= SIGN_BIT
  }

  predicate IsFinite(bits: u64) {
    Exponent(bits) != EXPONENT_MASK
  }

  /** Finite are the patterns below the two infinities, apart from the sign. */
  lemma FiniteBelowInfinity(bits: u64)
    ensures IsFinite(bits) <==> bits % 0x8000_0000_0000_0000 < 0x7FF0_0000_0000_0000
  {
  }

  /** A normalized finite double: not infinite, not a NaN, not negative zero. */
  type FiniteFloat = bits: u64 | IsFinite(bits) && bits != SIGN_BIT witness 0

  datatype FloatError = NonFinite

  /** `FiniteFloat::new`: reject what is not finite, turn both zeros into positive zero. */
  function New(bits: u64): (r: Result<FiniteFloat, FloatError>)
    ensures r.Success? <==> IsFinite(bits)
    ensures r.Success? ==> Value(r.value) == Value(bits)
  {
    if !IsFinite(bits) then Failure(NonFinite)
    else if bits == SIGN_BIT then Success(0)
    else Success(bits)
  }

  function PowerOfTwo(n: nat): (p: nat)
    ensures p >= 1
  {
    if n == 0 then 1 else 2 * PowerOfTwo(n - 1)
  }

  /** The magnitude of a finite double, counted in units of two to the power -1074: a
      subnormal is its fraction, a normal number carries the hidden bit and its exponent. */
  function Magnitude(exponent: nat, fraction: nat): (m: nat) {
    if exponent == 0 then fraction else (HIDDEN_BIT + fraction) * PowerOfTwo(exponent - 1)
  }

  /** The exact value of a finite double in the same units. */
  function Value(bits: u64): (v: int)
  {
    var m: int := Magnitude(Exponent(bits), Fraction(bits));
    if IsNegative(bits) then -m else m
  }

  lemma NextExponentIsLarger(e: nat, f1: nat, f2: nat)
    requires f1 < HIDDEN_BIT
    ensures Magnitude(e, f1) < Magnitude(e + 1, f2)
  {
    if e == 0 {
      assert PowerOfTwo(0) == 1;
    } else {
      var p := PowerOfTwo(e - 1);
      assert PowerOfTwo(e) == 2 * p;
      assert (HIDDEN_BIT + f1) * p < (HIDDEN_BIT + HIDDEN_BIT) * p;
      assert (HIDDEN_BIT + f2) * (2 * p) == (2 * HIDDEN_BIT) * p + 2 * f2 * p;
    }
  }

  lemma {:induction false} MagnitudeOrder(e1: nat, f1: nat, e2: nat, f2: nat)
    requires f1 < HIDDEN_BIT && f2 < HIDDEN_BIT
    requires e1 < e2 || (e1 == e2 && f1 < f2)
    ensures Magnitude(e1, f1) < Magnitude(e2, f2)
    decreases e2
  {
    if e1 == e2 {
      if e1 > 0 {
        var p := PowerOfTwo(e1 - 1);
        assert (HIDDEN_BIT + f1) * p < (HIDDEN_BIT + f2) * p;
      }
    } else {
      if e1 < e2 - 1 {
        MagnitudeOrder(e1, f1, e2 - 1, 0);
      }
      NextExponentIsLarger(e2 - 1, if e1 == e2 - 1 then f1 else 0, f2);
    }
  }

  /** Two normalized doubles are numerically equal exactly when their bits are. */
  lemma BitsDecideEquality(a: FiniteFloat, b: FiniteFloat)
    ensures Value(a) == Value(b) <==> a == b
  {
    var ea, fa, eb, fb := Exponent(a), Fraction(a), Exponent(b), Fraction(b);
    if ea < eb || (ea == eb && fa < fb) {
      MagnitudeOrder(ea, fa, eb, fb);
    } else if eb < ea || (ea == eb && fb < fa) {
      MagnitudeOrder(eb, fb, ea, fa);
    } else {
      SamePattern(a, b);
      NoMagnitude(ea, fa);
      if Magnitude(ea, fa) == 0 {
        ZeroPattern(a);
        ZeroPattern(b);
      }
    }
  }

  /** Equal fields leave only the sign bit to differ. */
  lemma SamePattern(a: u64, b: u64)
    requires Exponent(a) == Exponent(b) && Fraction(a) == Fraction(b)
    ensures a % SIGN_BIT == b % SIGN_BIT
  {
    assert SIGN_BIT == 2048 * HIDDEN_BIT;
    LowBits(a);
    LowBits(b);
  }

  lemma LowBits(bits: u64)
    ensures bits % SIGN_BIT == Exponent(bits) * HIDDEN_BIT + Fraction(bits)
  {
    var low := bits % SIGN_BIT;
    assert low == low / HIDDEN_BIT * HIDDEN_BIT + low % HIDDEN_BIT;
    assert low % HIDDEN_BIT == bits % HIDDEN_BIT;
  }

  lemma NoMagnitude(exponent: nat, fraction: nat)
    ensures Magnitude(exponent, fraction) == 0 <==> exponent == 0 && fraction == 0
  {
    if exponent > 0 {
      assert (HIDDEN_BIT + fraction) * PowerOfTwo(exponent - 1) >= HIDDEN_BIT * 1;
    }
  }

  lemma ZeroPattern(bits: FiniteFloat)
    requires Exponent(bits) == 0 && Fraction(bits) == 0
    ensures bits == 0
  {
    LowBits(bits);
  }

  /** Constructing from two patterns gives the same stored bits exactly when the patterns
      denote the same number. */
  lemma NewIsCanonical(a: u64, b: u64)
    requires New(a).Success? && New(b).Success?
    ensures New(a) == New(b) <==> Value(a) == Value(b)
  {
    BitsDecideEquality(New(a).value, New(b).value);
  }
}
