/**
 * Textbook RSA private exponent: hexadecimal parsing of the key material, the
 * extended Euclidean algorithm, the modular inverse of e modulo
 * phi = (p - 1)(q - 1), and the upper-case hexadecimal rendering of the result.
 */
module Rsa {
  import opened Outcomes

  // ---------------------------------------------------------------------------
  // Hexadecimal
  // ---------------------------------------------------------------------------

  predicate IsHexDigit(c: char)
  {
    ('0' <= c <= '9') || ('a' <= c <= 'f') || ('A' <= c <= 'F')
  }

  function HexDigitValue(c: char): (d: nat)
    requires IsHexDigit(c)
    ensures d < 16
  {
    if '0' <= c <= '9' then c as int - '0' as int
    else if 'a' <= c <= 'f' then c as int - 'a' as int + 10
    else c as int - 'A' as int + 10
  }

  /** The upper-case digit `hex(...).upper()` prints. */
  function HexChar(d: nat): (c: char)
    requires d < 16
    ensures IsHexDigit(c) && HexDigitValue(c) == d
  {
    if d < 10 then ('0' as int + d) as char else ('A' as int + d - 10) as char
  }

  predicate AllHex(s: string)
  {
    forall k :: 0 <= k < |s| ==> IsHexDigit(s[k])
  }

  /** The value of a string of hexadecimal digits, most significant first. */
  function HexValue(s: string): (v: nat)
    requires AllHex(s)
    ensures v < Pow16(|s|)
  {
    if |s| == 0 then 0 else HexValue(s[..|s| - 1]) * 16 + HexDigitValue(s[|s| - 1])
  }

  function Pow16(n: nat): (p: nat)
    ensures p >= 1
  {
    if n == 0 then 1 else 16 * Pow16(n - 1)
  }

  /**
   * `int(s, 16)`: an optional sign, then at least one hexadecimal digit in
   * either case; anything else raises ValueError, here None.
   */
  function HexToInt(s: string): (r: Option<int>)
    ensures r.Some? <==> (|s| > 0 && AllHex(s)) || (|s| > 1 && (s[0] == '+' || s[0] == '-') && AllHex(s[1..]))
    ensures r.Some? && |s| > 0 && AllHex(s) ==> r.value == HexValue(s)
  {
    if |s| > 0 && AllHex(s) then Some(HexValue(s))
    else if |s| > 1 && s[0] == '+' && AllHex(s[1..]) then Some(HexValue(s[1..]))
    else if |s| > 1 && s[0] == '-' && AllHex(s[1..]) then var v: int := HexValue(s[1..]); Some(-v)
    else None
  }

  /** `hex(n)[2:].upper()` for n >= 0: upper-case digits without leading zeros. */
  function ShowHex(n: nat): (s: string)
    ensures |s| > 0 && AllHex(s)
    ensures |s| > 1 ==> s[0] != '0'
  {
    if n < 16 then [HexChar(n)] else ShowHex(n / 16) + [HexChar(n % 16)]
  }

  /** Rendering a non-negative number and parsing it back gives the number. */
  lemma {:induction false} HexValueOfShowHex(n: nat)
    ensures HexValue(ShowHex(n)) == n
  {
    if n >= 16 {
      HexValueOfShowHex(n / 16);
      var s := ShowHex(n);
      assert s[..|s| - 1] == ShowHex(n / 16);
    }
  }

  lemma HexToIntOfShowHex(n: nat)
    ensures HexToInt(ShowHex(n)) == Some(n)
  {
    HexValueOfShowHex(n);
  }

  /** The public exponent of the key, "0D88C3". */
  lemma PublicExponentValue()
    ensures HexToInt("0D88C3") == Some(886979)
  {
    assert HexValue("0") == 0 by { assert "0"[..0] == []; }
    assert HexValue("0D") == 13 by { assert "0D"[..1] == "0"; }
    assert HexValue("0D8") == 216 by { assert "0D8"[..2] == "0D"; }
    assert HexValue("0D88") == 3464 by { assert "0D88"[..3] == "0D8"; }
    assert HexValue("0D88C") == 55436 by { assert "0D88C"[..4] == "0D88"; }
    assert HexValue("0D88C3") == 886979 by { assert "0D88C3"[..5] == "0D88C"; }
  }

  // ---------------------------------------------------------------------------
  // Python's floored division
  // ---------------------------------------------------------------------------

  /** `b // a`: rounds toward negative infinity. */
  function FloorDiv(b: int, a: int): (q: int)
    requires a != 0
    ensures a > 0 ==> a * q <= b < a * q + a
    ensures a < 0 ==> a * q + a < b <= a * q
  {
    if a > 0 || b % a == 0 then b / a else b / a - 1
  }

  /** `b % a`: takes the sign of the divisor. */
  function FloorMod(b: int, a: int): (r: int)
    requires a != 0
    ensures a > 0 ==> 0 <= r < a
    ensures a < 0 ==> a < r <= 0
    ensures b == a * FloorDiv(b, a) + r
  {
    if a > 0 || b % a == 0 then b % a else b % a + a
  }

  function Abs(n: int): nat
  {
    if n < 0 then -n else n
  }

  // ---------------------------------------------------------------------------
  // The extended Euclidean algorithm
  // ---------------------------------------------------------------------------

  lemma BezoutStep(a: int, b: int, g: int, x1: int, y1: int)
    requires a != 0 && FloorMod(b, a) * x1 + a * y1 == g
    ensures a * (y1 - FloorDiv(b, a) * x1) + b * x1 == g
  {
    var q := FloorDiv(b, a);
    var r := FloorMod(b, a);
    assert b * x1 == a * q * x1 + r * x1 by {
      assert b == a * q + r;
    }
    assert a * (y1 - q * x1) == a * y1 - a * q * x1;
  }

  /**
   * `extended_gcd(a, b)`: (g, x, y) with a*x + b*y == g, by recursion on
   * `b % a`, which is smaller than `a` in magnitude.
   */
  function ExtendedGcd(a: int, b: int): (r: (int, int, int))
    decreases Abs(a)
    ensures a == 0 ==> r == (b, 0, 1)
    ensures a * r.1 + b * r.2 == r.0
    ensures a >= 0 && b >= 0 ==> r.0 >= 0
  {
    if a == 0 then (b, 0, 1)
    else
      var (g, x1, y1) := ExtendedGcd(FloorMod(b, a), a);
      BezoutStep(a, b, g, x1, y1);
      (g, y1 - FloorDiv(b, a) * x1, x1)
  }

  lemma Distribute(g: int, u: int, q: int, v: int)
    ensures g * (u * q + v) == (g * u) * q + g * v
  {
  }

  lemma Distribute2(g: int, u: int, x: int, v: int, y: int)
    ensures g * (u * x + v * y) == (g * u) * x + (g * v) * y
  {
  }

  ghost predicate Divides(d: int, n: int)
  {
    exists k :: d * k == n
  }

  /** The g of `extended_gcd` divides both arguments. */
  lemma {:induction false} ExtendedGcdDivides(a: int, b: int)
    decreases Abs(a)
    ensures Divides(ExtendedGcd(a, b).0, a) && Divides(ExtendedGcd(a, b).0, b)
  {
    var g := ExtendedGcd(a, b).0;
    if a == 0 {
      assert g * 0 == a && g * 1 == b;
    } else {
      var r := FloorMod(b, a);
      var q := FloorDiv(b, a);
      ExtendedGcdDivides(r, a);
      assert g == ExtendedGcd(r, a).0;
      var kr :| g * kr == r;
      var ka :| g * ka == a;
      Distribute(g, ka, q, kr);
      assert g * (ka * q + kr) == b;
    }
  }

  /** Every common divisor of a and b divides g. */
  lemma CommonDivisorDividesGcd(a: int, b: int, d: int)
    requires Divides(d, a) && Divides(d, b)
    ensures Divides(d, ExtendedGcd(a, b).0)
  {
    var r := ExtendedGcd(a, b);
    var ka :| d * ka == a;
    var kb :| d * kb == b;
    Distribute2(d, ka, r.1, kb, r.2);
    assert d * (ka * r.1 + kb * r.2) == r.0;
  }

  /** For non-negative arguments g is the greatest common divisor: non-negative, common, and divisible by every common divisor. */
  lemma ExtendedGcdIsGcd(a: int, b: int)
    requires a >= 0 && b >= 0
    ensures var g := ExtendedGcd(a, b).0;
            && g >= 0 && Divides(g, a) && Divides(g, b)
            && forall d :: Divides(d, a) && Divides(d, b) ==> Divides(d, g)
  {
    ExtendedGcdDivides(a, b);
    forall d | Divides(d, a) && Divides(d, b)
      ensures Divides(d, ExtendedGcd(a, b).0)
    {
      CommonDivisorDividesGcd(a, b, d);
    }
  }

  // ---------------------------------------------------------------------------
  // The private exponent
  // ---------------------------------------------------------------------------

  /** `(p - 1) * (q - 1)`. */
  function Phi(p: int, q: int): (phi: int)
    ensures p >= 2 && q >= 2 ==> phi >= 1
  {
    (p - 1) * (q - 1)
  }

  /** `mod_inverse` raises when g != 1, and `x % phi` raises when phi is zero. */
  datatype InverseError = NoInverse | ZeroModulus

  /** `mod_inverse(e, phi)`: x of `extended_gcd(e, phi)` reduced modulo phi. */
  function ModInverse(e: int, phi: int): (r: Result<int, InverseError>)
    ensures r == Err(NoInverse) <==> ExtendedGcd(e, phi).0 != 1
    ensures r == Err(ZeroModulus) <==> ExtendedGcd(e, phi).0 == 1 && phi == 0
    ensures r.Ok? && phi > 0 ==> 0 <= r.value < phi
  {
    var (g, x, _) := ExtendedGcd(e, phi);
    if g != 1 then Err(NoInverse)
    else if phi == 0 then Err(ZeroModulus)
    else Ok(FloorMod(x, phi))
  }

  /** The result is an inverse: phi divides e*d - 1. */
  lemma ModInverseIsInverse(e: int, phi: int)
    requires ModInverse(e, phi).Ok?
    ensures Divides(phi, e * ModInverse(e, phi).value - 1)
  {
    var (g, x, y) := ExtendedGcd(e, phi);
    var q := FloorDiv(x, phi);
    var d := FloorMod(x, phi);
    assert d == ModInverse(e, phi).value;
    InverseWitness(e, phi, x, y, q, d);
  }

  lemma InverseWitness(e: int, phi: int, x: int, y: int, q: int, d: int)
    requires e * x + phi * y == 1 && x == phi * q + d
    ensures phi * (-y - e * q) == e * d - 1
  {
    assert e * x == e * (phi * q) + e * d;
    assert e * (phi * q) == phi * (e * q);
    assert phi * (-y - e * q) == -(phi * y) - phi * (e * q);
  }

  lemma CombineUnit(g: int, ke: int, kp: int, d: int, k: int, e: int, phi: int)
    requires g * ke == e && g * kp == phi && phi * k == e * d - 1
    ensures g * (ke * d - kp * k) == 1
  {
    assert g * (ke * d - kp * k) == (g * ke) * d - (g * kp) * k;
  }

  lemma UnitFactor(g: int, m: int)
    requires g >= 0 && g * m == 1
    ensures g == 1
  {
    assert m >= 1;
  }

  /**
   * An inverse exists only when g is 1: for non-negative e and phi, NoInverse
   * is reported exactly when no d makes phi divide e*d - 1.
   */
  lemma InverseNeedsCoprime(e: int, phi: int, d: int)
    requires e >= 0 && phi >= 0 && Divides(phi, e * d - 1)
    ensures ExtendedGcd(e, phi).0 == 1
  {
    var g := ExtendedGcd(e, phi).0;
    ExtendedGcdDivides(e, phi);
    var ke :| g * ke == e;
    var kp :| g * kp == phi;
    var k :| phi * k == e * d - 1;
    CombineUnit(g, ke, kp, d, k, e, phi);
    UnitFactor(g, ke * d - kp * k);
  }

  /**
   * The private exponent of a key with primes p, q >= 2 and e >= 0: either
   * NoInverse, or d in [0, phi) with e*d = 1 modulo phi; dividing by zero
   * cannot happen.
   */
  lemma PrivateExponent(p: int, q: int, e: int)
    requires p >= 2 && q >= 2 && e >= 0
    ensures ModInverse(e, Phi(p, q)) != Err(ZeroModulus)
    ensures ModInverse(e, Phi(p, q)).Ok? ==>
              var d := ModInverse(e, Phi(p, q)).value;
              0 <= d < Phi(p, q) && Divides(Phi(p, q), e * d - 1)
    ensures (exists d :: Divides(Phi(p, q), e * d - 1)) ==> ModInverse(e, Phi(p, q)).Ok?
  {
    if ModInverse(e, Phi(p, q)).Ok? {
      ModInverseIsInverse(e, Phi(p, q));
    }
    if exists d :: Divides(Phi(p, q), e * d - 1) {
      var d :| Divides(Phi(p, q), e * d - 1);
      InverseNeedsCoprime(e, Phi(p, q), d);
    }
  }
}
