/** The numeric folds of the binary operators, on exact decimals (reals).
    Division truncates toward zero and the remainder takes the sign of the
    dividend, as the decimal type does; Dafny's own `/` and `%` on int are
    Euclidean and are not used for them. */
module Arith {
  import opened Outcomes

  /** Bounds of the 32-bit signed integer that integer division converts to. */
  const Int32Min: int := -0x8000_0000
  const Int32Max: int := 0x7fff_ffff

  /** The integral part of `x`: rounding toward zero. */
  function Trunc(x: real): (t: int)
    ensures 0.0 <= x ==> t as real <= x < t as real + 1.0
    ensures x < 0.0 ==> t as real - 1.0 < x <= t as real
  {
    if x >= 0.0 then x.Floor else -((-x).Floor)
  }

  /** Sub: exact difference. */
  function SubFold(a: real, b: real): (r: Result<real>)
    ensures r.Ok? && r.value + b == a
  {
    Ok(a - b)
  }

  /** Divide: exact quotient; division by zero raises. The decimal type's
      rounding to 28-29 significant digits is not modelled. */
  function DivideFold(a: real, b: real): (r: Result<real>)
    ensures b == 0.0 <==> r == Err(DivideByZero)
    ensures r.Ok? ==> r.value * b == a
  {
    if b == 0.0 then Err(DivideByZero) else Ok(a / b)
  }

  /** Div: the quotient truncated toward zero, then converted to a 32-bit
      integer, which raises when the truncated value is out of range. */
  function DivFold(a: real, b: real): (r: Result<real>)
    ensures b == 0.0 <==> r == Err(DivideByZero)
    ensures b != 0.0 ==> (r == Err(Overflow) <==> !(Int32Min <= Trunc(a / b) <= Int32Max))
    ensures r.Ok? ==> r.value == Trunc(a / b) as real
    ensures r.Ok? ==> r.value == r.value.Floor as real
  {
    if b == 0.0 then Err(DivideByZero)
    else
      var q := Trunc(a / b);
      if Int32Min <= q <= Int32Max then Ok(q as real) else Err(Overflow)
  }

  /** Rem: the remainder of truncating division, sign of the dividend. */
  function RemFold(a: real, b: real): (r: Result<real>)
    ensures b == 0.0 <==> r == Err(DivideByZero)
  {
    if b == 0.0 then Err(DivideByZero) else Ok(a - b * Trunc(a / b) as real)
  }

  /** The remainder is smaller in magnitude than the divisor, is zero or has
      the dividend's sign, and recombines with the truncated quotient to the
      dividend. */
  lemma RemProperties(a: real, b: real)
    requires b != 0.0
    ensures var r := RemFold(a, b).value;
      && r + b * Trunc(a / b) as real == a
      && (if b > 0.0 then -b < r < b else b < r < -b)
      && (r == 0.0 || (r > 0.0 <==> a > 0.0))
  {
    RemCore(a, b, a / b, Trunc(a / b));
  }

  /** The remainder facts over an arbitrary quotient `t` and its truncation
      `q`, kept free of division so the solver sees only products. */
  lemma RemCore(a: real, b: real, t: real, q: int)
    requires b != 0.0 && a == b * t
    requires 0.0 <= t ==> q as real <= t < q as real + 1.0
    requires t < 0.0 ==> q as real - 1.0 < t <= q as real
    ensures var r := a - b * q as real;
      && (if b > 0.0 then -b < r < b else b < r < -b)
      && (r == 0.0 || (r > 0.0 <==> a > 0.0))
  {
    var d := t - q as real;
    Distrib(b, t, q as real);
    var r := a - b * q as real;
    assert r == b * d;
    ScaledFraction(b, d);
    assert t == 0.0 ==> q == 0;
    ProductSign(b, t);
    ProductSign(b, d);
  }

  lemma Distrib(b: real, t: real, q: real)
    ensures b * t - b * q == b * (t - q)
  {
  }

  /** A fraction of magnitude below one shrinks a non-zero factor. */
  lemma ScaledFraction(b: real, d: real)
    requires b != 0.0 && -1.0 < d < 1.0
    ensures if b > 0.0 then -b < b * d < b else b < b * d < -b
  {
    if d < 0.0 {
      MulBounds(if b > 0.0 then b else -b, -d);
      MulNeg(b, -d);
      MulNeg(-b, -d);
    } else {
      MulBounds(if b > 0.0 then b else -b, d);
      MulNeg(b, d);
    }
  }

  lemma ProductSign(x: real, y: real)
    ensures x * y > 0.0 <==> (x > 0.0 && y > 0.0) || (x < 0.0 && y < 0.0)
    ensures x * y == 0.0 <==> x == 0.0 || y == 0.0
  {
    if x > 0.0 && y < 0.0 {
      MulNeg(x, -y);
    } else if x < 0.0 && y > 0.0 {
      MulNeg(-x, y);
    } else if x < 0.0 && y < 0.0 {
      MulNeg(-x, y);
      MulNeg(x, y);
    }
  }

  lemma MulBounds(x: real, y: real)
    requires x > 0.0 && 0.0 <= y < 1.0
    ensures 0.0 <= x * y < x
    ensures y > 0.0 ==> x * y > 0.0
  {
  }

  lemma MulNeg(x: real, y: real)
    ensures x * (-y) == -(x * y) && (-x) * y == -(x * y)
  {
  }

  /** On non-negative integers the truncating quotient agrees with ordinary
      integer division. */
  lemma DivAgreesOnNaturals(a: int, b: int)
    requires 0 <= a && 0 < b && a / b <= Int32Max
    ensures DivFold(a as real, b as real) == Ok((a / b) as real)
  {
    var q := a / b;
    var m := a % b;
    assert a == b * q + m && 0 <= m < b;
    var t := a as real / b as real;
    assert t == q as real + m as real / b as real;
    assert 0.0 <= m as real / b as real < 1.0;
    assert Trunc(t) == q;
  }

  /** Where truncating and Euclidean division part ways: -7 div 2 is -3 with
      remainder -1, whereas Dafny's own Euclidean `/` and `%` on int would
      give -4 and 1. */
  lemma NegativeDividend()
    ensures DivFold(-7.0, 2.0) == Ok(-3.0) && RemFold(-7.0, 2.0) == Ok(-1.0)
  {
    assert Trunc(-3.5) == -3;
  }
}
