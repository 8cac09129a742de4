/**
 * Java's `long` and `double` as the time and geometry arithmetic uses them. A double is
 * an exact real, or one of the non-finite values a division by zero produces; rounding
 * to 53 or 24 bits is not modelled. `long` multiplication and addition wrap modulo 2^64,
 * and the `(long)` cast of a double truncates toward zero and saturates.
 */
module JavaNumbers {
  import opened JavaText

  datatype Double = Finite(v: real) | PosInf | NegInf | NaN

  /** Two's-complement wrap-around of a mathematical integer into the range of `long`. */
  function Wrap64(x: int): (r: int)
    ensures LONG_MIN <= r <= LONG_MAX
    ensures LONG_MIN <= x <= LONG_MAX ==> r == x
    ensures (r - x) % 0x1_0000_0000_0000_0000 == 0
  {
    (x - LONG_MIN) % 0x1_0000_0000_0000_0000 + LONG_MIN
  }

  /** Just above the range of `long`, wrapping subtracts 2^64. */
  lemma Wrap64Above(x: int)
    requires LONG_MAX < x < 0x1_0000_0000_0000_0000
    ensures Wrap64(x) == x - 0x1_0000_0000_0000_0000
  {
    var q := x - LONG_MIN - 0x1_0000_0000_0000_0000;
    assert 0 <= q < 0x1_0000_0000_0000_0000;
    assert x - LONG_MIN == q + 0x1_0000_0000_0000_0000;
  }

  function Add(a: Double, b: Double): Double {
    match (a, b)
    case (NaN, _) => NaN
    case (_, NaN) => NaN
    case (PosInf, NegInf) => NaN
    case (NegInf, PosInf) => NaN
    case (PosInf, _) => PosInf
    case (_, PosInf) => PosInf
    case (NegInf, _) => NegInf
    case (_, NegInf) => NegInf
    case (Finite(x), Finite(y)) => Finite(x + y)
  }

  function Negate(a: Double): Double {
    match a
    case Finite(x) => Finite(-x)
    case PosInf => NegInf
    case NegInf => PosInf
    case NaN => NaN
  }

  /** An infinity times a non-zero finite factor keeps or flips its sign; times zero it is NaN. */
  function Mul(a: Double, b: Double): Double {
    match (a, b)
    case (NaN, _) => NaN
    case (_, NaN) => NaN
    case (Finite(x), Finite(y)) => Finite(x * y)
    case (Finite(x), _) => if x == 0.0 then NaN else if x > 0.0 then b else Negate(b)
    case (_, Finite(y)) => if y == 0.0 then NaN else if y > 0.0 then a else Negate(a)
    case (_, _) => if a == b then PosInf else NegInf
  }

  /**
   * Division. A zero divisor is taken as +0.0 (the divisors here come from int values),
   * so a positive dividend gives +Infinity, a negative one -Infinity and zero NaN.
   */
  function Div(a: Double, b: Double): Double {
    match (a, b)
    case (NaN, _) => NaN
    case (_, NaN) => NaN
    case (Finite(x), Finite(y)) =>
      if y != 0.0 then Finite(x / y)
      else if x == 0.0 then NaN
      else if x > 0.0 then PosInf
      else NegInf
    case (Finite(_), _) => Finite(0.0)
    case (_, Finite(y)) => if y >= 0.0 then a else Negate(a)
    case (_, _) => NaN
  }

  /** Truncation toward zero. */
  function Trunc(x: real): (r: int)
    ensures x >= 0.0 ==> r as real <= x < r as real + 1.0
    ensures x < 0.0 ==> r as real - 1.0 < x <= r as real
  {
    if x >= 0.0 then x.Floor else -((-x).Floor)
  }

  /** The `(long)` cast: NaN is 0, infinities and out-of-range values saturate. */
  function ToLong(d: Double): (r: int)
    ensures LONG_MIN <= r <= LONG_MAX
    ensures d.Finite? && LONG_MIN <= Trunc(d.v) <= LONG_MAX ==> r == Trunc(d.v)
  {
    match d
    case NaN => 0
    case PosInf => LONG_MAX
    case NegInf => LONG_MIN
    case Finite(x) =>
      var t := Trunc(x);
      if t < LONG_MIN then LONG_MIN else if t > LONG_MAX then LONG_MAX else t
  }
}
