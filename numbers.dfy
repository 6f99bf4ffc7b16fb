/** Shared numeric vocabulary of the dashboard: optional values, absolute
    value, powers of ten, and the value that JavaScript's `toFixed` renders.

    Prices, volumes and amounts are exact reals here; the decimal text that
    `toFixed` produces is not modelled, only the number it stands for. */
module Numbers {

  datatype Option<T> = None | Some(value: T) {
    /** The `??` operator: the carried value, or `default` when absent. */
    function GetOr(default: T): (r: T)
      ensures Some? ==> r == value
      ensures None? ==> r == default
    {
      match this
      case Some(v) => v
      case None => default
    }
  }

  /** What a formatter puts on screen: an optional sign prefix, the number
      that the decimal text stands for, and a unit suffix. */
  datatype Label = Label(prefix: string, amount: real, suffix: string)

  function Abs(x: real): real {
    if x < 0.0 then -x else x
  }

  /** 10 to the power `digits`, as a real: the scale of `digits` decimals. */
  function Scale(digits: nat): (p: real)
    ensures p >= 1.0
  {
    if digits == 0 then 1.0 else 10.0 * Scale(digits - 1)
  }

  /** `y` counted in units of the last of `digits` decimals. */
  function Scaled(y: real, digits: nat): real {
    y * Scale(digits)
  }

  /** The nearest integer to `y`, ties going up. */
  function RoundHalfUp(y: real): (n: int)
    ensures y - 0.5 < n as real <= y + 0.5
  {
    (y + 0.5).Floor
  }

  /** Dividing a nearest integer `n` of `y * s` by `s` lands within half a
      unit of the scale from `y`. */
  lemma RoundingError(n: int, y: real, s: real)
    requires s > 0.0
    requires y * s - 0.5 < n as real <= y * s + 0.5
    ensures (n as real / s) * s == n as real
    ensures 2.0 * Abs(n as real / s - y) * s <= 1.0
  {
    var m := n as real / s;
    assert m * s == n as real;
    if m < y {
      assert (y - m) * s == y * s - m * s;
    } else {
      assert (m - y) * s == m * s - y * s;
    }
  }

  /** The magnitude `toFixed` renders: a non-negative `y` rounded to
      `digits` decimals, halfway cases going up. */
  function RoundedMagnitude(y: real, digits: nat): (m: real)
    requires y >= 0.0
    ensures m >= 0.0
    ensures Scaled(m, digits) == RoundHalfUp(Scaled(y, digits)) as real
    ensures 2.0 * Abs(m - y) * Scale(digits) <= 1.0
  {
    var n := RoundHalfUp(Scaled(y, digits));
    RoundingError(n, y, Scale(digits));
    n as real / Scale(digits)
  }

  /** What rounding `x` to `digits` decimals means, in units of the last
      decimal: `r` has at most `digits` decimals, lies within half a unit
      of `x`, and a value exactly halfway between two neighbours goes to
      the one further from zero. */
  predicate RoundsTo(x: real, digits: nat, r: real) {
    var n := Scaled(r, digits);
    var y := Scaled(x, digits);
    && n == n.Floor as real
    && 2.0 * Abs(n - y) <= 1.0
    && (2.0 * Abs(n - y) == 1.0 ==> Abs(n) > Abs(y))
  }

  /** The value of `x.toFixed(digits)`: the magnitude of `x` rounded as
      above, with the sign of `x` put back. */
  function ToFixed(x: real, digits: nat): (r: real)
    ensures 2.0 * Abs(r - x) * Scale(digits) <= 1.0
    ensures x >= 0.0 ==> r >= 0.0
    ensures x <= 0.0 ==> r <= 0.0
  {
    var m := RoundedMagnitude(Abs(x), digits);
    if x >= 0.0 then m else -m
  }

  /** `toFixed` rounds: its value has at most `digits` decimals, and a
      halfway case goes away from zero. */
  lemma ToFixedRounds(x: real, digits: nat)
    ensures RoundsTo(x, digits, ToFixed(x, digits))
  {
    SignedRounding(x, digits, RoundedMagnitude(Abs(x), digits));
  }

  lemma ScaledNeg(y: real, digits: nat)
    ensures Scaled(-y, digits) == -Scaled(y, digits)
  {
  }

  /** Putting the sign of `x` back on its rounded magnitude rounds `x`. */
  lemma SignedRounding(x: real, digits: nat, m: real)
    requires m == RoundedMagnitude(Abs(x), digits)
    ensures RoundsTo(x, digits, if x >= 0.0 then m else -m)
  {
    var big := RoundHalfUp(Scaled(Abs(x), digits));
    assert Scaled(m, digits) == big as real;
    if x >= 0.0 {
      assert (big as real).Floor == big;
    } else {
      ScaledNeg(x, digits);
      ScaledNeg(m, digits);
      assert (-big as real).Floor == -big;
    }
  }

  /** Rounding has exactly one result: any `r` that rounds `x` is the value
      `toFixed` shows. */
  lemma ToFixedUnique(x: real, digits: nat, r: real)
    requires RoundsTo(x, digits, r)
    ensures r == ToFixed(x, digits)
  {
    var t := ToFixed(x, digits);
    ToFixedRounds(x, digits);
    var k1 := Scaled(r, digits).Floor;
    var k2 := Scaled(t, digits).Floor;
    assert k1 == k2;
    MulCancel(r, t, Scale(digits));
  }

  /** A value that already has at most `digits` decimals (it is `n`
      hundredths, say, for two digits) is shown as it is. */
  lemma ToFixedExact(x: real, digits: nat, n: int)
    requires Scaled(x, digits) == n as real
    ensures ToFixed(x, digits) == x
  {
    var p := Scale(digits);
    var a := if n < 0 then -n else n;
    assert Scaled(Abs(x), digits) == a as real by {
      if x < 0.0 {
        assert Abs(x) * p == -(x * p);
      }
    }
    assert RoundHalfUp(a as real) == a;
    var m := RoundedMagnitude(Abs(x), digits);
    assert Scaled(m, digits) == a as real;
    MulCancel(m, Abs(x), p);
  }

  lemma MulCancel(a: real, b: real, s: real)
    requires s > 0.0 && a * s == b * s
    ensures a == b
  {
    assert (a - b) * s == 0.0;
  }

  /** Rounding a value at or above a bound with at most `digits` decimals
      (`lo` units of the last decimal) stays at or above it. */
  lemma ToFixedAtLeast(x: real, digits: nat, lo: nat)
    requires lo as real <= Scaled(x, digits)
    ensures lo as real <= Scaled(ToFixed(x, digits), digits)
  {
    assert x >= 0.0;
    assert lo <= RoundHalfUp(Scaled(x, digits));
  }

  /** Rounding a non-negative value at or below a bound with at most
      `digits` decimals (`hi` units of the last decimal) stays at or below
      it. */
  lemma ToFixedAtMost(x: real, digits: nat, hi: nat)
    requires 0.0 <= x && Scaled(x, digits) <= hi as real
    ensures Scaled(ToFixed(x, digits), digits) <= hi as real
  {
    assert RoundHalfUp(Scaled(x, digits)) <= hi;
  }

  /** Rounding is symmetric about zero: `toFixed` formats the magnitude. */
  lemma ToFixedOdd(x: real, digits: nat)
    ensures ToFixed(-x, digits) == -ToFixed(x, digits)
  {
    assert Abs(-x) == Abs(x);
    if x == 0.0 {
      assert RoundedMagnitude(0.0, digits) == 0.0;
    }
  }
}
