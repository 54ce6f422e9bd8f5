/**
 * Numeric helpers the ledger needs: Python's `round(x, 2)`, the integer
 * power `(1 + d) ** days` and the truncation `int(x)`, all on exact reals.
 */
module Numbers {

  /** The integer nearest to `y`, ties to the even one. */
  function HalfEven(y: real): (n: int)
    ensures -0.5 <= n as real - y <= 0.5
  {
    var f := y.Floor;
    var frac := y - f as real;
    if frac < 0.5 then f
    else if frac > 0.5 then f + 1
    else if f % 2 == 0 then f else f + 1
  }

  /** `round(x, 2)`: the nearest multiple of 0.01, ties to the even
      multiple (Python's rule, here applied to the exact value). */
  function Round2(x: real): real
  {
    HalfEven(x * 100.0) as real / 100.0
  }

  /** A rounded amount is a whole number of cents, within half a cent of
      the exact one. */
  lemma Round2Cents(x: real)
    ensures -1.0 / 200.0 <= Round2(x) - x <= 1.0 / 200.0
    ensures (Round2(x) * 100.0).Floor as real == Round2(x) * 100.0
  {
    var n := HalfEven(x * 100.0);
    assert Round2(x) * 100.0 == n as real;
    assert (n as real).Floor == n;
    assert Round2(x) - x == (n as real - x * 100.0) / 100.0;
  }

  /** Round-half-even is monotone. */
  lemma Round2Monotone(x: real, y: real)
    requires x <= y
    ensures Round2(x) <= Round2(y)
  {
    var a := x * 100.0;
    var b := y * 100.0;
    assert a.Floor <= b.Floor;
    if a.Floor == b.Floor {
      assert HalfEven(a) <= HalfEven(b);
    } else {
      assert HalfEven(a) <= a.Floor + 1 <= b.Floor <= HalfEven(b);
    }
  }

  /** Nothing to round: zero stays zero. */
  lemma Round2Zero()
    ensures Round2(0.0) == 0.0
  {
    Round2Cents(0.0);
  }

  /** `b ** n` for a natural exponent. */
  function Pow(b: real, n: nat): real
  {
    if n == 0 then 1.0 else b * Pow(b, n - 1)
  }

  /** One raised to any power is one: a zero daily rate compounds to nothing. */
  lemma {:induction false} PowOfOne(n: nat)
    ensures Pow(1.0, n) == 1.0
  {
    if n > 0 {
      PowOfOne(n - 1);
    }
  }

  /** Bernoulli's inequality: daily compounding over `n` days yields at
      least the simple factor `1 + n * d`, and exactly it for one day. */
  lemma {:induction false} Bernoulli(d: real, n: nat)
    requires d >= 0.0
    ensures Pow(1.0 + d, n) >= 1.0 + n as real * d
    ensures n <= 1 ==> Pow(1.0 + d, n) == 1.0 + n as real * d
  {
    if n > 0 {
      Bernoulli(d, n - 1);
      var p := Pow(1.0 + d, n - 1);
      var m := (n - 1) as real;
      assert p >= 1.0 + m * d;
      calc {
        Pow(1.0 + d, n);
      ==
        (1.0 + d) * p;
      >= { MulNonNegative(1.0 + d, p - (1.0 + m * d)); }
        (1.0 + d) * (1.0 + m * d);
      ==
        1.0 + (m + 1.0) * d + m * d * d;
      >= { MulNonNegative(m, d * d); }
        1.0 + n as real * d;
      }
    }
  }

  lemma MulNonNegative(x: real, y: real)
    requires x >= 0.0 && y >= 0.0
    ensures x * y >= 0.0
  {
  }

  /** `int(x)`: truncation toward zero. */
  function Trunc(x: real): (r: int)
    ensures x >= 0.0 ==> 0 <= r && r as real <= x < r as real + 1.0
    ensures x < 0.0 ==> r <= 0 && r as real - 1.0 < x <= r as real
  {
    if x >= 0.0 then x.Floor else -((-x).Floor)
  }
}
