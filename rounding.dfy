/**
 pandas' Series.round(2), which rounds through numpy.around: scale by 100,
 round to the nearest integer with ties to even, scale back. The model
 rounds the exact decimal value; binary floating point is not part of it.
 */
module Rounding {

  /** The integer nearest to y; a tie between two integers goes to the even one. */
  function RoundHalfEven(y: real): (n: int)
    ensures (n as real - y) <= 0.5 && (y - n as real) <= 0.5
    ensures (n as real - y == 0.5 || y - n as real == 0.5) ==> n % 2 == 0
  {
    var f := y.Floor;
    var d := y - f as real;
    if d < 0.5 then f
    else if d > 0.5 then f + 1
    else if f % 2 == 0 then f
    else f + 1
  }

  /** No integer is nearer to y than the rounded one. */
  lemma RoundHalfEvenNearest(y: real, m: int)
    ensures Dist(RoundHalfEven(y) as real, y) <= Dist(m as real, y)
  {
    var n := RoundHalfEven(y);
    if m < n {
      assert m as real <= n as real - 1.0;
    } else if m > n {
      assert m as real >= n as real + 1.0;
    }
  }

  /** An integer rounds to itself. */
  lemma RoundHalfEvenOfInteger(k: int)
    ensures RoundHalfEven(k as real) == k
  {
  }

  function Dist(a: real, b: real): (d: real)
    ensures d >= 0.0
  {
    if a >= b then a - b else b - a
  }

  /** Series.round(2): the value to two decimal places. */
  function Round2(x: real): (r: real)
    ensures Dist(r, x) <= 0.005
    ensures (r * 100.0).Floor as real == r * 100.0
  {
    var n := RoundHalfEven(x * 100.0);
    ScaleDown(n as real, x * 100.0);
    assert x * 100.0 / 100.0 == x;
    n as real / 100.0
  }

  /** Scaling both sides down by 100 scales their distance down by 100. */
  lemma ScaleDown(a: real, b: real)
    ensures Dist(a / 100.0, b / 100.0) == Dist(a, b) / 100.0
    ensures a / 100.0 * 100.0 == a
  {
  }

  /** A value already given in hundredths is left as it is. */
  lemma Round2OfHundredths(k: int)
    ensures Round2(k as real / 100.0) == k as real / 100.0
  {
    assert k as real / 100.0 * 100.0 == k as real;
    RoundHalfEvenOfInteger(k);
  }

  /** Rounding a rounded value changes nothing. */
  lemma Round2Idempotent(x: real)
    ensures Round2(Round2(x)) == Round2(x)
  {
    var k := RoundHalfEven(x * 100.0);
    Round2OfHundredths(k);
  }

  /** Ties go to the even hundredth: 0.125 gives 0.12 and 0.135 gives 0.14. */
  lemma Round2Ties()
    ensures Round2(0.125) == 0.12
    ensures Round2(0.135) == 0.14
  {
    assert (12.5).Floor == 12;
    assert (13.5).Floor == 13;
  }
}
