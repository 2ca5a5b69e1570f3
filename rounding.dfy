/** Rounding of a rational a / b (b > 0) to an integer, in the two modes the
    aggregation layer meets: Python's round(), which rounds ties to the even
    neighbour, and MySQL's DECIMAL rounding (ROUND(), and the rounding of a
    division to its result scale), which rounds ties away from zero.
    Each function is characterised by its contract: r is a nearest integer
    to a / b, and the tie rule picks one of the two candidates. */
module Rounding {

  /** `round(a / b)` in Python: nearest integer, ties to even. */
  function RoundHalfEven(a: int, b: int): (r: int)
    requires b > 0
    ensures -b <= 2 * (r * b - a) <= b
    ensures 2 * (r * b - a) == b || 2 * (r * b - a) == -b ==> r % 2 == 0
  {
    var q, m := a / b, a % b;
    assert a == q * b + m;
    assert (q + 1) * b == q * b + b;
    if 2 * m < b then q
    else if 2 * m > b then q + 1
    else if q % 2 == 0 then q
    else q + 1
  }

  /** MySQL's decimal rounding of a / b: nearest integer, ties away from zero. */
  function RoundHalfAway(a: int, b: int): (r: int)
    requires b > 0
    ensures -b <= 2 * (r * b - a) <= b
    ensures 2 * (r * b - a) == b ==> a >= 0
    ensures 2 * (r * b - a) == -b ==> a < 0
  {
    if a >= 0 then
      var q := (2 * a + b) / (2 * b);
      assert 2 * a + b == q * (2 * b) + (2 * a + b) % (2 * b);
      q
    else
      var q := (2 * -a + b) / (2 * b);
      assert 2 * -a + b == q * (2 * b) + (2 * -a + b) % (2 * b);
      -q
  }

  /** Multiplying by b > 0 keeps integers at least b apart. */
  lemma ScaleApart(x: int, y: int, b: int)
    requires x > y && b > 0
    ensures x * b >= y * b + b
  {
    var d := x - y - 1;
    assert d >= 0;
    assert d * b >= 0;
    assert x * b == d * b + y * b + b;
  }

  /** Any nearest-integer rounding is monotone for strictly ordered
      numerators: both candidates of a larger a / b are at least those of a
      smaller one. */
  lemma NearestMonotone(a1: int, a2: int, b: int, r1: int, r2: int)
    requires b > 0 && a1 < a2
    requires 2 * (r1 * b - a1) <= b && -b <= 2 * (r2 * b - a2)
    ensures r1 <= r2
  {
    if r1 > r2 {
      ScaleApart(r1, r2, b);
      assert false;
    }
  }

  lemma RoundHalfEvenMonotone(a1: int, a2: int, b: int)
    requires b > 0 && a1 <= a2
    ensures RoundHalfEven(a1, b) <= RoundHalfEven(a2, b)
  {
    if a1 < a2 {
      NearestMonotone(a1, a2, b, RoundHalfEven(a1, b), RoundHalfEven(a2, b));
    }
  }

  lemma RoundHalfAwayMonotone(a1: int, a2: int, b: int)
    requires b > 0 && a1 <= a2
    ensures RoundHalfAway(a1, b) <= RoundHalfAway(a2, b)
  {
    if a1 < a2 {
      NearestMonotone(a1, a2, b, RoundHalfAway(a1, b), RoundHalfAway(a2, b));
    }
  }

  /** An exact quotient is returned unchanged, in both modes. */
  lemma RoundExact(c: int, b: int)
    requires b > 0
    ensures RoundHalfEven(c * b, b) == c
    ensures RoundHalfAway(c * b, b) == c
  {
    var r1, r2 := RoundHalfEven(c * b, b), RoundHalfAway(c * b, b);
    if r1 > c { ScaleApart(r1, c, b); }
    if r1 < c { ScaleApart(c, r1, b); }
    if r2 > c { ScaleApart(r2, c, b); }
    if r2 < c { ScaleApart(c, r2, b); }
  }
}
