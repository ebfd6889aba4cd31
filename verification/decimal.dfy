/**
 * Python's round(x, 1) and round(x, 2) on exact decimal values: the nearest
 * multiple of 0.1 (0.01), a tie going to the even neighbour.
 */
module Decimal {
  /** The integer nearest to y, a tie going to the even one. */
  function Nearest(y: real): (k: int)
    ensures -0.5 <= k as real - y <= 0.5
  {
    var f := y.Floor;
    var d := y - f as real;
    if d < 0.5 then f else if d > 0.5 then f + 1 else if f % 2 == 0 then f else f + 1
  }

  /** Rounding to the nearest integer never reverses an order. */
  lemma NearestMonotone(y1: real, y2: real)
    requires y1 <= y2
    ensures Nearest(y1) <= Nearest(y2)
  {
    var f1, f2 := y1.Floor, y2.Floor;
    if f1 < f2 {
      assert Nearest(y1) <= f1 + 1 <= f2 <= Nearest(y2);
    }
  }

  /** A tie goes to the even neighbour. */
  lemma NearestTie(k: int)
    ensures Nearest(k as real + 0.5) == if k % 2 == 0 then k else k + 1
  {
    assert (k as real + 0.5).Floor == k;
  }

  /** round(x, 1) */
  function Round1(x: real): (r: real)
    ensures -0.05 <= r - x <= 0.05
  {
    (Nearest(x * 10.0) as real) / 10.0
  }

  /** round(x, 2) */
  function Round2(x: real): (r: real)
    ensures -0.005 <= r - x <= 0.005
  {
    (Nearest(x * 100.0) as real) / 100.0
  }

  /** Rounding keeps the order of its arguments. */
  lemma RoundMonotone(x1: real, x2: real)
    requires x1 <= x2
    ensures Round1(x1) <= Round1(x2) && Round2(x1) <= Round2(x2)
  {
    NearestMonotone(x1 * 10.0, x2 * 10.0);
    NearestMonotone(x1 * 100.0, x2 * 100.0);
  }

  /** A value that already has at most one decimal (two) is left as it is. */
  lemma RoundExact(k: int)
    ensures Round1(k as real / 10.0) == k as real / 10.0
    ensures Round2(k as real / 100.0) == k as real / 100.0
  {
    assert (k as real / 10.0) * 10.0 == k as real;
    assert (k as real / 100.0) * 100.0 == k as real;
  }
}
