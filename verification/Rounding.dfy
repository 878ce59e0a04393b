/** Rounding to the nearest integer, ties to the even one. */
module Rounding {

  /** To the nearest integer, ties to the even one. */
  function Round(x: real): int {
    var f := x.Floor;
    var d := x - f as real;
    if d < 0.5 then f else if d > 0.5 then f + 1 else if f % 2 == 0 then f else f + 1
  }

  /** Rounding moves by at most a half, and only ties move by exactly that. */
  lemma RoundNear(x: real)
    ensures -0.5 <= Round(x) as real - x <= 0.5
  {
  }

  /** Halfway between two integers it is the even one. */
  lemma RoundTies(n: int)
    ensures Round(n as real + 0.5) == if n % 2 == 0 then n else n + 1
  {
    assert (n as real + 0.5).Floor == n;
  }

  lemma RoundMonotone(x: real, y: real)
    requires x <= y
    ensures Round(x) <= Round(y)
  {
  }

  lemma RoundOfInt(n: int)
    ensures Round(n as real) == n
  {
  }

  lemma RoundIsZero(x: real)
    requires x >= 0.0
    ensures Round(x) == 0 <==> x <= 0.5
  {
  }

  /** Half of an integer gap, split by rounding a little below and a little above: the parts add up to the
      gap, differ by at most one, and the first is the smaller. */
  lemma SplitGap(gap: int)
    ensures var first, second := Round(gap as real / 2.0 - 0.1), Round(gap as real / 2.0 + 0.1);
      first + second == gap && first <= second <= first + 1
  {
    var half := gap / 2;
    if gap % 2 == 0 {
      assert gap as real / 2.0 == half as real;
      assert (half as real - 0.1).Floor == half - 1;
    } else {
      assert gap as real / 2.0 == half as real + 0.5;
    }
  }
}
