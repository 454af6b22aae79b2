/** The arithmetic the statistics use: `Math.round`, `Math.min` and
    `Math.max` on the values the application feeds them. */
module Numbers {
  /** `Math.round(x)`: the nearest integer, halves rounded up. */
  function Round(x: real): (r: int)
    ensures r as real - 0.5 <= x < r as real + 0.5
  {
    (x + 0.5).Floor
  }

  /** The integer nearest to a value is the only one within half a unit
      below or above it. */
  lemma RoundUnique(x: real, n: int)
    requires n as real - 0.5 <= x < n as real + 0.5
    ensures Round(x) == n
  {
  }

  /** Rounding keeps the order of its arguments. */
  lemma RoundMonotone(x: real, y: real)
    requires x <= y
    ensures Round(x) <= Round(y)
  {
  }

  function MinReal(a: real, b: real): (m: real)
    ensures m <= a && m <= b && (m == a || m == b)
  {
    if a <= b then a else b
  }

  function MaxInt(a: int, b: int): (m: int)
    ensures m >= a && m >= b && (m == a || m == b)
  {
    if a >= b then a else b
  }

  function MinInt(a: int, b: int): (m: int)
    ensures m <= a && m <= b && (m == a || m == b)
  {
    if a <= b then a else b
  }

  function MaxReal(a: real, b: real): (m: real)
    ensures m >= a && m >= b && (m == a || m == b)
  {
    if a >= b then a else b
  }

  /** `p` is `part / whole * 100` rounded to the nearest integer. */
  predicate RoundsShare(p: int, part: nat, whole: nat)
    requires whole > 0
  {
    p as real - 0.5 <= part as real / whole as real * 100.0 < p as real + 0.5
  }

  /** The exact share `part / whole * 100`, `whole` positive, rounded half
      up. The program rounds the double `part / whole * 100` instead, which
      can fall just below a half (69/120 gives 57.49999999999999 there, and
      so 57, where this gives 58). The result is a percentage from 0 to 100
      whenever the part does not exceed the whole; it is 100 exactly at a
      full part. */
  function RoundedPercent(part: nat, whole: nat): (p: int)
    requires whole > 0
    ensures p as real - 0.5 <= part as real / whole as real * 100.0 < p as real + 0.5
    ensures RoundsShare(p, part, whole)
    ensures p >= 0
    ensures part <= whole ==> p <= 100
    ensures part == whole ==> p == 100
    ensures part == 0 ==> p == 0
  {
    RoundedPercentBounds(part, whole);
    Round(part as real / whole as real * 100.0)
  }

  lemma RoundedPercentBounds(part: nat, whole: nat)
    requires whole > 0
    ensures var x := part as real / whole as real * 100.0;
      0.0 <= x && (part <= whole ==> x <= 100.0) && (part == whole ==> x == 100.0)
  {
    var q := part as real / whole as real;
    assert q * whole as real == part as real;
    if part <= whole {
      assert q <= 1.0;
    }
  }

  /** The quotient of two counts compared with 1. */
  lemma RatioFacts(part: nat, whole: nat)
    requires whole > 0
    ensures var q := part as real / whole as real;
      q >= 0.0 && (part >= whole <==> q >= 1.0) && (part == 0 <==> q == 0.0)
  {
    var q := part as real / whole as real;
    assert q * whole as real == part as real;
  }

  /** `Math.min(1, part / whole)`: the share of the whole that already
      exists, counted as complete once it is reached. */
  function CappedRatio(part: nat, whole: nat): (q: real)
    requires whole > 0
    ensures 0.0 <= q <= 1.0
    ensures q == 1.0 <==> part >= whole
    ensures q == 0.0 <==> part == 0
  {
    RatioFacts(part, whole);
    MinReal(1.0, part as real / whole as real)
  }

  /** Scaling by a factor from 0 to 1 keeps a non-negative value between 0
      and itself. */
  function Scaled(p: real, w: real): real {
    p * w
  }

  lemma ScaleLe(p: real, w: real)
    requires 0.0 <= p <= 1.0 && w >= 0.0
    ensures 0.0 <= Scaled(p, w) <= w
  {
    assert w - p * w == (1.0 - p) * w;
  }
}
