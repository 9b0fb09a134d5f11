/**
 * Sums of milliseconds as binary floating point holds them: a value keeps 53 significant bits, and a tie goes to the
 * even neighbour (IEEE 754 binary64, for magnitudes from 1 to 2^53; a whole value beyond that holds no instant).
 */
module Doubles {
  const MOST_FRACTION_BITS := 52
  const HALF_SIGNIFICAND := 0x10_0000_0000_0000 as real

  function Pow2(k: nat): (p: nat)
    ensures p >= 1
    ensures k > 0 ==> p % 2 == 0
  {
    if k == 0 then 1 else 2 * Pow2(k - 1)
  }

  function Abs(x: real): (a: real)
    ensures a >= 0.0
  {
    if x < 0.0 then -x else x
  }

  /** How many bits after the point a value of this magnitude keeps. */
  function FractionBits(magnitude: real): (bits: nat)
    ensures bits <= MOST_FRACTION_BITS || magnitude >= 1.0
    decreases if magnitude < 1.0 then 0 else (HALF_SIGNIFICAND - magnitude).Floor + 1
  {
    if magnitude >= HALF_SIGNIFICAND then 0
    else if magnitude < 1.0 then MOST_FRACTION_BITS
    else 1 + FractionBits(2.0 * magnitude)
  }

  /** The nearest whole number, and the even one of two. */
  function HalfEven(x: real): (n: int)
    ensures x - 0.5 <= n as real <= x + 0.5
    ensures x == x.Floor as real ==> n == x.Floor
  {
    var low := x.Floor;
    var rest := x - low as real;
    if rest < 0.5 || (rest == 0.5 && low % 2 == 0) then low else low + 1
  }

  /** The nearest of the values `1/p` apart. */
  function RoundedTo(x: real, p: nat): real
    requires p >= 1
  {
    HalfEven(x * p as real) as real / p as real
  }

  /** How many values of this size there are to one unit: a power of two. */
  function Grid(x: real): (p: nat)
    ensures p >= 1 && (p > 1 ==> p % 2 == 0)
  {
    Pow2(FractionBits(Abs(x)))
  }

  function Rounded(x: real): real {
    RoundedTo(x, Grid(x))
  }

  // ----- What rounding keeps -----

  lemma Scaled(a: real, b: real, scale: real)
    requires scale > 0.0
    ensures a <= b <==> a * scale <= b * scale
    ensures a == b <==> a * scale == b * scale
  {
    if a < b {
      assert (b - a) * scale > 0.0;
    } else if b < a {
      assert (a - b) * scale > 0.0;
    }
  }

  lemma Divided(a: real, scale: real)
    requires scale > 0.0
    ensures a / scale * scale == a
  {
  }

  lemma RoundedToScaled(x: real, p: nat)
    requires p >= 1
    ensures RoundedTo(x, p) * p as real == HalfEven(x * p as real) as real
  {
    Divided(HalfEven(x * p as real) as real, p as real);
  }

  lemma OnTheGridIsExact(x: real, p: nat, steps: int)
    requires p >= 1 && x * p as real == steps as real
    ensures RoundedTo(x, p) == x
  {
    RoundedToScaled(x, p);
    Scaled(RoundedTo(x, p), x, p as real);
  }

  lemma WholeScaled(n: int, p: nat)
    ensures n as real * p as real == (n * p) as real
  {
  }

  lemma SidesKept(x: real, p: nat, n: int)
    requires p >= 1
    ensures n as real <= x ==> n as real <= RoundedTo(x, p)
    ensures x <= n as real ==> RoundedTo(x, p) <= n as real
  {
    RoundedToScaled(x, p);
    WholeScaled(n, p);
    Scaled(n as real, x, p as real);
    Scaled(x, n as real, p as real);
    Scaled(n as real, RoundedTo(x, p), p as real);
    Scaled(RoundedTo(x, p), n as real, p as real);
    HalfEvenKeepsSides(x * p as real, n * p);
  }

  lemma HalfEvenKeepsSides(x: real, n: int)
    ensures n as real <= x ==> n <= HalfEven(x)
    ensures x <= n as real ==> HalfEven(x) <= n
  {
  }

  /** A whole number at or below a value is at or below it rounded, and one at or above it stays so. */
  lemma RoundingKeepsSides(x: real, n: int)
    ensures n as real <= x ==> n as real <= Rounded(x)
    ensures x <= n as real ==> Rounded(x) <= n as real
  {
    SidesKept(x, Grid(x), n);
  }

  /** So whole numbers are held exactly. */
  lemma WholesAreExact(n: int)
    ensures Rounded(n as real) == n as real
  {
    RoundingKeepsSides(n as real, n);
  }

  /** A value between two neighbours is no further from the nearer than half the way: `p` times the distance is a half. */
  lemma NearTo(x: real, p: nat)
    requires p >= 1
    ensures -0.5 <= (RoundedTo(x, p) - x) * p as real <= 0.5
  {
    RoundedToScaled(x, p);
  }

  lemma RoundedToIsNear(x: real, p: nat)
    requires p >= 1
    ensures x - 0.5 <= RoundedTo(x, p) <= x + 0.5
  {
    NearTo(x, p);
    Shrinks(RoundedTo(x, p) - x, p as real);
  }

  /** Rounding moves a value by half a millisecond at most. */
  lemma RoundingIsNear(x: real)
    ensures x - 0.5 <= Rounded(x) <= x + 0.5
  {
    RoundedToIsNear(x, Grid(x));
  }

  lemma Shrinks(moved: real, scale: real)
    requires scale >= 1.0 && -0.5 <= moved * scale <= 0.5
    ensures -0.5 <= moved <= 0.5
  {
    if moved > 0.5 {
      Scaled(1.0, scale, moved);
    } else if moved < -0.5 {
      Scaled(1.0, scale, 0.0 - moved);
      Distributes(0.0, moved, scale);
    }
  }

  predicate IsWhole(x: real) {
    x.Floor as real == x
  }

  /** Within half a step of a whole number, where steps are `1/p`. */
  predicate WithinHalfAStep(x: real, n: int, p: nat) {
    -0.5 <= (x - n as real) * p as real <= 0.5
  }

  lemma HalfEvenTo(x: real, even: int)
    requires even % 2 == 0
    ensures HalfEven(x) == even <==> -0.5 <= x - even as real <= 0.5
  {
  }

  lemma EvenTarget(n: int, p: nat)
    requires p % 2 == 0
    ensures n * p % 2 == 0
  {
    var half := p / 2;
    assert n * p == 2 * (n * half);
  }

  lemma RoundedToIff(x: real, p: nat, n: int)
    requires p >= 1 && p % 2 == 0
    ensures RoundedTo(x, p) == n as real <==> WithinHalfAStep(x, n, p)
  {
    RoundedToScaled(x, p);
    Scaled(RoundedTo(x, p), n as real, p as real);
    WholeScaled(n, p);
    EvenTarget(n, p);
    HalfEvenTo(x * p as real, n * p);
    Distributes(x, n as real, p as real);
  }

  lemma Distributes(a: real, b: real, scale: real)
    ensures (a - b) * scale == a * scale - b * scale
  {
  }

  /**
   * A value that keeps some bits after the point is rounded to a given whole number exactly when it is within half a
   * step of it: the tie goes to the whole number, whose last kept bit is even.
   */
  lemma RoundsToIff(x: real, n: int)
    requires Grid(x) > 1
    ensures Rounded(x) == n as real <==> WithinHalfAStep(x, n, Grid(x))
  {
    RoundedToIff(x, Grid(x), n);
  }

  lemma {:induction false} Pow2Adds(a: nat, b: nat)
    ensures Pow2(a + b) == Pow2(a) * Pow2(b)
  {
    if a > 0 {
      Pow2Adds(a - 1, b);
    }
  }

  lemma {:induction false} BitsAre(magnitude: real, k: nat)
    requires magnitude >= 1.0
    requires HALF_SIGNIFICAND <= magnitude * Pow2(k) as real < 2.0 * HALF_SIGNIFICAND
    ensures FractionBits(magnitude) == k
    decreases k
  {
    if k > 0 {
      var p := Pow2(k - 1) as real;
      assert Pow2(k) as real == 2.0 * p;
      assert magnitude * (2.0 * p) == 2.0 * magnitude * p;
      Scaled(1.0, p, 2.0 * magnitude);
      assert 2.0 * magnitude <= 2.0 * magnitude * p < 2.0 * HALF_SIGNIFICAND;
      BitsAre(2.0 * magnitude, k - 1);
    }
  }
}
