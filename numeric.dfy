/**
 * The Python numeric built-ins the logistics code relies on, over exact reals:
 * `round(x, 2)`, `int(x)`, `math.ceil`, floor division, and `sum`/`min`/`max`
 * over a list of floats.
 */
module Numeric {

  /** Python's `math.floor` on a real. */
  function Floor(x: real): (r: int)
    ensures r as real <= x < r as real + 1.0
  {
    x.Floor
  }

  /** Python's `math.ceil`: the least integer not below `x`. */
  function Ceil(x: real): (r: int)
    ensures x <= r as real < x + 1.0
  {
    -Floor(-x)
  }

  /** Python's `int(x)` on a float: truncation toward zero. */
  function Trunc(x: real): (r: int)
    ensures x >= 0.0 ==> r as real <= x < r as real + 1.0
    ensures x < 0.0 ==> r as real - 1.0 < x <= r as real
  {
    if x >= 0.0 then Floor(x) else -Floor(-x)
  }

  /** Python's `x // y` on floats: the floor of the quotient. */
  function FloorDiv(x: real, y: real): (q: int)
    requires y != 0.0
    ensures q as real <= x / y < q as real + 1.0
  {
    Floor(x / y)
  }

  /** Python's `x % y` on floats: what `x // y` leaves over, carrying the sign of `y`. */
  function FloorMod(x: real, y: real): (m: real)
    requires y != 0.0
    ensures x == y * FloorDiv(x, y) as real + m
    ensures y > 0.0 ==> 0.0 <= m < y
    ensures y < 0.0 ==> y < m <= 0.0
  {
    var q := FloorDiv(x, y);
    var m := x - y * q as real;
    var f := x / y - q as real;
    assert m == y * f;
    FractionOfDivisor(y, f);
    m
  }

  /** A fraction in [0, 1) of `y` lies between 0 and `y`, reaching 0 but not `y`. */
  lemma FractionOfDivisor(y: real, f: real)
    requires 0.0 <= f < 1.0
    ensures y > 0.0 ==> 0.0 <= y * f < y
    ensures y < 0.0 ==> y < y * f <= 0.0
  {
    assert y - y * f == y * (1.0 - f);
    if y > 0.0 {
      assert y * (1.0 - f) > 0.0;
    } else if y < 0.0 {
      assert y * (1.0 - f) < 0.0;
    }
  }

  /** True when `x` is a whole number of cents. */
  predicate IsCents(x: real) {
    Floor(x * 100.0) as real == x * 100.0
  }

  /**
   * `round(x, 2)`: the nearest multiple of 0.01, halves rounded up.
   * The two ensures determine the result uniquely (see Round2Unique).
   */
  function Round2(x: real): (r: real)
    ensures IsCents(r)
    ensures r - 0.005 <= x < r + 0.005
    ensures x >= 0.0 ==> r >= 0.0
  {
    var k := Floor(x * 100.0 + 0.5);
    assert (k as real / 100.0) * 100.0 == k as real;
    k as real / 100.0
  }

  /** A whole number of cents within half a cent below and above `x` is the rounding of `x`. */
  lemma Round2Unique(x: real, c: real)
    requires IsCents(c)
    requires c - 0.005 <= x < c + 0.005
    ensures Round2(x) == c
  {
    var r := Round2(x);
    var kr, kc := Floor(r * 100.0), Floor(c * 100.0);
    assert kr as real - 0.5 <= x * 100.0 < kr as real + 0.5;
    assert kc as real - 0.5 <= x * 100.0 < kc as real + 0.5;
    assert kr == kc;
  }

  lemma Round2Zero()
    ensures Round2(0.0) == 0.0
  {
    Round2Unique(0.0, 0.0);
  }

  /** Rounding is monotone, so it never reverses an order between two amounts. */
  lemma Round2Monotone(x: real, y: real)
    requires x <= y
    ensures Round2(x) <= Round2(y)
  {
    var rx, ry := Round2(x), Round2(y);
    var kx, ky := Floor(rx * 100.0), Floor(ry * 100.0);
    assert kx as real == rx * 100.0 && ky as real == ry * 100.0;
    assert kx as real - 0.5 <= x * 100.0;
    assert y * 100.0 < ky as real + 0.5;
    assert kx <= ky;
  }

  lemma CentsZero()
    ensures IsCents(0.0)
  {
  }

  /** Adding two whole-cent amounts gives a whole-cent amount. */
  lemma CentsAdd(x: real, y: real)
    requires IsCents(x) && IsCents(y)
    ensures IsCents(x + y)
  {
    var k := Floor(x * 100.0) + Floor(y * 100.0);
    assert (x + y) * 100.0 == k as real;
  }

  /** The difference of two whole-cent amounts is a whole-cent amount. */
  lemma CentsSub(x: real, y: real)
    requires IsCents(x) && IsCents(y)
    ensures IsCents(x - y)
  {
    var k := Floor(x * 100.0) - Floor(y * 100.0);
    assert (x - y) * 100.0 == k as real;
  }

  /** Rounding an amount that is already whole cents leaves it unchanged. */
  lemma Round2OfCents(x: real)
    requires IsCents(x)
    ensures Round2(x) == x
  {
    Round2Unique(x, x);
  }

  /** A rounded amount is positive exactly when the raw amount is at least half a cent. */
  lemma Round2Positive(x: real)
    ensures Round2(x) > 0.0 <==> x >= 0.005
  {
    var r := Round2(x);
    var k := Floor(r * 100.0);
    if r > 0.0 {
      assert k >= 1;
    }
    if x >= 0.005 {
      assert k as real > 0.0;
    }
  }

  /** Python's `max(a, b)` on integers. */
  function IntMax(a: int, b: int): (r: int)
    ensures r >= a && r >= b
    ensures r == a || r == b
  {
    if a >= b then a else b
  }

  /** Python's `min(a, b)` on integers. */
  function IntMin(a: int, b: int): (r: int)
    ensures r <= a && r <= b
    ensures r == a || r == b
  {
    if a <= b then a else b
  }

  /** Python's `sum(xs)`, accumulated left to right. */
  function Sum(xs: seq<real>): real
  {
    if xs == [] then 0.0 else Sum(xs[..|xs| - 1]) + xs[|xs| - 1]
  }

  lemma {:induction false} SumAppend(xs: seq<real>, ys: seq<real>)
    ensures Sum(xs + ys) == Sum(xs) + Sum(ys)
  {
    if ys != [] {
      assert (xs + ys)[..|xs + ys| - 1] == xs + ys[..|ys| - 1];
      SumAppend(xs, ys[..|ys| - 1]);
    } else {
      assert xs + ys == xs;
    }
  }

  /** Every element lying in `[lo, hi]` bounds the sum by `|xs| * lo` and `|xs| * hi`. */
  lemma {:induction false} SumBounds(xs: seq<real>, lo: real, hi: real)
    requires forall i :: 0 <= i < |xs| ==> lo <= xs[i] <= hi
    ensures |xs| as real * lo <= Sum(xs) <= |xs| as real * hi
  {
    if xs != [] {
      SumBounds(xs[..|xs| - 1], lo, hi);
    }
  }

  lemma {:induction false} SumNonNegative(xs: seq<real>)
    requires forall i :: 0 <= i < |xs| ==> xs[i] >= 0.0
    ensures Sum(xs) >= 0.0
  {
    if xs != [] {
      SumNonNegative(xs[..|xs| - 1]);
    }
  }

  /** A sum of whole-cent amounts is a whole-cent amount, so rounding it is exact. */
  lemma {:induction false} SumOfCents(xs: seq<real>)
    requires forall i :: 0 <= i < |xs| ==> IsCents(xs[i])
    ensures IsCents(Sum(xs))
  {
    if xs == [] {
      CentsZero();
    } else {
      SumOfCents(xs[..|xs| - 1]);
      CentsAdd(Sum(xs[..|xs| - 1]), xs[|xs| - 1]);
    }
  }

  /** A total lying between `n * lo` and `n * hi` has its mean between `lo` and `hi`. */
  lemma MeanBetween(total: real, n: real, lo: real, hi: real)
    requires n > 0.0
    requires n * lo <= total <= n * hi
    ensures lo <= total / n <= hi
  {
    var m := total / n;
    assert m * n == total;
    assert (m - lo) * n >= 0.0 && (hi - m) * n >= 0.0;
  }

  /** `sum(xs) / len(xs)` for a non-empty list. */
  function Mean(xs: seq<real>): (m: real)
    requires xs != []
    ensures m * |xs| as real == Sum(xs)
  {
    Sum(xs) / |xs| as real
  }

  /** The mean of a list lies between its least and its greatest element. */
  lemma MeanWithinExtremes(xs: seq<real>)
    requires xs != []
    ensures Min(xs) <= Mean(xs) <= Max(xs)
  {
    var lo, hi := Min(xs), Max(xs);
    SumBounds(xs, lo, hi);
    MeanOf(xs, lo, hi);
  }

  /** Bounds on the sum of a list bound its mean. */
  lemma MeanOf(xs: seq<real>, lo: real, hi: real)
    requires xs != []
    requires |xs| as real * lo <= Sum(xs) <= |xs| as real * hi
    ensures lo <= Mean(xs) <= hi
  {
    MeanBetween(Sum(xs), |xs| as real, lo, hi);
  }

  /** Python's `min(xs)` on a non-empty list. */
  function Min(xs: seq<real>): (m: real)
    requires xs != []
    ensures m in xs
    ensures forall i :: 0 <= i < |xs| ==> m <= xs[i]
  {
    if |xs| == 1 then xs[0]
    else
      var rest := Min(xs[1..]);
      assert forall i :: 1 <= i < |xs| ==> xs[i] == xs[1..][i - 1];
      if xs[0] <= rest then xs[0] else rest
  }

  /** Python's `max(xs)` on a non-empty list. */
  function Max(xs: seq<real>): (m: real)
    requires xs != []
    ensures m in xs
    ensures forall i :: 0 <= i < |xs| ==> xs[i] <= m
  {
    if |xs| == 1 then xs[0]
    else
      var rest := Max(xs[1..]);
      assert forall i :: 1 <= i < |xs| ==> xs[i] == xs[1..][i - 1];
      if rest <= xs[0] then xs[0] else rest
  }
}
