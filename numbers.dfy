/** The numeric rules the pages and services use, on exact reals:
    `Math.round`, `Math.min`/`Math.max` clamping, `Number(x.toFixed(1))` and
    the text `x.toFixed(1)`, and `reduce` sums of star ratings. Floating-point
    rounding error is not modelled. */
module Numbers {
  import Text
  import Sorting

  /** `Math.round(x)`: the nearest integer, halves rounded up (towards
      positive infinity). */
  function Round(x: real): (r: int)
    ensures x - 1.0 / 2.0 < r as real <= x + 1.0 / 2.0
  {
    (x + 1.0 / 2.0).Floor
  }

  /** `Math.round` is monotone. */
  lemma RoundMonotone(x: real, y: real)
    requires x <= y
    ensures Round(x) <= Round(y)
  {
  }

  /** `Math.round` keeps integers. */
  lemma RoundInt(n: int)
    ensures Round(n as real) == n
  {
  }

  /** `Math.min(hi, Math.max(lo, x))`. */
  function Clamp(x: real, lo: real, hi: real): (r: real)
    requires lo <= hi
    ensures lo <= r <= hi
    ensures lo <= x <= hi ==> r == x
    ensures x < lo ==> r == lo
    ensures hi < x ==> r == hi
  {
    if x < lo then lo else if hi < x then hi else x
  }

  /** The number of tenths that `x.toFixed(1)` shows: the magnitude of `x` in
      tenths, rounded to the nearest, ties away from zero (the larger of two
      equally close candidates, applied to |x|). */
  function Tenths(x: real): (t: nat)
    ensures -1.0 / 20.0 < (t as real) / 10.0 - (if x < 0.0 then -x else x) <= 1.0 / 20.0
  {
    var m := if x < 0.0 then -x else x;
    (m * 10.0 + 1.0 / 2.0).Floor
  }

  /** `Number(x.toFixed(1))`: `x` rounded to one decimal place. */
  function RoundTenth(x: real): (r: real)
    ensures x >= 0.0 ==> r >= 0.0 && -1.0 / 20.0 < r - x <= 1.0 / 20.0
    ensures x < 0.0 ==> r <= 0.0 && -1.0 / 20.0 <= r - x < 1.0 / 20.0
  {
    var t := Tenths(x) as real / 10.0;
    if x < 0.0 then -t else t
  }

  lemma FloorMonotone(a: real, b: real)
    requires a <= b
    ensures a.Floor <= b.Floor
  {
    assert a.Floor as real <= a && b < b.Floor as real + 1.0;
  }

  /** Rounding to one decimal never leaves an interval with integer ends — so
      an average of stars in 1..5 still lies in [1,5] after rounding. */
  lemma RoundTenthWithin(x: real, lo: nat, hi: nat)
    requires lo as real <= x <= hi as real
    ensures lo as real <= RoundTenth(x) <= hi as real
  {
    var m := x * 10.0 + 1.0 / 2.0;
    var lo10, hi10 := (lo * 10) as real, (hi * 10) as real;
    assert lo10 <= m < hi10 + 1.0;
    FloorMonotone(lo10, m);
    assert lo10.Floor == lo * 10;
    var t := m.Floor;
    assert t as real <= m;
    assert t <= hi * 10;
    assert Tenths(x) == t;
    assert RoundTenth(x) == t as real / 10.0;
  }

  /** Rounding to one decimal is monotone on non-negative numbers. */
  lemma RoundTenthMonotone(x: real, y: real)
    requires 0.0 <= x <= y
    ensures RoundTenth(x) <= RoundTenth(y)
  {
    FloorMonotone(x * 10.0 + 1.0 / 2.0, y * 10.0 + 1.0 / 2.0);
    assert Tenths(x) <= Tenths(y);
  }

  /** The text of `x.toFixed(1)`, e.g. "4.8" or "-0.0". */
  function ToFixed1(x: real): (s: string)
    ensures s != []
  {
    var t := Tenths(x);
    (if x < 0.0 then "-" else "") + Text.NatToString(t / 10) + "." + [Text.DigitChar(t % 10)]
  }

  /** `reviews.reduce((acc, r) => acc + r.stars, 0)`. */
  function Sum(xs: seq<int>): int
    decreases |xs|
  {
    if xs == [] then 0 else Sum(xs[..|xs| - 1]) + xs[|xs| - 1]
  }

  /** The sum lies between n·lo and n·hi when every term lies in [lo, hi]. */
  lemma {:induction false} SumBounds(xs: seq<int>, lo: int, hi: int)
    requires forall i :: 0 <= i < |xs| ==> lo <= xs[i] <= hi
    ensures |xs| * lo <= Sum(xs) <= |xs| * hi
    decreases |xs|
  {
    if xs != [] {
      var init := xs[..|xs| - 1];
      SumBounds(init, lo, hi);
      MulStep(|init|, lo);
      MulStep(|init|, hi);
    }
  }

  lemma MulStep(n: nat, c: int)
    ensures (n + 1) * c == n * c + c
  {
  }

  /** Converting a product of integers to a real. */
  lemma {:induction false} CastProduct(n: nat, c: int)
    ensures (n * c) as real == n as real * c as real
    decreases n
  {
    if n > 0 {
      CastProduct(n - 1, c);
      MulStep(n - 1, c);
      assert (n as real) * (c as real) == ((n - 1) as real) * (c as real) + c as real;
    }
  }

  /** The mean of a non-empty sum of terms in [lo, hi] lies in [lo, hi]. */
  lemma MeanBounds(xs: seq<int>, lo: int, hi: int)
    requires xs != []
    requires forall i :: 0 <= i < |xs| ==> lo <= xs[i] <= hi
    ensures lo as real <= Sum(xs) as real / |xs| as real <= hi as real
  {
    SumBounds(xs, lo, hi);
    CastProduct(|xs|, lo);
    CastProduct(|xs|, hi);
    QuotientBounds(Sum(xs) as real, |xs| as real, lo as real, hi as real);
  }

  /** A quotient by a positive number keeps the bounds of the dividend. */
  lemma QuotientBounds(s: real, n: real, lo: real, hi: real)
    requires n > 0.0 && n * lo <= s <= n * hi
    ensures lo <= s / n <= hi
  {
    var m := s / n;
    assert s == m * n;
    if m < lo {
      ScaleLess(m, lo, n);
    }
    if hi < m {
      ScaleLess(hi, m, n);
    }
  }

  lemma ScaleLess(a: real, b: real, n: real)
    requires a < b && n > 0.0
    ensures a * n < b * n
  {
    assert b * n - a * n == (b - a) * n;
  }

  /** Reordering the terms does not change the sum. */
  lemma {:induction false} SumPermutation(a: seq<int>, b: seq<int>)
    requires multiset(a) == multiset(b)
    ensures Sum(a) == Sum(b)
    decreases |a|
  {
    if a != [] {
      var x := a[|a| - 1];
      assert x in multiset(b);
      var j :| 0 <= j < |b| && b[j] == x;
      Sorting.RemoveMatching(a, b, j);
      SumPermutation(a[..|a| - 1], b[..j] + b[j + 1..]);
      SumRemove(b, j);
    }
  }

  /** Taking one term out of a sum. */
  lemma {:induction false} SumRemove(s: seq<int>, j: nat)
    requires j < |s|
    ensures Sum(s) == Sum(s[..j] + s[j + 1..]) + s[j]
    decreases |s|
  {
    if j < |s| - 1 {
      var t := s[..|s| - 1];
      SumRemove(t, j);
      assert s[..j] + s[j + 1..] == (t[..j] + t[j + 1..]) + [s[|s| - 1]];
    } else {
      assert s[..j] + s[j + 1..] == s[..|s| - 1];
    }
  }

  /** The sum of a concatenation. */
  lemma {:induction false} SumAppend(a: seq<int>, b: seq<int>)
    ensures Sum(a + b) == Sum(a) + Sum(b)
    decreases |b|
  {
    if b != [] {
      SumAppend(a, b[..|b| - 1]);
      assert (a + b)[..|a + b| - 1] == a + b[..|b| - 1];
    } else {
      assert a + b == a;
    }
  }

  /** A rating shown to one decimal: `n > 0 ? sum / n : 0`, then
      `Number(_.toFixed(1))`. */
  function MeanTenth(xs: seq<int>): real {
    if xs == [] then 0.0 else RoundTenth(Sum(xs) as real / |xs| as real)
  }

  /** No terms give 0; terms in [lo, hi] give a rating in [lo, hi]. */
  lemma MeanTenthBounds(xs: seq<int>, lo: nat, hi: nat)
    requires forall i :: 0 <= i < |xs| ==> lo <= xs[i] <= hi
    ensures xs == [] ==> MeanTenth(xs) == 0.0
    ensures xs != [] ==> lo as real <= MeanTenth(xs) <= hi as real
  {
    if xs != [] {
      MeanBounds(xs, lo, hi);
      RoundTenthWithin(Sum(xs) as real / |xs| as real, lo, hi);
    }
  }

  /** The rating does not depend on the order of the terms. */
  lemma MeanTenthPermutation(a: seq<int>, b: seq<int>)
    requires multiset(a) == multiset(b)
    ensures MeanTenth(a) == MeanTenth(b)
  {
    SumPermutation(a, b);
    assert |multiset(a)| == |multiset(b)|;
  }

  /** 10^n. */
  function Pow10(n: nat): (r: nat)
    ensures r >= 1
  {
    if n == 0 then 1 else 10 * Pow10(n - 1)
  }
}
