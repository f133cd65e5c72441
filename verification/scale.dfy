/** The round marks of a chart axis (internal/webview/chart.go), in exact reals. */
module Scales {
  import opened Reals

  const EPS: real := 0.000000001

  /** The factors tried, times the power of ten at or below a quarter of the range. */
  const FACTORS: seq<real> := [1.0, 2.0, 2.5, 5.0, 10.0, 20.0]

  // ---------------------------------------------------------- powers of ten

  function Pow10(k: int): (r: real)
    ensures r > 0.0
    decreases if k < 0 then -k else k
  {
    if k == 0 then 1.0 else if k > 0 then 10.0 * Pow10(k - 1) else Pow10(k + 1) / 10.0
  }

  lemma Pow10Next(k: int)
    ensures Pow10(k + 1) == 10.0 * Pow10(k)
  {}

  lemma MulLess(a: real, b: real, x: real)
    requires a < b && x > 0.0
    ensures a * x < b * x
  {
    var d := b - a;
    assert d * x > 0.0;
    assert b * x == a * x + d * x;
  }

  lemma MulAtMost(a: real, b: real, x: real)
    requires a <= b && x > 0.0
    ensures a * x <= b * x
  {
    if a < b {
      MulLess(a, b, x);
    }
  }

  lemma SameProduct(a: real, b: real, x: real)
    requires x > 0.0 && a * x == b * x
    ensures a == b
  {
    if a < b {
      MulLess(a, b, x);
    } else if b < a {
      MulLess(b, a, x);
    }
  }

  lemma Quotient(a: real, x: real)
    requires x > 0.0
    ensures (a / x) * x == a
  {}

  lemma Inverse(x: real)
    requires 0.0 < x < 1.0
    ensures 1.0 / x > 1.0
    ensures 1.0 / (10.0 * x) == (1.0 / x) / 10.0
  {
    var y, z := 1.0 / x, 1.0 / (10.0 * x);
    Quotient(1.0, x);
    Quotient(1.0, 10.0 * x);
    if y <= 1.0 {
      MulAtMost(y, 1.0, x);
    }
    assert z * (10.0 * x) == (10.0 * z) * x;
    SameProduct(10.0 * z, y, x);
  }

  /** The integral part of the decimal logarithm. */
  function FloorLog10(x: real): (k: int)
    requires x > 0.0
    ensures Pow10(k) <= x < 10.0 * Pow10(k)
    decreases if x < 1.0 then 1 else 0, if x < 1.0 then (1.0 / x).Floor else x.Floor
  {
    if x >= 10.0 then
      var k := FloorLog10(x / 10.0);
      Pow10Next(k);
      k + 1
    else if x < 1.0 then
      Inverse(x);
      var k := FloorLog10(10.0 * x);
      Pow10Next(k - 1);
      k - 1
    else 0
  }

  // ------------------------------------------------------------- one factor

  function Ceil(x: real): int {
    -((-x).Floor)
  }

  function Times(n: int, step: real): real {
    Mul(n as real, step)
  }

  /** The first mark at or below lo, in steps, to a billionth of a step. */
  function Below(lo: real, step: real): int
    requires step > 0.0
  {
    (lo / step + EPS).Floor
  }

  /** The last mark, at or above hi. */
  function Above(hi: real, step: real): int
    requires step > 0.0
  {
    Ceil(hi / step - EPS)
  }

  /** Four intervals are enough. */
  predicate Fits(lo: real, hi: real, step: real)
    requires step > 0.0
  {
    Above(hi, step) - Below(lo, step) <= 4
  }

  /** There is an interval at least. */
  predicate Parts(lo: real, hi: real, step: real)
    requires step > 0.0
  {
    Above(hi, step) - Below(lo, step) >= 1
  }

  lemma Distribute(x: real, c: real, step: real)
    ensures (x + c) * step == x * step + c * step
  {}

  lemma ScaledAtMost(a: real, x: real, eps: real, step: real)
    requires step > 0.0 && a <= x + eps
    ensures Mul(a, step) <= Mul(x, step) + Mul(eps, step)
  {
    MulAtMost(a, x + eps, step);
    Distribute(x, eps, step);
  }

  lemma ScaledWithinOne(a: real, x: real, step: real)
    requires step > 0.0 && x < a + 1.0
    ensures Mul(x, step) < Mul(a, step) + step
  {
    var d := a + 1.0 - x;
    assert d * step > 0.0;
    assert d * step == a * step + step - x * step;
  }

  lemma FloorScaled(x: real, step: real)
    requires step > 0.0
    ensures Mul(x, step) - step < Times((x + EPS).Floor, step) <= Mul(x, step) + Mul(EPS, step)
  {
    var n := (x + EPS).Floor;
    ScaledAtMost(n as real, x, EPS, step);
    ScaledWithinOne(n as real, x, step);
  }

  lemma CeilScaled(y: real, step: real)
    requires step > 0.0
    ensures Mul(y, step) - Mul(EPS, step) <= Times(Ceil(y - EPS), step) < Mul(y, step) + step
  {
    var n := Ceil(y - EPS);
    ScaledAtMost(y, n as real, EPS, step);
    ScaledWithinOne(y, n as real, step);
  }

  /** The marks are the nearest outside the range, give or take a billionth of a step. */
  lemma MarksCover(lo: real, hi: real, step: real)
    requires step > 0.0
    ensures lo - step < Times(Below(lo, step), step) <= lo + Mul(EPS, step)
    ensures hi - Mul(EPS, step) <= Times(Above(hi, step), step) < hi + step
  {
    FloorScaled(lo / step, step);
    CeilScaled(hi / step, step);
    assert Mul(lo / step, step) == lo && Mul(hi / step, step) == hi;
  }

  lemma WidthInSteps(lo: real, hi: real, e: real, m: real)
    requires e > 0.0 && m > 0.0
    ensures hi / (m * e) - lo / (m * e) == (hi - lo) / (m * e)
    ensures ((hi - lo) / (m * e)) * m == (hi - lo) / e
  {
    var step := m * e;
    Quotient(hi, step);
    Quotient(lo, step);
    Quotient(hi - lo, step);
    Quotient(hi - lo, e);
    var w := (hi - lo) / step;
    SameProduct(hi / step - lo / step, w, step);
    assert (w * m) * e == w * step;
    SameProduct(w * m, (hi - lo) / e, e);
  }

  /** With w steps in the range, there is an interval, and four are enough when w is below two. */
  lemma Intervals(lo: real, hi: real, step: real)
    requires step > 0.0
    ensures hi / step - lo / step < 2.0 ==> Fits(lo, hi, step)
    ensures hi / step - lo / step >= 0.2 ==> Parts(lo, hi, step)
  {}

  /** The last factor always fits, and there is always an interval. */
  lemma FactorBounds(lo: real, hi: real, e: real, m: real)
    requires lo < hi && e > 0.0 && 0.0 < m <= 20.0
    requires 4.0 * e <= hi - lo < 40.0 * e
    ensures m == 20.0 ==> Fits(lo, hi, m * e)
    ensures Parts(lo, hi, m * e)
  {
    WidthInSteps(lo, hi, e, m);
    var w := (hi - lo) / (m * e);
    var v := (hi - lo) / e;
    assert 4.0 <= v < 40.0 by {
      Quotient(hi - lo, e);
      if v < 4.0 {
        MulLess(v, 4.0, e);
      } else if v >= 40.0 {
        MulAtMost(40.0, v, e);
      }
    }
    assert w >= 0.2 by {
      if w < 0.2 {
        MulLess(w, 0.2, m);
      }
    }
    Intervals(lo, hi, m * e);
  }

  // ------------------------------------------------------------- the scale

  /** One, two, two and a half or five times a power of ten. */
  ghost predicate Round(step: real) {
    exists k: int :: step == Pow10(k) || step == 2.0 * Pow10(k) || step == 2.5 * Pow10(k) || step == 5.0 * Pow10(k)
  }

  lemma FactorsAreRound(k: int, i: nat)
    requires i < |FACTORS|
    ensures Round(FACTORS[i] * Pow10(k))
  {
    Pow10Next(k);
    if i >= 4 {
      assert FACTORS[i] * Pow10(k) == (if i == 4 then 1.0 else 2.0) * Pow10(k + 1);
    }
  }

  /** A candidate of the search: the marks around the range for a step. */
  datatype Scale = Scale(l: real, h: real, step: real)

  function Candidate(lo: real, hi: real, step: real): Scale
    requires step > 0.0
  {
    Scale(Times(Below(lo, step), step), Times(Above(hi, step), step), step)
  }

  lemma CountIsWhole(a: int, b: int, step: real)
    requires step > 0.0
    ensures (Times(b, step) - Times(a, step)) / step == (b - a) as real
  {
    var d := Times(b, step) - Times(a, step);
    assert d == Times(b - a, step);
    Quotient(d, step);
    SameProduct(d / step, (b - a) as real, step);
  }

  /** Bounds that are multiples of a round step, one to four steps apart. */
  ghost predicate RoundMarks(s: Scale) {
    Round(s.step) && exists a: int, b: int :: s.l == Times(a, s.step) && s.h == Times(b, s.step) && 1 <= b - a <= 4
  }

  /** The range is covered with nothing to spare, to a billionth of a step. */
  predicate Covers(s: Scale, lo: real, hi: real) {
    lo - s.step < s.l <= lo + Mul(EPS, s.step) && hi - Mul(EPS, s.step) <= s.h < hi + s.step
  }

  function Step(e: real, i: nat): (step: real)
    requires i < |FACTORS| && e > 0.0
    ensures step > 0.0
  {
    FACTORS[i] * e
  }

  /** The first factor that fits, for the power of ten at or below a quarter of the range. */
  ghost predicate FirstFit(step: real, lo: real, hi: real) {
    exists k: int, i: nat :: FirstFitAt(step, lo, hi, k, i)
  }

  predicate FirstFitAt(step: real, lo: real, hi: real, k: int, i: nat) {
    && Pow10(k) <= (hi - lo) / 4.0 < 10.0 * Pow10(k)
    && i < |FACTORS| && step == Step(Pow10(k), i)
    && Fits(lo, hi, step)
    && forall j :: 0 <= j < i ==> !Fits(lo, hi, Step(Pow10(k), j))
  }

  lemma LastFactorFits(lo: real, hi: real, e: real)
    requires lo < hi && e > 0.0 && e <= (hi - lo) / 4.0 < 10.0 * e
    ensures Fits(lo, hi, Step(e, 5))
  {
    FactorBounds(lo, hi, e, FACTORS[5]);
  }

  lemma StepIsRound(k: int, i: nat)
    requires i < |FACTORS|
    ensures Round(Step(Pow10(k), i))
  {
    FactorsAreRound(k, i);
  }

  lemma StepParts(lo: real, hi: real, e: real, i: nat)
    requires lo < hi && e > 0.0 && e <= (hi - lo) / 4.0 < 10.0 * e
    requires i < |FACTORS|
    ensures Parts(lo, hi, Step(e, i))
  {
    assert 0.0 < FACTORS[i] <= 20.0;
    FactorBounds(lo, hi, e, FACTORS[i]);
  }

  lemma CandidateIsNice(lo: real, hi: real, k: int, i: nat)
    requires lo < hi && Pow10(k) <= (hi - lo) / 4.0 < 10.0 * Pow10(k)
    requires i < |FACTORS| && Fits(lo, hi, Step(Pow10(k), i))
    ensures RoundMarks(Candidate(lo, hi, Step(Pow10(k), i)))
    ensures Covers(Candidate(lo, hi, Step(Pow10(k), i)), lo, hi)
  {
    StepIsRound(k, i);
    StepParts(lo, hi, Pow10(k), i);
    FittingMarks(lo, hi, Step(Pow10(k), i));
    MarksCover(lo, hi, Step(Pow10(k), i));
  }

  lemma FittingMarks(lo: real, hi: real, step: real)
    requires step > 0.0 && Round(step) && Fits(lo, hi, step) && Parts(lo, hi, step)
    ensures RoundMarks(Candidate(lo, hi, step))
  {
    var a, b := Below(lo, step), Above(hi, step);
    assert 1 <= b - a <= 4;
  }

  // ---------------------------------------------------- the least round step

  lemma {:induction false} Pow10Least(j: int, k: int)
    requires j < k
    ensures 10.0 * Pow10(j) <= Pow10(k)
    decreases k - j
  {
    Pow10Next(k - 1);
    if j < k - 1 {
      Pow10Least(j, k - 1);
    }
  }

  /** Below a power of ten, a round step is half of it at most. */
  lemma RoundBelow(k: int, step: real)
    requires Round(step) && step < Pow10(k)
    ensures 0.0 < 2.0 * step <= Pow10(k)
  {
    var j: int :| step == Pow10(j) || step == 2.0 * Pow10(j) || step == 2.5 * Pow10(j) || step == 5.0 * Pow10(j);
    if j < k {
      Pow10Least(j, k);
    } else if j > k {
      Pow10Least(k, j);
    }
  }

  /** From a power of ten to twenty times it, a round step is one of the factors tried. */
  lemma RoundIsFactor(k: int, step: real) returns (i: nat)
    requires Round(step) && Pow10(k) <= step <= 20.0 * Pow10(k)
    ensures i < |FACTORS| && step == Step(Pow10(k), i)
  {
    var j: int :| step == Pow10(j) || step == 2.0 * Pow10(j) || step == 2.5 * Pow10(j) || step == 5.0 * Pow10(j);
    if j < k {
      Pow10Least(j, k);
      assert false;
    }
    if j > k + 1 {
      Pow10Least(k + 1, j);
      Pow10Next(k);
      assert false;
    }
    Pow10Next(k);
    if j == k {
      i := if step == Pow10(j) then 0 else if step == 2.0 * Pow10(j) then 1 else if step == 2.5 * Pow10(j) then 2 else 3;
    } else {
      i := if step == Pow10(j) then 4 else 5;
    }
  }

  /** a and b mark both sides of the range, in steps, to a billionth of a step. */
  predicate Bracket(lo: real, hi: real, step: real, a: int, b: int) {
    Times(a, step) <= lo + Mul(EPS, step) && hi - Mul(EPS, step) <= Times(b, step)
  }

  lemma MulCancel(x: real, y: real, step: real)
    requires step > 0.0 && Mul(x, step) <= Mul(y, step)
    ensures x <= y
  {
    if x > y {
      MulLess(y, x, step);
    }
  }

  /** The marks computed are the closest. */
  lemma BracketWidest(lo: real, hi: real, step: real, a: int, b: int)
    requires step > 0.0 && Bracket(lo, hi, step, a, b)
    ensures b - a >= Above(hi, step) - Below(lo, step)
  {
    var x, y := lo / step, hi / step;
    Quotient(lo, step);
    Quotient(hi, step);
    Distribute(x, EPS, step);
    Distribute(y, -EPS, step);
    MulCancel(a as real, x + EPS, step);
    MulCancel(y - EPS, b as real, step);
  }

  /** A range of eight steps does not hold on four. */
  lemma TooFine(lo: real, hi: real, e: real, step: real, a: int, b: int)
    requires step > 0.0 && 2.0 * step <= e && 4.0 * e <= hi - lo && Bracket(lo, hi, step, a, b)
    ensures b - a > 4
  {
    assert Times(b, step) - Times(a, step) >= hi - lo - 2.0 * Mul(EPS, step);
    assert hi - lo >= 8.0 * step;
    var n := (b - a) as real;
    assert Mul(n, step) == Times(b, step) - Times(a, step);
    assert Mul(8.0 - 2.0 * EPS, step) == 8.0 * step - 2.0 * Mul(EPS, step);
    MulCancel(8.0 - 2.0 * EPS, n, step);
  }

  /** No finer round step does. */
  lemma FirstFitIsLeast(lo: real, hi: real, step: real, finer: real, a: int, b: int)
    requires lo < hi && FirstFit(step, lo, hi) && Round(finer) && finer < step && finer > 0.0
    requires Bracket(lo, hi, finer, a, b)
    ensures b - a > 4
  {
    var k: int, i: nat :| FirstFitAt(step, lo, hi, k, i);
    if finer < Pow10(k) {
      RoundBelow(k, finer);
      TooFine(lo, hi, Pow10(k), finer, a, b);
    } else {
      FactorsUpTo20(i);
      MulAtMost(FACTORS[i], 20.0, Pow10(k));
      var j := RoundIsFactor(k, finer);
      FactorsIncrease(k, i, j);
      assert !Fits(lo, hi, Step(Pow10(k), j));
      BracketWidest(lo, hi, finer, a, b);
    }
  }

  lemma NoneFiner(lo: real, hi: real, step: real)
    requires lo < hi && FirstFit(step, lo, hi)
    ensures forall finer: real, a: int, b: int ::
              0.0 < finer < step && Round(finer) && Bracket(lo, hi, finer, a, b) ==> b - a > 4
  {
    forall finer: real, a: int, b: int | 0.0 < finer < step && Round(finer) && Bracket(lo, hi, finer, a, b)
      ensures b - a > 4
    {
      FirstFitIsLeast(lo, hi, step, finer, a, b);
    }
  }

  lemma FactorsUpTo20(i: nat)
    requires i < |FACTORS|
    ensures FACTORS[i] <= 20.0
  {}

  lemma FactorsIncrease(k: int, i: nat, j: nat)
    requires i < |FACTORS| && j < |FACTORS| && Step(Pow10(k), j) < Step(Pow10(k), i)
    ensures j < i
  {
    if i <= j {
      assert FACTORS[i] <= FACTORS[j];
      MulAtMost(FACTORS[i], FACTORS[j], Pow10(k));
    }
  }

  function UpperEnd(lo: real, hi: real): real {
    if hi <= lo then lo + 1.0 else hi
  }

  /**
   * Rounds the scale. The search always ends on one of its factors, the first
   * that fits: the step is round, the bounds are multiples of it, one to four
   * steps apart, and cover the range with nothing to spare.
   */
  method NiceScale(lo: real, hi: real) returns (s: Scale)
    ensures RoundMarks(s)
    ensures Covers(s, lo, UpperEnd(lo, hi))
    ensures FirstFit(s.step, lo, UpperEnd(lo, hi))
    ensures forall finer: real, a: int, b: int ::
              0.0 < finer < s.step && Round(finer) && Bracket(lo, UpperEnd(lo, hi), finer, a, b) ==> b - a > 4
  {
    var top := hi;
    if hi <= lo {
      top := lo + 1.0;
    }
    var raw := (top - lo) / 4.0;
    var k := FloorLog10(raw);
    var e := Pow10(k);
    for i := 0 to |FACTORS|
      invariant forall j :: 0 <= j < i ==> !Fits(lo, top, Step(e, j))
    {
      var step := Step(e, i);
      var a, b := Below(lo, step), Above(top, step);
      var l, h := Times(a, step), Times(b, step);
      CountIsWhole(a, b, step);
      if (h - l) / step <= 4.0 + EPS {
        CandidateIsNice(lo, top, k, i);
        assert FirstFitAt(step, lo, top, k, i);
        NoneFiner(lo, top, step);
        return Scale(l, h, step);
      }
    }
    LastFactorFits(lo, top, e);
    assert false;
    return Scale(lo, top, 0.5 * (top - lo));
  }
}
