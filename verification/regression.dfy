/**
 * Straight lines by least squares: the slope of the SC-QAM channels
 * (internal/analyze/plausible.go) and the trend of a measure
 * (internal/webview/tendance.go), in exact reals.
 */
module Regression {
  import opened Reals
  import opened Wrappers

  datatype Point = Point(x: real, y: real)

  const MIN_SCQAM: nat := 4
  const MIN_DAYS: nat := 14

  // ------------------------------------------------------------------ sums

  /** The five sums of a fit, and the number of points. */
  datatype Sums = Sums(n: real, sx: real, sy: real, sxx: real, syy: real, sxy: real) {
    function Vx(): real { n * sxx - sx * sx }

    function Vy(): real { n * syy - sy * sy }

    function Num(): real { n * sxy - sx * sy }
  }

  const ZERO := Sums(0.0, 0.0, 0.0, 0.0, 0.0, 0.0)

  function Add(s: Sums, p: Point): Sums {
    Sums(s.n + 1.0, s.sx + p.x, s.sy + p.y, s.sxx + p.x * p.x, s.syy + p.y * p.y, s.sxy + p.x * p.y)
  }

  function SumsOf(ps: seq<Point>): (s: Sums)
    ensures s.n == |ps| as real
  {
    if ps == [] then ZERO else Add(SumsOf(ps[..|ps| - 1]), ps[|ps| - 1])
  }

  lemma SumsSnoc(ps: seq<Point>, p: Point)
    ensures SumsOf(ps + [p]) == Add(SumsOf(ps), p)
  {
    assert (ps + [p])[..|ps|] == ps;
  }

  // ----------------------------------------------------------- dispersion

  /** The squared distances of the abscissas to x. */
  function Spread(x: real, ps: seq<Point>): real {
    if ps == [] then 0.0 else Spread(x, ps[..|ps| - 1]) + Square(ps[|ps| - 1].x - x)
  }

  function SpreadFrom(s: Sums, x: real): real {
    s.sxx - 2.0 * x * s.sx + s.n * (x * x)
  }

  lemma SpreadStep(s: Sums, x: real, p: Point)
    ensures SpreadFrom(Add(s, p), x) == SpreadFrom(s, x) + Square(p.x - x)
  {
    assert (p.x - x) * (p.x - x) == p.x * p.x - 2.0 * x * p.x + x * x;
  }

  lemma {:induction false} SpreadSums(x: real, ps: seq<Point>)
    ensures Spread(x, ps) == SpreadFrom(SumsOf(ps), x)
  {
    if ps != [] {
      SpreadSums(x, ps[..|ps| - 1]);
      SpreadStep(SumsOf(ps[..|ps| - 1]), x, ps[|ps| - 1]);
    }
  }

  predicate SameAbscissa(ps: seq<Point>) {
    forall i, j :: 0 <= i < j < |ps| ==> ps[i].x == ps[j].x
  }

  lemma {:induction false} SpreadSign(x: real, ps: seq<Point>)
    ensures Spread(x, ps) >= 0.0
    ensures Spread(x, ps) == 0.0 <==> forall i :: 0 <= i < |ps| ==> ps[i].x == x
  {
    if ps != [] {
      var init := ps[..|ps| - 1];
      SpreadSign(x, init);
      assert forall i :: 0 <= i < |init| ==> init[i] == ps[i];
    }
  }

  lemma VxStep(s: Sums, p: Point)
    ensures Add(s, p).Vx() == s.Vx() + SpreadFrom(s, p.x)
  {}

  /** The denominator is never negative, and zero only when all abscissas are equal. */
  lemma {:induction false} VxSign(ps: seq<Point>)
    ensures SumsOf(ps).Vx() >= 0.0
    ensures SumsOf(ps).Vx() == 0.0 <==> SameAbscissa(ps)
  {
    if ps != [] {
      var init, p := ps[..|ps| - 1], ps[|ps| - 1];
      VxSign(init);
      VxStep(SumsOf(init), p);
      SpreadSums(p.x, init);
      SpreadSign(p.x, init);
      assert SumsOf(ps).Vx() == SumsOf(init).Vx() + Spread(p.x, init);
      SameAbscissaStep(ps);
    }
  }

  lemma SameAbscissaStep(ps: seq<Point>)
    requires ps != []
    ensures var init := ps[..|ps| - 1];
            SameAbscissa(ps) <==> SameAbscissa(init) && forall i :: 0 <= i < |init| ==> init[i].x == ps[|ps| - 1].x
  {}

  // ------------------------------------------------------------- residuals

  datatype Line = Line(a: real, b: real)

  function Residual(l: Line, p: Point): real {
    p.y - l.a - l.b * p.x
  }

  /** The line passes through every point. */
  predicate Through(l: Line, ps: seq<Point>) {
    forall p | p in ps :: Residual(l, p) == 0.0
  }

  /** The sum of the squared residuals of a line. */
  function Squares(l: Line, ps: seq<Point>): real {
    if ps == [] then 0.0 else Squares(l, ps[..|ps| - 1]) + Square(Residual(l, ps[|ps| - 1]))
  }

  lemma {:induction false} SquaresSign(l: Line, ps: seq<Point>)
    ensures Squares(l, ps) >= 0.0
    ensures Squares(l, ps) == 0.0 <==> Through(l, ps)
  {
    if ps != [] {
      var init, p := ps[..|ps| - 1], ps[|ps| - 1];
      SquaresSign(l, init);
      assert ps == init + [p];
    }
  }

  /** What the sums give for y = a + b * x. */
  function Quadratic(n: real, sx: real, sy: real, sxx: real, syy: real, sxy: real, a: real, b: real): real {
    syy - 2.0 * a * sy - 2.0 * b * sxy + n * (a * a) + 2.0 * a * b * sx + (b * b) * sxx
  }

  /** The same from the sums. */
  function SquaresFrom(s: Sums, l: Line): real {
    Quadratic(s.n, s.sx, s.sy, s.sxx, s.syy, s.sxy, l.a, l.b)
  }

  lemma QuadraticStep(n: real, sx: real, sy: real, sxx: real, syy: real, sxy: real, a: real, b: real, x: real, y: real)
    ensures Quadratic(n + 1.0, sx + x, sy + y, sxx + x * x, syy + y * y, sxy + x * y, a, b)
            == Quadratic(n, sx, sy, sxx, syy, sxy, a, b) + Square(y - a - b * x)
  {}

  lemma SquaresStep(s: Sums, l: Line, p: Point)
    ensures SquaresFrom(Add(s, p), l) == SquaresFrom(s, l) + Square(Residual(l, p))
  {
    QuadraticStep(s.n, s.sx, s.sy, s.sxx, s.syy, s.sxy, l.a, l.b, p.x, p.y);
  }

  lemma {:induction false} SquaresSums(l: Line, ps: seq<Point>)
    ensures Squares(l, ps) == SquaresFrom(SumsOf(ps), l)
  {
    if ps != [] {
      SquaresSums(l, ps[..|ps| - 1]);
      SquaresStep(SumsOf(ps[..|ps| - 1]), l, ps[|ps| - 1]);
    }
  }

  /** The normal equations: the line of least squares. */
  predicate Normal(s: Sums, l: Line) {
    && s.n * l.a + l.b * s.sx == s.sy
    && l.a * s.sx + l.b * s.sxx == s.sxy
  }

  /** The fitted line solves the normal equations. */
  lemma FittedIsNormal(s: Sums, l: Line)
    requires s.n > 0.0 && s.Vx() != 0.0
    requires l.b * s.Vx() == s.Num() && s.n * l.a == s.sy - l.b * s.sx
    ensures Normal(s, l)
  {
    var d := l.a * s.sx + l.b * s.sxx - s.sxy;
    calc {
      s.n * d;
      (s.n * l.a) * s.sx + l.b * (s.n * s.sxx) - s.n * s.sxy;
      (s.sy - l.b * s.sx) * s.sx + l.b * (s.n * s.sxx) - s.n * s.sxy;
      l.b * (s.n * s.sxx - s.sx * s.sx) - (s.n * s.sxy - s.sx * s.sy);
      0.0;
    }
    ZeroFactor(s.n, d);
  }

  lemma ZeroFactor(n: real, d: real)
    requires n > 0.0 && n * d == 0.0
    ensures d == 0.0
  {
    assert Mul(n, d) == 0.0 && Mul(n, -d) == 0.0;
    if d > 0.0 {
      MulPositive(n, d);
    } else if d < 0.0 {
      MulPositive(n, -d);
    }
  }

  /** What a line adds to the least squares, from the way it departs from the normal one. */
  lemma Departure(s: Sums, l: Line, m: Line)
    requires Normal(s, l)
    ensures var u, v := m.a - l.a, m.b - l.b;
            SquaresFrom(s, m) == SquaresFrom(s, l) + SquaresFrom(Sums(s.n, s.sx, 0.0, s.sxx, 0.0, 0.0), Line(u, v))
  {
    var a, b, u, v := l.a, l.b, m.a - l.a, m.b - l.b;
    assert m.a == a + u && m.b == b + v;
    var cross := 2.0 * u * (s.n * a + b * s.sx - s.sy) + 2.0 * v * (a * s.sx + b * s.sxx - s.sxy);
    assert cross == 0.0;
    Expand(s, a, b, u, v);
  }

  lemma Expand(s: Sums, a: real, b: real, u: real, v: real)
    ensures SquaresFrom(s, Line(a + u, b + v)) ==
            SquaresFrom(s, Line(a, b))
            + (2.0 * u * (s.n * a + b * s.sx - s.sy) + 2.0 * v * (a * s.sx + b * s.sxx - s.sxy))
            + (s.n * (u * u) + 2.0 * u * v * s.sx + (v * v) * s.sxx)
  {
    assert (a + u) * (a + u) == a * a + 2.0 * a * u + u * u;
    assert (b + v) * (b + v) == b * b + 2.0 * b * v + v * v;
    assert (a + u) * (b + v) == a * b + a * v + u * b + u * v;
  }

  function Flatten(ps: seq<Point>): (r: seq<Point>)
    ensures |r| == |ps| && forall i :: 0 <= i < |ps| ==> r[i] == Point(ps[i].x, 0.0)
  {
    if ps == [] then [] else Flatten(ps[..|ps| - 1]) + [Point(ps[|ps| - 1].x, 0.0)]
  }

  lemma {:induction false} FlattenedSums(ps: seq<Point>)
    ensures SumsOf(Flatten(ps)) == Sums(SumsOf(ps).n, SumsOf(ps).sx, 0.0, SumsOf(ps).sxx, 0.0, 0.0)
  {
    if ps != [] {
      var init, p := ps[..|ps| - 1], ps[|ps| - 1];
      FlattenedSums(init);
      SumsSnoc(Flatten(init), Point(p.x, 0.0));
    }
  }

  /** No line does better than one that solves the normal equations. */
  lemma NormalIsLeast(ps: seq<Point>, l: Line, m: Line)
    requires Normal(SumsOf(ps), l)
    ensures Squares(l, ps) <= Squares(m, ps)
  {
    SquaresSums(l, ps);
    SquaresSums(m, ps);
    Departure(SumsOf(ps), l, m);
    FlattenedSums(ps);
    var d := Line(m.a - l.a, m.b - l.b);
    SquaresSums(d, Flatten(ps));
    SquaresSign(d, Flatten(ps));
  }

  // ----------------------------------------------------------- correlation

  lemma LeastSquares(s: Sums, l: Line)
    requires Normal(s, l)
    ensures s.n * SquaresFrom(s, l) == s.Vy() - l.b * s.Num()
  {
    var a, b := l.a, l.b;
    assert SquaresFrom(s, l) == s.syy - a * s.sy - b * s.sxy by {
      assert a * (s.n * a + b * s.sx) == a * s.sy;
      assert b * (a * s.sx + b * s.sxx) == b * s.sxy;
    }
    assert (s.n * a) * s.sy == (s.sy - b * s.sx) * s.sy;
  }

  /** n times vx times the least sum of squares is what the covariance lacks. */
  lemma Lack(s: Sums, l: Line, q: real)
    requires s.n * q == s.Vy() - l.b * s.Num() && l.b * s.Vx() == s.Num()
    ensures Mul(s.Vx(), Mul(s.n, q)) == Mul(s.Vx(), s.Vy()) - Square(s.Num())
  {
    var vx, vy, num := s.Vx(), s.Vy(), s.Num();
    assert vx * (vy - l.b * num) == vx * vy - (l.b * vx) * num;
  }

  lemma FittedBound(ps: seq<Point>, s: Sums, l: Line)
    requires ps != [] && s == SumsOf(ps) && s.Vx() > 0.0
    requires Normal(s, l) && l.b * s.Vx() == s.Num()
    ensures Square(s.Num()) <= Mul(s.Vx(), s.Vy())
    ensures Square(s.Num()) == Mul(s.Vx(), s.Vy()) <==> Through(l, ps)
  {
    var q := Squares(l, ps);
    LeastSquares(s, l);
    SquaresSums(l, ps);
    SquaresSign(l, ps);
    Lack(s, l, q);
    MulSign(s.n, q);
    MulSign(s.Vx(), Mul(s.n, q));
  }

  lemma Quotient(x: real, y: real) returns (q: real)
    requires y != 0.0
    ensures q * y == x && y * q == x
  {
    q := x / y;
  }

  lemma FittedLine(s: Sums) returns (l: Line)
    requires s.n > 0.0 && s.Vx() != 0.0
    ensures Normal(s, l) && l.b * s.Vx() == s.Num()
  {
    var b := Quotient(s.Num(), s.Vx());
    var a := Quotient(s.sy - b * s.sx, s.n);
    l := Line(a, b);
    FittedIsNormal(s, l);
  }

  /** All the points have abscissa x. */
  predicate Vertical(s: Sums, x: real) {
    s.sx == x * s.n && s.sxy == x * s.sy
  }

  lemma VerticalStep(s: Sums, x: real, y: real)
    requires Vertical(s, x)
    ensures Vertical(Add(s, Point(x, y)), x)
  {
    assert x * (s.n + 1.0) == x * s.n + x && x * (s.sy + y) == x * s.sy + x * y;
  }

  lemma {:induction false} VerticalSums(ps: seq<Point>, x: real)
    requires forall p | p in ps :: p.x == x
    ensures Vertical(SumsOf(ps), x)
  {
    if ps != [] {
      VerticalSums(ps[..|ps| - 1], x);
      VerticalStep(SumsOf(ps[..|ps| - 1]), x, ps[|ps| - 1].y);
    }
  }

  lemma VerticalNum(s: Sums, x: real)
    requires Vertical(s, x)
    ensures s.Num() == 0.0
  {
    assert s.n * (x * s.sy) == (x * s.n) * s.sy;
  }

  lemma VerticalBound(ps: seq<Point>, s: Sums)
    requires SameAbscissa(ps) && s == SumsOf(ps)
    ensures Square(s.Num()) == 0.0 == Mul(s.Vx(), s.Vy())
  {
    var x := if ps == [] then 0.0 else ps[0].x;
    VerticalSums(ps, x);
    VerticalNum(s, x);
    VxSign(ps);
    NoProduct(s.Vx(), s.Vy());
  }

  lemma NoProduct(x: real, y: real)
    requires x == 0.0
    ensures Mul(x, y) == 0.0
  {}

  lemma SlantedBound(ps: seq<Point>, s: Sums)
    requires !SameAbscissa(ps) && s == SumsOf(ps)
    ensures Square(s.Num()) <= Mul(s.Vx(), s.Vy())
    ensures Square(s.Num()) == Mul(s.Vx(), s.Vy()) <==> Aligned(ps)
  {
    VxSign(ps);
    var l := FittedLine(s);
    FittedBound(ps, s, l);
    NormalLine(ps, l);
    AlignedIsFitted(ps, l);
  }

  /**
   * The square of the covariance is at most the product of the variances, and
   * equals it only for aligned points, on a vertical or on another line.
   */
  lemma CovarianceBound(ps: seq<Point>, s: Sums)
    requires s == SumsOf(ps)
    ensures Square(s.Num()) <= Mul(s.Vx(), s.Vy())
    ensures Square(s.Num()) == Mul(s.Vx(), s.Vy()) <==> SameAbscissa(ps) || Aligned(ps)
  {
    if SameAbscissa(ps) {
      VerticalBound(ps, s);
    } else {
      SlantedBound(ps, s);
    }
  }

  // --------------------------------------------------------------- methods

  /** A downstream channel; its frequency or power may not be given. */
  datatype Downstream = Downstream(ofdm: bool, frequency: Option<real>, power: Option<real>)

  predicate Eligible(c: Downstream) {
    !c.ofdm && c.frequency.Some? && c.power.Some?
  }

  function Points(ds: seq<Downstream>): seq<Point> {
    if ds == [] then []
    else
      var c := ds[|ds| - 1];
      Points(ds[..|ds| - 1]) + if Eligible(c) then [Point(c.frequency.value, c.power.value)] else []
  }

  /** The channels that a line is drawn through, by rank: not of the OFDM kind, with both figures. */
  function Drawn(ds: seq<Downstream>): set<int> {
    set i | 0 <= i < |ds| && !ds[i].ofdm && ds[i].frequency.Some? && ds[i].power.Some?
  }

  lemma DrawnStep(ds: seq<Downstream>)
    requires ds != []
    ensures var n := |ds| - 1;
            && Drawn(ds) == Drawn(ds[..n]) + (if Eligible(ds[n]) then {n} else {})
            && n !in Drawn(ds[..n])
  {}

  /** The point of a channel is drawn. */
  ghost predicate HasPoint(ds: seq<Downstream>, p: Point) {
    exists i :: i in Drawn(ds) && ds[i].frequency == Some(p.x) && ds[i].power == Some(p.y)
  }

  lemma HasPointStep(ds: seq<Downstream>, p: Point)
    requires ds != []
    ensures var n, c := |ds| - 1, ds[|ds| - 1];
            HasPoint(ds, p) <==> HasPoint(ds[..n], p) || (Eligible(c) && p == Point(c.frequency.value, c.power.value))
  {
    var n := |ds| - 1;
    DrawnStep(ds);
    if HasPoint(ds[..n], p) {
      var i :| i in Drawn(ds[..n]) && ds[..n][i].frequency == Some(p.x) && ds[..n][i].power == Some(p.y);
      assert i in Drawn(ds);
    }
    if Eligible(ds[n]) {
      assert n in Drawn(ds);
    }
  }

  /** One point for each of these channels, its frequency and its power, and no other. */
  lemma {:induction false} PointsAreDrawn(ds: seq<Downstream>)
    ensures |Points(ds)| == |Drawn(ds)|
    ensures forall p :: p in Points(ds) <==>
              exists i :: i in Drawn(ds) && ds[i].frequency == Some(p.x) && ds[i].power == Some(p.y)
  {
    if ds != [] {
      PointsAreDrawn(ds[..|ds| - 1]);
      DrawnStep(ds);
      forall p
        ensures p in Points(ds) <==> HasPoint(ds, p)
      {
        assert p in Points(ds[..|ds| - 1]) <==> HasPoint(ds[..|ds| - 1], p);
        HasPointStep(ds, p);
      }
    }
  }

  lemma PointsStep(ds: seq<Downstream>, i: nat)
    requires i < |ds|
    ensures var c := ds[i];
            Points(ds[..i + 1]) ==
            if Eligible(c) then Points(ds[..i]) + [Point(c.frequency.value, c.power.value)] else Points(ds[..i])
  {
    assert ds[..i + 1][..i] == ds[..i];
  }

  /** No line is closer to the points. */
  ghost predicate Least(l: Line, ps: seq<Point>) {
    forall m: Line :: Squares(l, ps) <= Squares(m, ps)
  }

  /**
   * The line of the SC-QAM channels: of all lines, the one of least squares.
   * It exists exactly when four channels are eligible and not all at the same
   * frequency.
   */
  method ScqamSlope(ds: seq<Downstream>) returns (r: Option<Line>)
    ensures r.Some? <==> |Points(ds)| >= 4 && !SameAbscissa(Points(ds))
    ensures r.Some? ==> Least(r.value, Points(ds))
  {
    var s := ScqamSums(ds);
    ghost var ps := Points(ds);
    VxSign(ps);
    var den := s.Vx();
    if s.n < MIN_SCQAM as real || den == 0.0 {
      return None;
    }
    var l := LeastLine(s, ps);
    return Some(l);
  }

  /** The line of least squares, from the sums of the points. */
  method LeastLine(s: Sums, ghost ps: seq<Point>) returns (l: Line)
    requires s == SumsOf(ps) && s.n > 0.0 && s.Vx() != 0.0
    ensures Normal(s, l) && Least(l, ps) && l.b * s.Vx() == s.Num()
  {
    var b := Divide(s.Num(), s.Vx());
    var a := Divide(s.sy - b * s.sx, s.n);
    l := Line(a, b);
    FittedIsNormal(s, l);
    NormalLine(ps, l);
  }

  /** A division, known by the product it undoes. */
  method Divide(x: real, y: real) returns (q: real)
    requires y != 0.0
    ensures q * y == x && y * q == x
  {
    q := x / y;
  }

  /** The sums over the eligible channels; the squares of the powers are not needed for the line. */
  method ScqamSums(ds: seq<Downstream>) returns (s: Sums)
    ensures s == SumsOf(Points(ds))
  {
    s := ZERO;
    for i := 0 to |ds|
      invariant s == SumsOf(Points(ds[..i]))
    {
      var c := ds[i];
      PointsStep(ds, i);
      if c.ofdm || c.frequency.None? || c.power.None? {
        continue;
      }
      SumsSnoc(Points(ds[..i]), Point(c.frequency.value, c.power.value));
      s := Add(s, Point(c.frequency.value, c.power.value));
    }
    assert ds[..|ds|] == ds;
  }

  lemma NormalLine(ps: seq<Point>, l: Line)
    requires Normal(SumsOf(ps), l)
    ensures Least(l, ps)
  {
    forall m: Line
      ensures Squares(l, ps) <= Squares(m, ps)
    {
      NormalIsLeast(ps, l, m);
    }
  }

  datatype Fit = Fit(b: real, r: real)

  function Pairs(xs: seq<real>, ys: seq<real>): (ps: seq<Point>)
    requires |xs| == |ys|
    ensures |ps| == |xs| && forall i :: 0 <= i < |xs| ==> ps[i] == Point(xs[i], ys[i])
  {
    seq(|xs|, i requires 0 <= i < |xs| => Point(xs[i], ys[i]))
  }

  /** A square root in exact reals. */
  ghost predicate IsSqrt(sqrt: real -> real) {
    forall v: real :: v >= 0.0 ==> sqrt(v) >= 0.0 && sqrt(v) * sqrt(v) == v
  }

  /** Points on one line. */
  ghost predicate Aligned(ps: seq<Point>) {
    exists l: Line :: Through(l, ps)
  }

  /**
   * The slope of least squares and the correlation, which lies between minus
   * one and one. When the values vary it is one of these bounds exactly for
   * aligned points; otherwise it is zero.
   */
  method FitTrend(xs: seq<real>, ys: seq<real>, sqrt: real -> real) returns (f: Option<Fit>)
    requires IsSqrt(sqrt)
    ensures f.Some? <==> |xs| == |ys| && |xs| >= 14 && !SameAbscissa(Pairs(xs, ys))
    ensures f.Some? ==> exists a: real :: Least(Line(a, f.value.b), Pairs(xs, ys))
    ensures f.Some? ==> -1.0 <= f.value.r <= 1.0
    ensures f.Some? ==> var s := SumsOf(Pairs(xs, ys)); if s.Vy() > 0.0 then Pearson(f.value.r, s) else f.value.r == 0.0
    ensures f.Some? && SumsOf(Pairs(xs, ys)).Vy() > 0.0 ==> (Square(f.value.r) == 1.0 <==> Aligned(Pairs(xs, ys)))
  {
    if |xs| < MIN_DAYS || |xs| != |ys| {
      return None;
    }
    ghost var ps := Pairs(xs, ys);
    var s := TrendSums(xs, ys);
    VxSign(ps);
    var vx, vy := s.Vx(), s.Vy();
    if vx <= 0.0 {
      return None;
    }
    var l := LeastLine(s, ps);
    assert Least(Line(l.a, l.b), ps);
    var r := 0.0;
    if vy > 0.0 {
      r := Correlation(s, sqrt, ps, l);
    }
    return Some(Fit(l.b, r));
  }

  method Correlation(s: Sums, sqrt: real -> real, ghost ps: seq<Point>, ghost l: Line) returns (r: real)
    requires IsSqrt(sqrt)
    requires ps != [] && s == SumsOf(ps) && s.Vx() > 0.0 && s.Vy() > 0.0
    requires Normal(s, l) && Least(l, ps) && l.b * s.Vx() == s.Num()
    ensures -1.0 <= r <= 1.0
    ensures Pearson(r, s)
    ensures Square(r) == 1.0 <==> Aligned(ps)
  {
    MulPositive(s.Vx(), s.Vy());
    ghost var root: real;
    r, root := Ratio(s.Num(), Mul(s.Vx(), s.Vy()), sqrt);
    TrendCorrelation(ps, s, l, root, r);
  }

  method Ratio(num: real, product: real, sqrt: real -> real) returns (r: real, ghost root: real)
    requires IsSqrt(sqrt) && product > 0.0
    ensures root > 0.0 && Mul(root, root) == product && Mul(r, root) == num
  {
    var d := sqrt(product);
    root := d;
    assert Mul(d, d) == product && Mul(0.0, 0.0) == 0.0;
    r := Divide(num, d);
  }

  /** The coefficient of correlation, defined by its square and its sign. */
  predicate Pearson(r: real, s: Sums) {
    && Mul(Square(r), Mul(s.Vx(), s.Vy())) == Square(s.Num())
    && (r > 0.0 <==> s.Num() > 0.0)
  }

  lemma RatioSign(num: real, root: real, r: real)
    requires root > 0.0 && Mul(r, root) == num
    ensures r > 0.0 <==> num > 0.0
  {
    if r > 0.0 {
      MulPositive(r, root);
    } else {
      MulSign(root, -r);
      assert Mul(root, -r) == -num;
    }
  }

  method TrendSums(xs: seq<real>, ys: seq<real>) returns (s: Sums)
    requires |xs| == |ys|
    ensures s == SumsOf(Pairs(xs, ys))
  {
    var sx, sy, sxx, syy, sxy := 0.0, 0.0, 0.0, 0.0, 0.0;
    ghost var ps := Pairs(xs, ys);
    for i := 0 to |xs|
      invariant SumsOf(ps[..i]) == Sums(i as real, sx, sy, sxx, syy, sxy)
    {
      assert ps[..i + 1] == ps[..i] + [Point(xs[i], ys[i])];
      SumsSnoc(ps[..i], Point(xs[i], ys[i]));
      sx := sx + xs[i];
      sy := sy + ys[i];
      sxx := sxx + xs[i] * xs[i];
      syy := syy + ys[i] * ys[i];
      sxy := sxy + xs[i] * ys[i];
    }
    assert ps[..|xs|] == ps;
    s := Sums(|xs| as real, sx, sy, sxx, syy, sxy);
  }

  lemma TrendCorrelation(ps: seq<Point>, s: Sums, l: Line, root: real, r: real)
    requires ps != [] && s == SumsOf(ps) && s.Vx() > 0.0 && s.Vy() > 0.0
    requires Normal(s, l) && Least(l, ps) && l.b * s.Vx() == s.Num()
    requires root > 0.0 && Mul(root, root) == Mul(s.Vx(), s.Vy()) && Mul(r, root) == s.Num()
    ensures -1.0 <= r <= 1.0 && Pearson(r, s)
    ensures Square(r) == 1.0 <==> Aligned(ps)
  {
    FittedBound(ps, s, l);
    MulPositive(s.Vx(), s.Vy());
    CorrelationBounds(s.Num(), Mul(s.Vx(), s.Vy()), root, r);
    SquareOfRatio(r, root, s.Num(), Mul(s.Vx(), s.Vy()));
    RatioSign(s.Num(), root, r);
    AlignedIsFitted(ps, l);
  }

  lemma CorrelationBounds(num: real, product: real, root: real, r: real)
    requires product > 0.0 && Mul(root, root) == product && Square(num) <= product && Mul(r, root) == num
    ensures -1.0 <= r <= 1.0
    ensures Square(r) == 1.0 <==> Square(num) == product
  {
    SquareOfRatio(r, root, num, product);
    RatioToOne(Square(r), product);
    UnitBounds(r);
  }

  /** A part of a product is at most the whole exactly when it is at most one time it. */
  lemma RatioToOne(q: real, product: real)
    requires product > 0.0
    ensures q <= 1.0 <==> Mul(q, product) <= product
    ensures q == 1.0 <==> Mul(q, product) == product
  {
    assert Mul(q - 1.0, product) == Mul(q, product) - product;
    assert Mul(1.0 - q, product) == product - Mul(q, product);
    if q > 1.0 {
      MulPositive(q - 1.0, product);
    } else if q < 1.0 {
      MulPositive(1.0 - q, product);
    }
  }

  lemma UnitBounds(r: real)
    requires Square(r) <= 1.0
    ensures -1.0 <= r <= 1.0
  {
    assert Mul(r - 1.0, r + 1.0) == Square(r) - 1.0;
    assert Mul(-r - 1.0, 1.0 - r) == Square(r) - 1.0;
    if r > 1.0 {
      MulPositive(r - 1.0, r + 1.0);
    } else if r < -1.0 {
      MulPositive(-r - 1.0, 1.0 - r);
    }
  }

  lemma SquareOfRatio(r: real, root: real, num: real, product: real)
    requires Mul(r, root) == num && Mul(root, root) == product
    ensures Mul(Square(r), product) == Square(num)
  {
    assert (r * r) * (root * root) == (r * root) * (r * root);
  }

  /** If some line passes through all points, the fitted one does. */
  lemma AlignedIsFitted(ps: seq<Point>, l: Line)
    requires Least(l, ps)
    ensures Aligned(ps) <==> Through(l, ps)
  {
    SquaresSign(l, ps);
    if Aligned(ps) {
      var m: Line :| Through(m, ps);
      SquaresSign(m, ps);
    }
  }
}
