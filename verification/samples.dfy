/**
 * The measures of the probe, aggregated by slices of time (internal/probe/probe.go),
 * and the statement that completes a slice already stored (internal/store/probe.go).
 */
module Samples {
  import opened Reals
  import opened Wrappers

  /** The latencies of successful attempts, in milliseconds. */
  datatype Rtt = Rtt(min: real, avg: real, max: real)

  /** The mean change of latency between two successes in a row. */
  datatype Jitter = Jitter(avg: real, pairs: nat)

  datatype Sample = Sample(rounds: nat, failed: nat, rtt: Option<Rtt>, jitter: Option<Jitter>)

  // ---------------------------------------------------- what a sample means

  function Sum(xs: seq<real>): real {
    if xs == [] then 0.0 else Sum(xs[..|xs| - 1]) + xs[|xs| - 1]
  }

  function Lesser(x: real, y: real): real {
    if y < x then y else x
  }

  function Greater(x: real, y: real): real {
    if y > x then y else x
  }

  function Least(xs: seq<real>): real
    requires xs != []
  {
    if |xs| == 1 then xs[0] else Lesser(Least(xs[..|xs| - 1]), xs[|xs| - 1])
  }

  function Greatest(xs: seq<real>): real
    requires xs != []
  {
    if |xs| == 1 then xs[0] else Greater(Greatest(xs[..|xs| - 1]), xs[|xs| - 1])
  }

  function Mean(xs: seq<real>): real
    requires xs != []
  {
    Sum(xs) / |xs| as real
  }

  function JitterOf(changes: seq<real>): Option<Jitter> {
    if changes == [] then None else Some(Jitter(Mean(changes), |changes|))
  }

  /** The sample of some attempts: failures, latencies of the others, changes of latency. */
  function SampleOf(failed: nat, lats: seq<real>, changes: seq<real>): Sample {
    Sample(failed + |lats|, failed,
           if lats == [] then None else Some(Rtt(Least(lats), Mean(lats), Greatest(lats))),
           JitterOf(changes))
  }

  lemma {:induction false} LeastIsLeast(xs: seq<real>)
    requires xs != []
    ensures Least(xs) in xs && forall x | x in xs :: Least(xs) <= x
  {
    if |xs| > 1 {
      var front := xs[..|xs| - 1];
      LeastIsLeast(front);
      assert xs == front + [xs[|xs| - 1]];
    }
  }

  lemma {:induction false} GreatestIsGreatest(xs: seq<real>)
    requires xs != []
    ensures Greatest(xs) in xs && forall x | x in xs :: x <= Greatest(xs)
  {
    if |xs| > 1 {
      var front := xs[..|xs| - 1];
      GreatestIsGreatest(front);
      assert xs == front + [xs[|xs| - 1]];
    }
  }

  /** x added n times. */
  function Times(n: nat, x: real): real {
    if n == 0 then 0.0 else Times(n - 1, x) + x
  }

  lemma {:induction false} TimesIsMul(n: nat, x: real)
    ensures Times(n, x) == Mul(n as real, x)
  {
    if n > 0 {
      TimesIsMul(n - 1, x);
      assert n as real == (n - 1) as real + 1.0;
    }
  }

  lemma {:induction false} SumBounds(xs: seq<real>, lo: real, hi: real)
    requires forall x | x in xs :: lo <= x <= hi
    ensures Times(|xs|, lo) <= Sum(xs) <= Times(|xs|, hi)
  {
    if xs != [] {
      var n := |xs| - 1;
      assert xs == xs[..n] + [xs[n]];
      assert xs[n] in xs && forall x | x in xs[..n] :: x in xs;
      SumBounds(xs[..n], lo, hi);
    }
  }

  lemma QuotientBounds(s: real, n: real, lo: real, hi: real)
    requires n > 0.0 && Mul(n, lo) <= s <= Mul(n, hi)
    ensures lo <= s / n <= hi
  {
    var q := s / n;
    assert Mul(n, q) == s;
    assert Mul(n, lo - q) == Mul(n, lo) - s;
    assert Mul(n, q - hi) == s - Mul(n, hi);
    if q < lo {
      MulPositive(n, lo - q);
    }
    if q > hi {
      MulPositive(n, q - hi);
    }
  }

  /** The mean is between the least and the greatest. */
  lemma MeanBetween(xs: seq<real>)
    requires xs != []
    ensures Least(xs) <= Mean(xs) <= Greatest(xs)
  {
    LeastIsLeast(xs);
    GreatestIsGreatest(xs);
    SumBounds(xs, Least(xs), Greatest(xs));
    TimesIsMul(|xs|, Least(xs));
    TimesIsMul(|xs|, Greatest(xs));
    QuotientBounds(Sum(xs), |xs| as real, Least(xs), Greatest(xs));
  }

  // -------------------------------------------------- completing a stored slice

  /** The weighted mean of two halves. */
  function Weighted(a: real, m: real, b: real, n: real): real
    requires m + n != 0.0
  {
    (a * m + b * n) / (m + n)
  }

  function MergeRtt(a: Sample, b: Sample): Option<Rtt>
    requires a.failed <= a.rounds && b.failed <= b.rounds
  {
    var m, n := (a.rounds - a.failed) as real, (b.rounds - b.failed) as real;
    match (a.rtt, b.rtt)
    case (None, None) => None
    case (Some(x), None) => if m + n == 0.0 then None else Some(Rtt(x.min, Weighted(x.avg, m, 0.0, n), x.max))
    case (None, Some(y)) => if m + n == 0.0 then None else Some(Rtt(y.min, Weighted(0.0, m, y.avg, n), y.max))
    case (Some(x), Some(y)) =>
      if m + n == 0.0 then None
      else Some(Rtt(Lesser(x.min, y.min), Weighted(x.avg, m, y.avg, n), Greater(x.max, y.max)))
  }

  function MergeJitter(a: Option<Jitter>, b: Option<Jitter>): Option<Jitter> {
    if b.None? || b.value.pairs == 0 then a
    else if a.None? then b
    else
      var m, n := a.value.pairs as real, b.value.pairs as real;
      Some(Jitter(Weighted(a.value.avg, m, b.value.avg, n), a.value.pairs + b.value.pairs))
  }

  /** The slice stored as a, once b is saved for the same slice. */
  function Merge(a: Sample, b: Sample): Sample
    requires a.failed <= a.rounds && b.failed <= b.rounds
  {
    Sample(a.rounds + b.rounds, a.failed + b.failed, MergeRtt(a, b), MergeJitter(a.jitter, b.jitter))
  }

  // --------------------------------------------------------- the homomorphism

  lemma {:induction false} SumConcat(xs: seq<real>, ys: seq<real>)
    ensures Sum(xs + ys) == Sum(xs) + Sum(ys)
  {
    if ys == [] {
      assert xs + ys == xs;
    } else {
      assert (xs + ys)[..|xs + ys| - 1] == xs + ys[..|ys| - 1];
      SumConcat(xs, ys[..|ys| - 1]);
    }
  }

  lemma {:induction false} BoundsConcat(xs: seq<real>, ys: seq<real>)
    requires xs != [] && ys != []
    ensures Least(xs + ys) == Lesser(Least(xs), Least(ys))
    ensures Greatest(xs + ys) == Greater(Greatest(xs), Greatest(ys))
  {
    var all := xs + ys;
    assert all[..|all| - 1] == xs + ys[..|ys| - 1] && all[|all| - 1] == ys[|ys| - 1];
    if |ys| == 1 {
      assert xs + ys[..0] == xs;
    } else {
      BoundsConcat(xs, ys[..|ys| - 1]);
    }
  }

  lemma WeightedMeans(s: real, m: real, t: real, n: real)
    requires m > 0.0 && n > 0.0
    ensures Weighted(s / m, m, t / n, n) == (s + t) / (m + n)
  {
    assert s / m * m == s && t / n * n == t;
  }

  /** The mean of all is the mean of the two means, weighted. */
  lemma MeanConcat(xs: seq<real>, ys: seq<real>)
    requires xs != [] && ys != []
    ensures Mean(xs + ys) == Weighted(Mean(xs), |xs| as real, Mean(ys), |ys| as real)
  {
    SumConcat(xs, ys);
    WeightedMeans(Sum(xs), |xs| as real, Sum(ys), |ys| as real);
    assert |xs + ys| as real == |xs| as real + |ys| as real;
  }

  lemma WeightedAlone(a: real, m: real)
    requires m > 0.0
    ensures Weighted(a, m, 0.0, 0.0) == a && Weighted(0.0, 0.0, a, m) == a
  {
    assert a * m / m == a;
  }

  lemma RttConcat(f: nat, xs: seq<real>, g: nat, ys: seq<real>, cs: seq<real>, ds: seq<real>)
    ensures MergeRtt(SampleOf(f, xs, cs), SampleOf(g, ys, ds)) == SampleOf(f + g, xs + ys, cs + ds).rtt
  {
    if xs == [] || ys == [] {
      assert xs == [] ==> xs + ys == ys;
      assert ys == [] ==> xs + ys == xs;
      if xs != [] {
        WeightedAlone(Mean(xs), |xs| as real);
      }
      if ys != [] {
        WeightedAlone(Mean(ys), |ys| as real);
      }
    } else {
      BoundsConcat(xs, ys);
      MeanConcat(xs, ys);
    }
  }

  lemma JitterConcat(cs: seq<real>, ds: seq<real>)
    ensures MergeJitter(JitterOf(cs), JitterOf(ds)) == JitterOf(cs + ds)
  {
    if cs == [] {
      assert cs + ds == ds;
    } else if ds == [] {
      assert cs + ds == cs;
    } else {
      MeanConcat(cs, ds);
    }
  }

  /** Saving two halves of a slice one after the other is saving the whole slice at once. */
  lemma MergeIsConcat(f: nat, xs: seq<real>, cs: seq<real>, g: nat, ys: seq<real>, ds: seq<real>)
    ensures Merge(SampleOf(f, xs, cs), SampleOf(g, ys, ds)) == SampleOf(f + g, xs + ys, cs + ds)
  {
    RttConcat(f, xs, g, ys, cs, ds);
    JitterConcat(cs, ds);
  }

  lemma Appended(xs: seq<real>, x: real)
    ensures Sum(xs + [x]) == Sum(xs) + x
    ensures Least(xs + [x]) == if xs == [] then x else Lesser(Least(xs), x)
    ensures Greatest(xs + [x]) == if xs == [] then x else Greater(Greatest(xs), x)
  {
    assert (xs + [x])[..|xs|] == xs;
  }
}
