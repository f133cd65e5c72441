/**
 * What the stored measures are, from the instants of the attempts: slices of
 * equal length since the origin of Go's times (internal/probe/probe.go).
 */
module Slices {
  import opened Journals
  import Meters
  import opened Samples
  import opened Wrappers

  /** An attempt at an instant, or the program stopping in order, then starting again. */
  datatype Op = Try(at: int, ok: bool, rtt: nat) | Stop

  /** The k-th slice of this length: the year one starts slice 0. */
  predicate InSlice(at: int, k: int, size: int) {
    -62135596800 * SECOND + k * size <= at < -62135596800 * SECOND + (k + 1) * size
  }

  /** The attempts of a slice, and only they, are put together under its start. */
  lemma BucketIsSlice(at: int, size: int, k: int)
    requires size > 0
    ensures Meters.Bucket(at, size) == -62135596800 * SECOND + k * size <==> InSlice(at, k, size)
  {
    var x := at + 62135596800 * SECOND;
    MulDistribute(k, 1, size);
    if InSlice(at, k, size) {
      DivModUnique(x, k, x - k * size, size);
    }
  }

  lemma SliceOf(at: int, size: int) returns (k: int)
    requires size > 0
    ensures InSlice(at, k, size)
  {
    var x := at + 62135596800 * SECOND;
    k := x / size;
    MulDistribute(k, 1, size);
  }

  lemma SameSlice(at: int, size: int, j: int, k: int)
    requires size > 0 && InSlice(at, j, size) && InSlice(at, k, size)
    ensures j == k
  {
    var x := at + 62135596800 * SECOND;
    MulDistribute(j, 1, size);
    MulDistribute(k, 1, size);
    DivModUnique(x, j, x - j * size, size);
    DivModUnique(x, k, x - k * size, size);
  }

  /** The date of the row of a slice of n seconds. */
  function RowDate(k: int, n: int): int {
    -62135596800 + k * n
  }

  lemma StartInSeconds(k: int, n: int)
    requires n > 0
    ensures -62135596800 * SECOND + k * (n * SECOND) == RowDate(k, n) * SECOND
    ensures Seconds(-62135596800 * SECOND + k * (n * SECOND)) == RowDate(k, n)
  {
    assert k * (n * SECOND) == (k * n) * SECOND;
  }

  /** An attempt is counted in the row of a slice if and only if it was made in it. */
  lemma KeyIsSlice(at: int, n: int, k: int)
    requires n > 0
    ensures Seconds(Meters.Bucket(at, n * SECOND)) == RowDate(k, n) <==> InSlice(at, k, n * SECOND)
  {
    var j := SliceOf(at, n * SECOND);
    BucketIsSlice(at, n * SECOND, j);
    StartInSeconds(j, n);
    if InSlice(at, k, n * SECOND) {
      SameSlice(at, n * SECOND, j, k);
    } else if RowDate(j, n) == RowDate(k, n) {
      SameFactor(j, k, n);
    }
  }

  lemma SameFactor(j: int, k: int, n: int)
    requires n > 0 && j * n == k * n
    ensures j == k
  {
    DivModUnique(j * n, j, 0, n);
    DivModUnique(k * n, k, 0, n);
  }

  // --------------------------------------------- the attempts of a slice, by rank

  predicate Made(ops: seq<Op>, i: int, k: int, size: int) {
    0 <= i < |ops| && ops[i].Try? && InSlice(ops[i].at, k, size)
  }

  function Attempts(ops: seq<Op>, k: int, size: int): set<int> {
    set i | 0 <= i < |ops| && Made(ops, i, k, size)
  }

  function Failures(ops: seq<Op>, k: int, size: int): set<int> {
    set i | 0 <= i < |ops| && Made(ops, i, k, size) && !ops[i].ok
  }

  /** The values f has below n, in order. */
  function Picked<T>(n: nat, f: nat -> Option<T>): seq<T> {
    if n == 0 then [] else Picked(n - 1, f) + (match f(n - 1) case None => [] case Some(x) => [x])
  }

  lemma {:induction false} PickedSame<T>(n: nat, f: nat -> Option<T>, g: nat -> Option<T>)
    requires forall i | 0 <= i < n :: f(i) == g(i)
    ensures Picked(n, f) == Picked(n, g)
  {
    if n > 0 {
      PickedSame(n - 1, f, g);
    }
  }

  function LatencyAt(ops: seq<Op>, k: int, size: int, i: nat): Option<nat> {
    if Made(ops, i, k, size) && ops[i].ok then Some(ops[i].rtt) else None
  }

  /** The change of latency an attempt ends: it and the one just before succeeded, with no stop between. */
  function ChangeAt(ops: seq<Op>, k: int, size: int, i: nat): Option<nat> {
    if i > 0 && Made(ops, i, k, size) && ops[i].ok && ops[i - 1].Try? && ops[i - 1].ok && ops[i - 1].rtt > 0 then
      Some(if ops[i].rtt < ops[i - 1].rtt then ops[i - 1].rtt - ops[i].rtt else ops[i].rtt - ops[i - 1].rtt)
    else None
  }

  function Latencies(ops: seq<Op>, k: int, size: int): seq<nat> {
    Picked(|ops|, i => LatencyAt(ops, k, size, i))
  }

  function Changes(ops: seq<Op>, k: int, size: int): seq<nat> {
    Picked(|ops|, i => ChangeAt(ops, k, size, i))
  }

  // ---------------------------------------------------------- the same by steps

  function Placed(ops: seq<Op>, size: int): (r: seq<Meters.Op>)
    requires size > 0
    ensures |r| == |ops|
  {
    seq(|ops|, i requires 0 <= i < |ops| => PlacedOne(ops[i], size))
  }

  function PlacedOne(op: Op, size: int): Meters.Op
    requires size > 0
  {
    match op
    case Try(at, ok, rtt) => Meters.Op.Try(Meters.Bucket(at, size), ok, rtt)
    case Stop => Meters.Op.Stop
  }

  lemma PlacedFront(ops: seq<Op>, size: int)
    requires size > 0 && ops != []
    ensures Placed(ops, size)[..|ops| - 1] == Placed(ops[..|ops| - 1], size)
    ensures Placed(ops, size)[|ops| - 1] == PlacedOne(ops[|ops| - 1], size)
  {}

  lemma AttemptsStep(ops: seq<Op>, k: int, size: int)
    requires ops != []
    ensures var n := |ops| - 1;
            && |Attempts(ops, k, size)| == |Attempts(ops[..n], k, size)| + (if Made(ops, n, k, size) then 1 else 0)
            && |Failures(ops, k, size)| ==
                 |Failures(ops[..n], k, size)| + (if Made(ops, n, k, size) && !ops[n].ok then 1 else 0)
  {
    var n := |ops| - 1;
    var front := ops[..n];
    assert forall i | 0 <= i < n :: Made(ops, i, k, size) <==> Made(front, i, k, size);
    assert Attempts(ops, k, size) == if Made(ops, n, k, size) then Attempts(front, k, size) + {n} else Attempts(front, k, size);
    assert Failures(ops, k, size) ==
           if Made(ops, n, k, size) && !ops[n].ok then Failures(front, k, size) + {n} else Failures(front, k, size);
  }

  lemma PickedStep(ops: seq<Op>, k: int, size: int)
    requires ops != []
    ensures var n := |ops| - 1;
            && Latencies(ops, k, size) ==
                 Latencies(ops[..n], k, size) + (match LatencyAt(ops, k, size, n) case None => [] case Some(x) => [x])
            && Changes(ops, k, size) ==
                 Changes(ops[..n], k, size) + (match ChangeAt(ops, k, size, n) case None => [] case Some(x) => [x])
  {
    var n := |ops| - 1;
    var front := ops[..n];
    assert forall i | 0 <= i < n :: Made(ops, i, k, size) <==> Made(front, i, k, size);
    PickedSame(n, i => LatencyAt(ops, k, size, i), i => LatencyAt(front, k, size, i));
    PickedSame(n, i => ChangeAt(ops, k, size, i), i => ChangeAt(front, k, size, i));
  }

  /** What was measured just before, zero without a success to compare with. */
  lemma LastIs(ops: seq<Op>, size: int)
    requires size > 0
    ensures Meters.LastRtt(Placed(ops, size)) ==
            if ops != [] && ops[|ops| - 1].Try? && ops[|ops| - 1].ok then ops[|ops| - 1].rtt else 0
  {
    if ops != [] {
      PlacedFront(ops, size);
    }
  }

  lemma ContentStep(ops: seq<Op>, n: int, k: int)
    requires n > 0 && ops != []
    ensures var size, m := n * SECOND, |ops| - 1;
            var before := Meters.ContentIn(Seconds, Placed(ops[..m], size), RowDate(k, n));
            Meters.ContentIn(Seconds, Placed(ops, size), RowDate(k, n)) ==
            if Made(ops, m, k, size)
            then Meters.Attempted(before, ops[m].ok, ops[m].rtt, Meters.LastRtt(Placed(ops[..m], size)))
            else before
  {
    PlacedFront(ops, n * SECOND);
    if ops[|ops| - 1].Try? {
      KeyIsSlice(ops[|ops| - 1].at, n, k);
    }
  }

  /** What a row should hold is what was measured in its slice. */
  lemma {:induction false} ContentIsMeasured(ops: seq<Op>, n: int, k: int)
    requires n > 0
    ensures var size := n * SECOND;
            Meters.ContentIn(Seconds, Placed(ops, size), RowDate(k, n)) ==
            Meters.Content(|Failures(ops, k, size)|, Latencies(ops, k, size), Changes(ops, k, size))
    ensures |Attempts(ops, k, n * SECOND)| == |Failures(ops, k, n * SECOND)| + |Latencies(ops, k, n * SECOND)|
  {
    if ops != [] {
      var m := |ops| - 1;
      ContentIsMeasured(ops[..m], n, k);
      ContentStep(ops, n, k);
      AttemptsStep(ops, k, n * SECOND);
      PickedStep(ops, k, n * SECOND);
      LastIs(ops[..m], n * SECOND);
    }
  }

  // ---------------------------------------------------------------- the rows

  function InMs(xs: seq<nat>): (ms: seq<real>)
    ensures |ms| == |xs| && forall i :: 0 <= i < |xs| ==> ms[i] == (xs[i] / 1000) as real / 1000.0
  {
    seq(|xs|, i requires 0 <= i < |xs| => (xs[i] / 1000) as real / 1000.0)
  }

  /** What a row says of some attempts: how many, how many failed, the latencies and their changes in milliseconds. */
  ghost predicate Describes(r: Sample, attempts: nat, failures: nat, lats: seq<real>, changes: seq<real>) {
    && r.rounds == attempts && r.failed == failures
    && (r.rtt.None? <==> lats == [])
    && (r.rtt.Some? ==>
          && (r.rtt.value.min in lats && forall x | x in lats :: r.rtt.value.min <= x)
          && (r.rtt.value.max in lats && forall x | x in lats :: x <= r.rtt.value.max)
          && r.rtt.value.avg * |lats| as real == Sum(lats))
    && (r.jitter.None? <==> changes == [])
    && (r.jitter.Some? ==> r.jitter.value.pairs == |changes| && r.jitter.value.avg * |changes| as real == Sum(changes))
  }

  lemma SampleDescribes(failed: nat, lats: seq<real>, changes: seq<real>)
    ensures Describes(SampleOf(failed, lats, changes), failed + |lats|, failed, lats, changes)
  {
    if lats != [] {
      LeastIsLeast(lats);
      GreatestIsGreatest(lats);
      assert Mean(lats) * |lats| as real == Sum(lats);
    }
    if changes != [] {
      assert Mean(changes) * |changes| as real == Sum(changes);
    }
  }

  lemma StoppedRuns(ops: seq<Op>, size: int)
    requires size > 0
    ensures Placed(ops + [Stop], size) == Placed(ops, size) + [Meters.Op.Stop]
  {
    var all := ops + [Stop];
    PlacedFront(all, size);
    assert all[..|ops|] == ops && all[|ops|] == Stop;
    assert Placed(all, size) == Placed(all, size)[..|ops|] + [Placed(all, size)[|ops|]];
  }

  /**
   * After an orderly stop, with slices of n seconds, a slice has a row exactly
   * when an attempt was made in it, and the row tells of the attempts made in
   * it, of all of them and of nothing else.
   */
  lemma RowIsSlice(ops: seq<Op>, n: int, rows: map<int, Sample>, k: int)
    requires n > 0 && Meters.Holds(rows, Meters.Run(Seconds, Placed(ops + [Stop], n * SECOND)).stored)
    ensures var size, date := n * SECOND, -62135596800 + k * n;
            && (date in rows <==> exists i :: Made(ops, i, k, size))
            && (date in rows ==>
                  Describes(rows[date], |Attempts(ops, k, size)|, |Failures(ops, k, size)|,
                            InMs(Latencies(ops, k, size)), InMs(Changes(ops, k, size))))
  {
    var size, date := n * SECOND, RowDate(k, n);
    var placed := Placed(ops, size);
    StoppedRuns(ops, size);
    ContentIsMeasured(ops, n, k);
    Meters.RowForEverySlice(Seconds, placed, date);
    Meters.EveryTryCounts(Seconds, placed, date);
    var lats, changes := Latencies(ops, k, size), Changes(ops, k, size);
    assert InMs(lats) == Meters.InMillis(lats) && InMs(changes) == Meters.InMillis(changes);
    SomeAttempt(ops, k, size);
    if date in rows {
      Meters.RowAfterStop(Seconds, placed, rows, date);
      SampleDescribes(|Failures(ops, k, size)|, InMs(lats), InMs(changes));
    }
  }

  lemma SomeAttempt(ops: seq<Op>, k: int, size: int)
    ensures |Attempts(ops, k, size)| > 0 <==> exists i :: Made(ops, i, k, size)
  {
    if i :| Made(ops, i, k, size) {
      assert i in Attempts(ops, k, size);
    }
    if |Attempts(ops, k, size)| > 0 {
      var i :| i in Attempts(ops, k, size);
    }
  }
}
