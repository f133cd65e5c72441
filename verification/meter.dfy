/** How the attempts of the probe become stored slices, across stops of the program (internal/probe/probe.go). */
module Meters {
  import opened Journals
  import opened Samples
  import opened Wrappers

  /** The origin of Go's times, to which slices are aligned. */
  const ZERO_TIME: int := -62135596800 * SECOND

  /** The slice an instant belongs to. */
  function Bucket(t: int, size: int): (b: int)
    requires size > 0
    ensures b <= t < b + size
  {
    t - (t - ZERO_TIME) % size
  }

  /** A latency in milliseconds, to the microsecond below. */
  function Millis(ns: nat): (ms: real)
    ensures ms >= 0.0
  {
    (ns / 1000) as real / 1000.0
  }

  function Distance(a: nat, b: nat): nat {
    if a < b then b - a else a - b
  }

  // ------------------------------------------------------------ one slice

  /** What a sample sums up, in nanoseconds. */
  datatype Content = Content(failed: nat, lats: seq<nat>, changes: seq<nat>)

  function InMillis(xs: seq<nat>): (ms: seq<real>)
    ensures |ms| == |xs|
  {
    seq(|xs|, i requires 0 <= i < |xs| => Millis(xs[i]))
  }

  const NOTHING := Content(0, [], [])

  function Rounds(c: Content): nat {
    c.failed + |c.lats|
  }

  function SampleOfContent(c: Content): Sample {
    SampleOf(c.failed, InMillis(c.lats), InMillis(c.changes))
  }

  function Cat(a: Content, b: Content): Content {
    Content(a.failed + b.failed, a.lats + b.lats, a.changes + b.changes)
  }

  function WithFailure(c: Content): Content {
    c.(failed := c.failed + 1)
  }

  function WithLatency(c: Content, rtt: nat): Content {
    c.(lats := c.lats + [rtt])
  }

  function WithChange(c: Content, d: nat): Content {
    c.(changes := c.changes + [d])
  }

  /** A content and one more attempt, after a success of latency last or, if it is zero, none. */
  function Attempted(c: Content, ok: bool, rtt: nat, last: nat): Content {
    if !ok then WithFailure(c)
    else if last > 0 then WithChange(WithLatency(c, rtt), Distance(last, rtt))
    else WithLatency(c, rtt)
  }

  /** The running figures of some latencies; hi starts at zero. */
  predicate Tallies(lats: seq<real>, n: nat, sum: real, lo: real, hi: real) {
    && n == |lats| && sum == Sum(lats)
    && (if lats == [] then hi == 0.0 else lo == Least(lats) && hi == Greatest(lats) && hi >= 0.0)
  }

  lemma TallyStep(lats: seq<real>, n: nat, sum: real, lo: real, hi: real, ms: real)
    requires Tallies(lats, n, sum, lo, hi) && ms >= 0.0
    ensures Tallies(lats + [ms], n + 1, sum + ms, if n == 0 || ms < lo then ms else lo, if ms > hi then ms else hi)
  {
    Appended(lats, ms);
  }

  class Aggregate {
    var start: Option<int>
    var rounds: nat
    var failed: nat
    var sum: real
    var lo: real
    var hi: real
    var successes: nat
    var jitter: real
    var pairs: nat
    ghost var content: Content

    ghost predicate Valid()
      reads this
    {
      && Counts(rounds)
      && (rounds == 0 ==> content == NOTHING)
      && (rounds > 0 ==> start.Some?)
    }

    /** The fields count the content, of that many rounds. */
    ghost predicate Counts(counted: nat)
      reads this
    {
      && failed == content.failed && counted == Rounds(content)
      && Tallies(InMillis(content.lats), successes, sum, lo, hi)
      && pairs == |content.changes| && jitter == Sum(InMillis(content.changes))
    }

    constructor ()
      ensures Valid() && content == NOTHING && start.None?
    {
      start, rounds, failed, sum, lo, hi, successes, jitter, pairs := None, 0, 0, 0.0, 0.0, 0.0, 0, 0.0, 0;
      content := NOTHING;
    }

    method Clear()
      modifies this
      ensures Valid() && content == NOTHING && start.None?
    {
      start, rounds, failed, sum, lo, hi, successes, jitter, pairs := None, 0, 0, 0.0, 0.0, 0.0, 0, 0.0, 0;
      content := NOTHING;
    }

    method Add(bucket: int, ok: bool, rtt: nat)
      requires Valid()
      modifies this
      ensures Valid() && start == Some(bucket)
      ensures content == if ok then WithLatency(old(content), rtt) else WithFailure(old(content))
    {
      start := Some(bucket);
      rounds := rounds + 1;
      if !ok {
        content := WithFailure(content);
        failed := failed + 1;
        return;
      }
      AddLatency(rtt);
    }

    /** The round of a success has been counted; its latency is still to be. */
    method AddLatency(rtt: nat)
      requires rounds > 0 && start.Some?
      requires Counts(rounds - 1)
      modifies this
      ensures Valid() && start == old(start)
      ensures content == WithLatency(old(content), rtt)
    {
      var ms := Millis(rtt);
      TallyStep(InMillis(content.lats), successes, sum, lo, hi, ms);
      assert InMillis(content.lats + [rtt]) == InMillis(content.lats) + [Millis(rtt)];
      content := WithLatency(content, rtt);
      if successes == 0 || ms < lo {
        lo := ms;
      }
      if ms > hi {
        hi := ms;
      }
      sum := sum + ms;
      successes := successes + 1;
    }

    /** The change of latency between two successes in a row, the last of which was just added. */
    method Pair(a: nat, b: nat)
      requires Valid() && rounds > 0
      modifies this
      ensures Valid() && start == old(start)
      ensures content == WithChange(old(content), Distance(a, b))
    {
      var d := b - a;
      if d < 0 {
        d := -d;
      }
      AddChange(d);
    }

    method AddChange(d: nat)
      requires Valid() && rounds > 0
      modifies this
      ensures Valid() && start == old(start)
      ensures content == WithChange(old(content), d)
    {
      assert InMillis(content.changes + [d]) == InMillis(content.changes) + [Millis(d)];
      Appended(InMillis(content.changes), Millis(d));
      content := WithChange(content, d);
      jitter := jitter + Millis(d);
      pairs := pairs + 1;
    }

    method ToSample() returns (s: Sample)
      requires Valid()
      ensures s == SampleOfContent(content)
    {
      s := Sample(rounds, failed, None, None);
      if successes > 0 {
        s := s.(rtt := Some(Rtt(lo, sum / successes as real, hi)));
      }
      if pairs > 0 {
        s := s.(jitter := Some(Jitter(jitter / pairs as real, pairs)));
      }
    }
  }

  // ------------------------------------------------------------- the stored rows

  function Upsert(rows: map<int, Sample>, k: int, s: Sample): map<int, Sample>
    requires (k in rows ==> rows[k].failed <= rows[k].rounds) && s.failed <= s.rounds
  {
    rows[k := if k in rows then Merge(rows[k], s) else s]
  }

  /** Every row is the sample of the content saved in it so far. */
  ghost predicate Holds(rows: map<int, Sample>, stored: map<int, Content>) {
    rows.Keys == stored.Keys && forall k | k in rows :: rows[k] == SampleOfContent(stored[k])
  }

  function Stored(stored: map<int, Content>, k: int, c: Content): map<int, Content> {
    stored[k := if k in stored then Cat(stored[k], c) else c]
  }

  lemma SampleOfCat(a: Content, b: Content)
    ensures Merge(SampleOfContent(a), SampleOfContent(b)) == SampleOfContent(Cat(a, b))
  {
    assert InMillis(a.lats + b.lats) == InMillis(a.lats) + InMillis(b.lats);
    assert InMillis(a.changes + b.changes) == InMillis(a.changes) + InMillis(b.changes);
    MergeIsConcat(a.failed, InMillis(a.lats), InMillis(a.changes), b.failed, InMillis(b.lats), InMillis(b.changes));
  }

  lemma UpsertHolds(rows: map<int, Sample>, stored: map<int, Content>, k: int, c: Content)
    requires Holds(rows, stored)
    ensures Holds(Upsert(rows, k, SampleOfContent(c)), Stored(stored, k, c))
  {
    if k in rows {
      SampleOfCat(stored[k], c);
    }
  }

  // ------------------------------------------------------------------ the probe

  /** What is stored and what is being measured; last is zero unless the last attempt succeeded. */
  datatype Measures = Measures(stored: map<int, Content>, start: Option<int>, current: Content, last: nat)

  /** The slice measured is stored in its row: rows are found by a date in whole seconds. */
  function Flushed(m: Measures, key: int -> int): Measures {
    if m.start.None? || Rounds(m.current) == 0 then m
    else Measures(Stored(m.stored, key(m.start.value), m.current), None, NOTHING, m.last)
  }

  function Counted(m: Measures, bucket: int, ok: bool, rtt: nat): Measures {
    Measures(m.stored, Some(bucket), Attempted(m.current, ok, rtt, m.last), if ok then rtt else 0)
  }

  /** An attempt in a slice: another slice being measured is stored first. */
  function Measured(m: Measures, key: int -> int, bucket: int, ok: bool, rtt: nat): Measures {
    Counted(if m.start.Some? && m.start.value != bucket then Flushed(m, key) else m, bucket, ok, rtt)
  }

  class Meter {
    const size: int
    const agg: Aggregate
    var last: nat
    var rows: map<int, Sample>
    ghost var stored: map<int, Content>

    ghost predicate Valid()
      reads this, agg
    {
      size > 0 && agg.Valid() && Holds(rows, stored) && (agg.start.Some? ==> agg.rounds > 0)
    }

    ghost function State(): Measures
      reads this, agg
    {
      Measures(stored, agg.start, agg.content, last)
    }

    /** A new program finds the rows as they were left. Slices last five minutes unless the settings say otherwise. */
    constructor (setting: int, rows: map<int, Sample>, ghost stored: map<int, Content>)
      requires Holds(rows, stored)
      ensures Valid() && fresh(agg) && this.rows == rows
      ensures this.size == if setting <= 0 then 300 * SECOND else setting
      ensures State() == Measures(stored, None, NOTHING, 0)
    {
      this.size := if setting <= 0 then 300 * SECOND else setting;
      this.rows, this.stored, last := rows, stored, 0;
      agg := new Aggregate();
    }

    method Flush()
      requires Valid()
      modifies this, agg
      ensures Valid() && State() == Flushed(old(State()), Seconds)
    {
      if agg.rounds == 0 {
        return;
      }
      var s := agg.ToSample();
      UpsertHolds(rows, stored, Seconds(agg.start.value), agg.content);
      rows := Upsert(rows, Seconds(agg.start.value), s);
      stored := Stored(stored, Seconds(agg.start.value), agg.content);
      agg.Clear();
    }

    method Measure(at: int, ok: bool, rtt: nat)
      requires Valid()
      modifies this, agg
      ensures Valid() && State() == Measured(old(State()), Seconds, Bucket(at, size), ok, rtt)
    {
      var bucket := Bucket(at, size);
      if agg.start.Some? && agg.start.value != bucket {
        Flush();
      }
      Count(bucket, ok, rtt);
    }

    /** Adds an attempt to the slice being measured. */
    method Count(bucket: int, ok: bool, rtt: nat)
      requires Valid()
      modifies this, agg
      ensures Valid() && rows == old(rows) && stored == old(stored)
      ensures State() == Counted(old(State()), bucket, ok, rtt)
    {
      agg.Add(bucket, ok, rtt);
      if !ok {
        last := 0;
        return;
      }
      if last > 0 {
        agg.Pair(last, rtt);
      }
      last := rtt;
    }
  }

  // ------------------------------------------------------------------- runs

  /** An attempt in the slice that starts at bucket, or the program stopping in order, then starting again. */
  datatype Op = Try(bucket: int, ok: bool, rtt: nat) | Stop

  const EMPTY := Measures(map[], None, NOTHING, 0)

  function Step(m: Measures, key: int -> int, op: Op): Measures
  {
    match op
    case Try(bucket, ok, rtt) => Measured(m, key, bucket, ok, rtt)
    case Stop => Measures(Flushed(m, key).stored, None, NOTHING, 0)
  }

  function Run(key: int -> int, ops: seq<Op>): Measures
  {
    if ops == [] then EMPTY else Step(Run(key, ops[..|ops| - 1]), key, ops[|ops| - 1])
  }

  /** The latency of the attempt just made, zero if there is none to compare with. */
  function LastRtt(ops: seq<Op>): nat {
    if ops == [] then 0
    else match ops[|ops| - 1]
      case Try(_, ok, rtt) => if ok then rtt else 0
      case Stop => 0
  }

  /** What a slice should hold: its attempts, and the changes of latency they end. */
  function ContentIn(key: int -> int, ops: seq<Op>, k: int): Content
  {
    if ops == [] then NOTHING
    else
      var front := ops[..|ops| - 1];
      var before := ContentIn(key, front, k);
      match ops[|ops| - 1]
      case Stop => before
      case Try(bucket, ok, rtt) =>
        if key(bucket) == k then Attempted(before, ok, rtt, LastRtt(front)) else before
  }

  predicate Steady(m: Measures) {
    if m.start.None? then m.current == NOTHING else Rounds(m.current) > 0
  }

  /** What is known of a slice, stored or being measured. */
  function Total(stored: map<int, Content>, k: int, here: bool, current: Content): Content {
    if k in stored then (if here then Cat(stored[k], current) else stored[k])
    else if here then current else NOTHING
  }

  function TotalIn(m: Measures, key: int -> int, k: int): Content {
    Total(m.stored, k, m.start.Some? && key(m.start.value) == k, m.current)
  }

  /** Storing moves what is measured to its row and loses nothing. */
  lemma FlushKeeps(m: Measures, key: int -> int, k: int)
    requires Steady(m)
    ensures Steady(Flushed(m, key)) && TotalIn(Flushed(m, key), key, k) == TotalIn(m, key, k)
  {}

  lemma CatAttempted(a: Content, b: Content, ok: bool, rtt: nat, last: nat)
    ensures Cat(a, Attempted(b, ok, rtt, last)) == Attempted(Cat(a, b), ok, rtt, last)
  {
    assert a.lats + (b.lats + [rtt]) == a.lats + b.lats + [rtt];
    assert a.changes + (b.changes + [Distance(last, rtt)]) == a.changes + b.changes + [Distance(last, rtt)];
  }

  lemma CatFirstAttempt(a: Content, ok: bool, rtt: nat, last: nat)
    ensures Cat(a, Attempted(NOTHING, ok, rtt, last)) == Attempted(a, ok, rtt, last)
  {
    var d := Distance(last, rtt);
    assert [] + [rtt] == [rtt] && [] + [d] == [d];
    assert a.lats + [] == a.lats && a.changes + [] == a.changes;
  }

  /** Another attempt is added to its slice, and only there. */
  lemma CountKeeps(m: Measures, key: int -> int, bucket: int, ok: bool, rtt: nat, k: int)
    requires Steady(m) && (m.start.Some? ==> m.start.value == bucket)
    ensures var next := Counted(m, bucket, ok, rtt);
            && Steady(next)
            && TotalIn(next, key, k) ==
                 if key(bucket) == k then Attempted(TotalIn(m, key, k), ok, rtt, m.last) else TotalIn(m, key, k)
  {
    if k in m.stored {
      CatAttempted(m.stored[k], m.current, ok, rtt, m.last);
      CatFirstAttempt(m.stored[k], ok, rtt, m.last);
    }
  }

  /**
   * Over any run with orderly stops, what is stored of a slice and what is
   * still being measured of it are, together, the attempts of the slice.
   */
  lemma {:induction false} NothingLost(key: int -> int, ops: seq<Op>, k: int)
    ensures var m := Run(key, ops);
            Steady(m) && m.last == LastRtt(ops) && TotalIn(m, key, k) == ContentIn(key, ops, k)
  {
    if ops != [] {
      var front, op := ops[..|ops| - 1], ops[|ops| - 1];
      var m := Run(key, front);
      NothingLost(key, front, k);
      FlushKeeps(m, key, k);
      if op.Try? {
        var f := if m.start.Some? && m.start.value != op.bucket then Flushed(m, key) else m;
        CountKeeps(f, key, op.bucket, op.ok, op.rtt, k);
      }
    }
  }

  /** How many attempts a slice has had. */
  function Tries(key: int -> int, ops: seq<Op>, k: int): nat
  {
    if ops == [] then 0
    else
      var op := ops[|ops| - 1];
      Tries(key, ops[..|ops| - 1], k) + if op.Try? && key(op.bucket) == k then 1 else 0
  }

  function Failures(key: int -> int, ops: seq<Op>, k: int): nat
  {
    if ops == [] then 0
    else
      var op := ops[|ops| - 1];
      Failures(key, ops[..|ops| - 1], k) + if op.Try? && key(op.bucket) == k && !op.ok then 1 else 0
  }

  lemma {:induction false} EveryTryCounts(key: int -> int, ops: seq<Op>, k: int)
    ensures Rounds(ContentIn(key, ops, k)) == Tries(key, ops, k)
    ensures ContentIn(key, ops, k).failed == Failures(key, ops, k)
  {
    if ops != [] {
      EveryTryCounts(key, ops[..|ops| - 1], k);
    }
  }

  /** An orderly stop leaves nothing that is not stored. */
  lemma StopStores(key: int -> int, ops: seq<Op>, k: int)
    ensures var stored := Run(key, ops + [Stop]).stored;
            ContentIn(key, ops, k) == if k in stored then stored[k] else NOTHING
  {
    assert (ops + [Stop])[..|ops|] == ops;
    NothingLost(key, ops + [Stop], k);
  }

  /**
   * After an orderly stop a row counts every attempt of its slice and every
   * failure, and its latencies are in order.
   */
  lemma RowAfterStop(key: int -> int, ops: seq<Op>, rows: map<int, Sample>, k: int)
    requires Holds(rows, Run(key, ops + [Stop]).stored) && k in rows
    ensures rows[k] == SampleOfContent(ContentIn(key, ops, k))
    ensures rows[k].rounds == Tries(key, ops, k) && rows[k].failed == Failures(key, ops, k)
    ensures rows[k].rtt.Some? ==> rows[k].rtt.value.min <= rows[k].rtt.value.avg <= rows[k].rtt.value.max
  {
    StopStores(key, ops, k);
    EveryTryCounts(key, ops, k);
    SampleInOrder(ContentIn(key, ops, k));
  }

  lemma SampleInOrder(c: Content)
    ensures var rtt := SampleOfContent(c).rtt;
            rtt.Some? ==> rtt.value.min <= rtt.value.avg <= rtt.value.max
  {
    if c.lats != [] {
      MeanBetween(InMillis(c.lats));
    }
  }

  /** And every slice that had an attempt has its row. */
  lemma RowForEverySlice(key: int -> int, ops: seq<Op>, k: int)
    ensures k in Run(key, ops + [Stop]).stored <==> Tries(key, ops, k) > 0
  {
    StopStores(key, ops, k);
    EveryTryCounts(key, ops, k);
    RowsHaveRounds(key, ops + [Stop]);
  }

  lemma {:induction false} RowsHaveRounds(key: int -> int, ops: seq<Op>)
    ensures forall k | k in Run(key, ops).stored :: Rounds(Run(key, ops).stored[k]) > 0
  {
    if ops != [] {
      RowsHaveRounds(key, ops[..|ops| - 1]);
    }
  }
}
