/** The time spent in each state over a period of the report (internal/webview/rapport.go). */
module Shares {
  import opened Journals
  import opened Wrappers
  import opened Episodes
  import Recorders

  // ------------------------------------------------------------- the queries

  predicate StateUpTo(e: Event, s: int) {
    e.kind == State && e.ts <= s
  }

  /** The last state event, by date then identifier, dated s at most. */
  function LastUpTo(rows: seq<Event>, s: int): Option<Event> {
    if rows == [] then None
    else
      var before, e := LastUpTo(rows[..|rows| - 1], s), rows[|rows| - 1];
      if StateUpTo(e, s) && (before.None? || before.value.ts <= e.ts) then Some(e) else before
  }

  method LastEventBefore(rows: seq<Event>, s: int) returns (last: Option<Event>)
    ensures last == LastUpTo(rows, s - 1)
  {
    last := None;
    for i := 0 to |rows|
      invariant last == LastUpTo(rows[..i], s - 1)
    {
      assert rows[..i + 1][..i] == rows[..i];
      var e := rows[i];
      if e.kind == State && e.ts < s && (last.None? || last.value.ts <= e.ts) {
        last := Some(e);
      }
    }
    assert rows[..|rows|] == rows;
  }

  lemma {:induction false} LastUpToIsGreatest(rows: seq<Event>, s: int)
    requires Table(rows)
    ensures match LastUpTo(rows, s)
            case None => forall e | e in rows :: !StateUpTo(e, s)
            case Some(last) => last in rows && StateUpTo(last, s)
                               && forall e | e in rows && StateUpTo(e, s) :: NotAfter(e, last)
  {
    if rows != [] {
      var front, last := rows[..|rows| - 1], rows[|rows| - 1];
      LastUpToIsGreatest(front, s);
      forall e | e in rows
        ensures e in front || e == last
      {}
      assert last in rows && forall e | e in front :: e in rows && e.id < last.id;
    }
  }

  lemma IdsDiffer(rows: seq<Event>, i: nat, j: nat)
    requires Table(rows) && i < |rows| && j < |rows|
    ensures rows[i].id == rows[j].id <==> i == j
  {
    assert i < j ==> rows[i].id < rows[j].id;
    assert j < i ==> rows[j].id < rows[i].id;
  }

  /** Only one event can be the last. */
  lemma LastUpToIs(rows: seq<Event>, s: int, last: Event)
    requires Table(rows)
    requires last in rows && StateUpTo(last, s)
    requires forall e | e in rows && StateUpTo(e, s) :: NotAfter(e, last)
    ensures LastUpTo(rows, s) == Some(last)
  {
    LastUpToIsGreatest(rows, s);
    var e := LastUpTo(rows, s).value;
    assert NotAfter(e, last) && NotAfter(last, e);
    var i :| 0 <= i < |rows| && rows[i] == e;
    var j :| 0 <= j < |rows| && rows[j] == last;
    IdsDiffer(rows, i, j);
  }

  predicate StateIn(e: Event, lo: int, hi: int) {
    e.kind == State && lo <= e.ts < hi
  }

  function ByDate(s: seq<Event>, e: Event): seq<Event> {
    if s == [] || s[|s| - 1].ts <= e.ts then s + [e] else ByDate(s[..|s| - 1], e) + [s[|s| - 1]]
  }

  /** The state events dated from lo to hi excluded, by date then identifier. */
  function Between(rows: seq<Event>, lo: int, hi: int): seq<Event> {
    if rows == [] then []
    else
      var before, e := Between(rows[..|rows| - 1], lo, hi), rows[|rows| - 1];
      if StateIn(e, lo, hi) then ByDate(before, e) else before
  }

  ghost predicate Ordered(s: seq<Event>) {
    forall i, j :: 0 <= i < j < |s| ==> NotAfter(s[i], s[j])
  }

  lemma {:induction false} ByDateOrdered(s: seq<Event>, e: Event)
    requires Ordered(s) && forall x | x in s :: x.id <= e.id
    ensures Ordered(ByDate(s, e))
    ensures forall x :: x in ByDate(s, e) <==> x in s || x == e
  {
    if s != [] && s[|s| - 1].ts > e.ts {
      var front, last := s[..|s| - 1], s[|s| - 1];
      assert s == front + [last];
      ByDateOrdered(front, e);
      var r := ByDate(front, e);
      forall i | 0 <= i < |r|
        ensures NotAfter(r[i], last)
      {
        assert r[i] in r;
        if r[i] != e {
          var k :| 0 <= k < |front| && front[k] == r[i];
          assert NotAfter(s[k], s[|s| - 1]);
        }
      }
    }
  }

  lemma {:induction false} BetweenOrdered(rows: seq<Event>, lo: int, hi: int)
    requires Table(rows)
    ensures Ordered(Between(rows, lo, hi))
    ensures forall e :: e in Between(rows, lo, hi) <==> e in rows && StateIn(e, lo, hi)
  {
    if rows != [] {
      var front, last := rows[..|rows| - 1], rows[|rows| - 1];
      assert rows == front + [last];
      BetweenOrdered(front, lo, hi);
      if StateIn(last, lo, hi) {
        ByDateOrdered(Between(front, lo, hi), last);
      }
    }
  }

  // ---------------------------------------------------------------- the level

  function LevelOf(last: Option<Event>): Level {
    if last.None? then Good else last.value.level
  }

  /** The level of the line at an instant: that of the last state event, good before any. */
  function LevelAt(rows: seq<Event>): int -> Level {
    t => LevelOf(LastUpTo(rows, Seconds(t)))
  }

  /** What a period that ends at end can see of it: events dated before its last second. */
  function Visible(rows: seq<Event>, end: int): int -> Level {
    t => LevelOf(LastUpTo(rows, if Seconds(t) < Seconds(end) then Seconds(t) else Seconds(end) - 1))
  }

  /** How many instants from a to b excluded have level l. */
  function Measure(f: int -> Level, l: Level, a: int, b: int): nat
    requires a <= b
    decreases b - a
  {
    if a == b then 0 else Measure(f, l, a, b - 1) + if f(b - 1) == l then 1 else 0
  }

  lemma {:induction false} MeasureConstant(f: int -> Level, l: Level, a: int, b: int, k: Level)
    requires a <= b && forall t | a <= t < b :: f(t) == k
    ensures Measure(f, l, a, b) == if k == l then b - a else 0
    decreases b - a
  {
    if a < b {
      MeasureConstant(f, l, a, b - 1, k);
    }
  }

  lemma {:induction false} MeasureSplit(f: int -> Level, l: Level, a: int, m: int, b: int)
    requires a <= m <= b
    ensures Measure(f, l, a, b) == Measure(f, l, a, m) + Measure(f, l, m, b)
    decreases b - m
  {
    if m < b {
      MeasureSplit(f, l, a, m, b - 1);
    }
  }

  lemma {:induction false} MeasureTotal(f: int -> Level, a: int, b: int)
    requires a <= b
    ensures Measure(f, Unknown, a, b) + Measure(f, Good, a, b) + Measure(f, Tolerated, a, b)
            + Measure(f, Warning, a, b) + Measure(f, Critical, a, b) == b - a
    decreases b - a
  {
    if a < b {
      MeasureTotal(f, a, b - 1);
    }
  }

  // --------------------------------------------------------------- the shares

  function Share(shares: map<Level, int>, l: Level): int {
    if l in shares then shares[l] else 0
  }

  function Added(shares: map<Level, int>, l: Level, d: int): map<Level, int> {
    shares[l := Share(shares, l) + d]
  }

  /** The instant of the i-th change, start before the first. */
  function Cut(states: seq<Event>, start: int, i: nat): int
    requires i <= |states|
  {
    if i == 0 then start else states[i - 1].ts * SECOND
  }

  function LevelAfterCut(rows: seq<Event>, states: seq<Event>, start: int, i: nat): Level
    requires i <= |states|
  {
    if i == 0 then LevelOf(LastUpTo(rows, Seconds(start) - 1)) else states[i - 1].level
  }

  lemma OrderedDates(states: seq<Event>, i: nat, k: nat)
    requires Ordered(states) && i <= k < |states|
    ensures states[i].ts <= states[k].ts
  {
    assert i < k ==> NotAfter(states[i], states[k]);
  }

  /** Between two changes the level that can be seen is that of the first. */
  lemma SegmentLevel(rows: seq<Event>, start: int, end: int, i: nat, s: int)
    requires Table(rows) && start % SECOND == 0
    requires var states := Between(rows, Seconds(start), Seconds(end));
             && i <= |states|
             && (if i == 0 then Seconds(start) - 1 else states[i - 1].ts) <= s < Seconds(end)
             && (i < |states| ==> s < states[i].ts)
    ensures LevelOf(LastUpTo(rows, s)) ==
              LevelAfterCut(rows, Between(rows, Seconds(start), Seconds(end)), start, i)
  {
    var lo, hi := Seconds(start), Seconds(end);
    var states := Between(rows, lo, hi);
    BetweenOrdered(rows, lo, hi);
    forall e | e in rows && StateUpTo(e, s) && lo <= e.ts
      ensures i > 0 && NotAfter(e, states[i - 1])
    {
      assert e in states;
      var k :| 0 <= k < |states| && states[k] == e;
      if i <= k {
        OrderedDates(states, i, k);
      }
      assert k < i - 1 ==> NotAfter(states[k], states[i - 1]);
    }
    if i == 0 {
      SameLast(rows, lo - 1, s);
    } else {
      assert states[i - 1] in states;
      LastUpToIs(rows, s, states[i - 1]);
    }
  }

  /** Without any state event in between, the last one is the same. */
  lemma {:induction false} SameLast(rows: seq<Event>, r: int, s: int)
    requires r <= s
    requires forall e | e in rows && e.kind == State && e.ts <= s :: e.ts <= r
    ensures LastUpTo(rows, r) == LastUpTo(rows, s)
  {
    if rows != [] {
      assert rows[|rows| - 1] in rows;
      SameLast(rows[..|rows| - 1], r, s);
    }
  }

  /** The share of every level is the time it is seen, from start to end. */
  ghost predicate Measured(shares: map<Level, int>, f: int -> Level, start: int, end: int) {
    start <= end && forall l: Level :: Share(shares, l) == Measure(f, l, start, end)
  }

  lemma MeasuredStep(shares: map<Level, int>, f: int -> Level, start: int, m: int, end: int, k: Level)
    requires Measured(shares, f, start, m) && m <= end
    requires forall t | m <= t < end :: f(t) == k
    ensures Measured(Added(shares, k, end - m), f, start, end)
  {
    forall l: Level
      ensures Share(Added(shares, k, end - m), l) == Measure(f, l, start, end)
    {
      MeasureSplit(f, l, start, m, end);
      MeasureConstant(f, l, m, end, k);
    }
  }

  /** From a change to the next, or to the end of the period, the level is seen not to change. */
  lemma SeenFromCut(rows: seq<Event>, start: int, end: int, i: nat)
    requires Table(rows) && start % SECOND == 0 && start < end
    requires i <= |Between(rows, Seconds(start), Seconds(end))|
    ensures var states := Between(rows, Seconds(start), Seconds(end));
            var next := if i < |states| then states[i].ts * SECOND else end;
            && start <= Cut(states, start, i) <= next <= end
            && forall t | Cut(states, start, i) <= t < next ::
                 Visible(rows, end)(t) == LevelAfterCut(rows, states, start, i)
  {
    var lo, hi := Seconds(start), Seconds(end);
    var states := Between(rows, lo, hi);
    BetweenOrdered(rows, lo, hi);
    if 0 < i {
      assert states[i - 1] in states;
    }
    if i < |states| {
      assert states[i] in states;
      assert 0 < i ==> NotAfter(states[i - 1], states[i]);
    }
    var next := if i < |states| then states[i].ts * SECOND else end;
    forall t | Cut(states, start, i) <= t < next
      ensures Visible(rows, end)(t) == LevelAfterCut(rows, states, start, i)
    {
      SegmentLevel(rows, start, end, i, if Seconds(t) < hi then Seconds(t) else hi - 1);
    }
  }

  /** start is a midnight or the date of a reading: a whole second. */
  method StateShares(rows: seq<Event>, start: int, end: int) returns (shares: map<Level, int>)
    requires Table(rows) && start % SECOND == 0 && start < end
    ensures Measured(shares, Visible(rows, end), start, end)
  {
    shares := map[];
    var before := LastEventBefore(rows, Seconds(start));
    var level := if before.Some? then before.value.level else Good;
    var states := EventsBetween(rows, Seconds(start), Seconds(end));
    var cursor := start;
    for i := 0 to |states|
      invariant cursor == Cut(states, start, i) && level == LevelAfterCut(rows, states, start, i)
      invariant Measured(shares, Visible(rows, end), start, cursor)
    {
      SeenFromCut(rows, start, end, i);
      MeasuredStep(shares, Visible(rows, end), start, cursor, states[i].ts * SECOND, level);
      shares := Added(shares, level, states[i].ts * SECOND - cursor);
      level, cursor := states[i].level, states[i].ts * SECOND;
    }
    SeenFromCut(rows, start, end, |states|);
    MeasuredStep(shares, Visible(rows, end), start, cursor, end, level);
    shares := Added(shares, level, end - cursor);
  }

  method EventsBetween(rows: seq<Event>, lo: int, hi: int) returns (states: seq<Event>)
    ensures states == Between(rows, lo, hi)
  {
    states := [];
    for i := 0 to |rows|
      invariant states == Between(rows[..i], lo, hi)
    {
      assert rows[..i + 1][..i] == rows[..i];
      if StateIn(rows[i], lo, hi) {
        states := ByDate(states, rows[i]);
      }
    }
    assert rows[..|rows|] == rows;
  }

  // ------------------------------------------------------ against the real time

  lemma {:induction false} MeasureSame(f: int -> Level, g: int -> Level, l: Level, a: int, b: int)
    requires a <= b && forall t | a <= t < b :: f(t) == g(t)
    ensures Measure(f, l, a, b) == Measure(g, l, a, b)
    decreases b - a
  {
    if a < b {
      MeasureSame(f, g, l, a, b - 1);
    }
  }

  /** Two levels constant at the end of a period and equal before are measured the same only if they are equal. */
  lemma MeasureDiffers(f: int -> Level, g: int -> Level, a: int, m: int, b: int, j: Level, k: Level)
    requires a <= m <= b && forall t | a <= t < m :: f(t) == g(t)
    requires (forall t | m <= t < b :: f(t) == j) && (forall t | m <= t < b :: g(t) == k)
    ensures (forall l: Level :: Measure(f, l, a, b) == Measure(g, l, a, b)) <==> m == b || j == k
  {
    if m == b || j == k {
      forall l: Level
        ensures Measure(f, l, a, b) == Measure(g, l, a, b)
      {
        MeasureGap(f, g, a, m, b, j, k, l);
      }
    } else {
      MeasureGap(f, g, a, m, b, j, k, j);
    }
  }

  lemma MeasureGap(f: int -> Level, g: int -> Level, a: int, m: int, b: int, j: Level, k: Level, l: Level)
    requires a <= m <= b && forall t | a <= t < m :: f(t) == g(t)
    requires (forall t | m <= t < b :: f(t) == j) && (forall t | m <= t < b :: g(t) == k)
    ensures Measure(f, l, a, b) - Measure(g, l, a, b) == (if j == l then b - m else 0) - if k == l then b - m else 0
  {
    MeasureSplit(f, l, a, m, b);
    MeasureSplit(g, l, a, m, b);
    MeasureSame(f, g, l, a, m);
    MeasureConstant(f, l, m, b, j);
    MeasureConstant(g, l, m, b, k);
  }

  /**
   * What is seen is what was, for every level, if and only if the period ends
   * on a whole second, or the state did not change during its last one.
   */
  lemma SharesAreTime(rows: seq<Event>, start: int, end: int)
    requires start % SECOND == 0 && start < end
    ensures (forall l: Level :: Measure(Visible(rows, end), l, start, end) == Measure(LevelAt(rows), l, start, end))
            <==> end % SECOND == 0
                 || LevelOf(LastUpTo(rows, Seconds(end))) == LevelOf(LastUpTo(rows, Seconds(end) - 1))
  {
    var hi := Seconds(end);
    MeasureDiffers(Visible(rows, end), LevelAt(rows), start, hi * SECOND, end,
                   LevelOf(LastUpTo(rows, hi - 1)), LevelOf(LastUpTo(rows, hi)));
  }

  /** A line that turns critical at second 10, in a period that ends just after: the report misses it. */
  const TURNS_CRITICAL := [Event(1, 10, State, Critical)]

  const JUST_AFTER: int := 10 * SECOND + 1

  lemma CriticalSinceTen(s: int)
    ensures LevelOf(LastUpTo(TURNS_CRITICAL, s)) == if s < 10 then Good else Critical
  {
    assert TURNS_CRITICAL[..0] == [];
  }

  lemma LastSecondMissed()
    ensures Measure(Visible(TURNS_CRITICAL, JUST_AFTER), Critical, 0, JUST_AFTER) == 0
    ensures Measure(LevelAt(TURNS_CRITICAL), Critical, 0, JUST_AFTER) == 1
  {
    var seen, was := Visible(TURNS_CRITICAL, JUST_AFTER), LevelAt(TURNS_CRITICAL);
    forall t | 0 <= t < JUST_AFTER
      ensures seen(t) == Good && was(t) == if t < 10 * SECOND then Good else Critical
    {
      CriticalSinceTen(if Seconds(t) < 10 then Seconds(t) else 9);
      CriticalSinceTen(Seconds(t));
    }
    MeasureConstant(seen, Critical, 0, JUST_AFTER, Good);
    MeasureSplit(was, Critical, 0, 10 * SECOND, JUST_AFTER);
    MeasureConstant(was, Critical, 0, 10 * SECOND, Good);
    MeasureConstant(was, Critical, 10 * SECOND, JUST_AFTER, Critical);
  }

  // -------------------------------------------------------------- the period

  function Total(shares: map<Level, int>): int {
    Share(shares, Unknown) + Share(shares, Good) + Share(shares, Tolerated) + Share(shares, Warning)
    + Share(shares, Critical)
  }

  /** The report shows three levels. */
  function Shown(shares: map<Level, int>): int {
    Share(shares, Good) + Share(shares, Warning) + Share(shares, Critical)
  }

  datatype Period = Period(shares: map<Level, int>, covered: int)

  /** An instant of the period that has come, since the first reading kept. */
  predicate Reported(t: int, from: int, to: int, now: int, first: Option<int>) {
    from <= t < to && t < now && (first.Some? ==> first.value <= t)
  }

  /** The instants reported are those from start to end excluded. */
  ghost predicate Spans(start: int, end: int, from: int, to: int, now: int, first: Option<int>) {
    start < end && forall t :: start <= t < end <==> Reported(t, from, to, now, first)
  }

  /**
   * A period, cut at the first reading kept and at the present; nothing is
   * covered without a reading. What is covered is what the shares add up to.
   */
  method BuildPeriod(rows: seq<Event>, from: int, to: int, now: int, first: Option<int>, readings: nat)
    returns (p: Period)
    requires Table(rows) && from % SECOND == 0 && (first.Some? ==> first.value % SECOND == 0)
    ensures if readings > 0 && exists t :: Reported(t, from, to, now, first)
            then exists start, end :: Spans(start, end, from, to, now, first)
                                      && p.covered == end - start && Measured(p.shares, Visible(rows, end), start, end)
            else p == Period(map[], 0)
    ensures Total(p.shares) == p.covered
  {
    var start, end := from, to;
    if end > now {
      end := now;
    }
    if first.Some? && start < first.value {
      start := first.value;
    }
    p := Period(map[], 0);
    assert forall t :: start <= t < end <==> Reported(t, from, to, now, first);
    if readings > 0 && end > start {
      assert Reported(start, from, to, now, first) && Spans(start, end, from, to, now, first);
      var shares := StateShares(rows, start, end);
      p := Period(shares, end - start);
      MeasureTotal(Visible(rows, end), start, end);
    }
  }

  lemma {:induction false} LevelsOf(rows: seq<Event>, s: int, levels: set<Level>)
    requires Good in levels && forall e | e in rows && e.kind == State :: e.level in levels
    ensures LevelOf(LastUpTo(rows, s)) in levels
  {
    if rows != [] {
      assert rows[|rows| - 1] in rows;
      LevelsOf(rows[..|rows| - 1], s, levels);
    }
  }

  lemma {:induction false} NeverMeasured(f: int -> Level, l: Level, a: int, b: int)
    requires a <= b && forall t | a <= t < b :: f(t) != l
    ensures Measure(f, l, a, b) == 0
    decreases b - a
  {
    if a < b {
      NeverMeasured(f, l, a, b - 1);
    }
  }

  /** With a journal of three levels the shares shown cover the whole period. */
  lemma ShownCoverPeriod(rows: seq<Event>, start: int, end: int, shares: map<Level, int>)
    requires Measured(shares, Visible(rows, end), start, end)
    requires forall e | e in rows && e.kind == State :: e.level in {Good, Warning, Critical}
    ensures Shown(shares) == end - start
  {
    var f := Visible(rows, end);
    forall t
      ensures f(t) in {Good, Warning, Critical}
    {
      LevelsOf(rows, if Seconds(t) < Seconds(end) then Seconds(t) else Seconds(end) - 1, {Good, Warning, Critical});
    }
    NeverMeasured(f, Unknown, start, end);
    NeverMeasured(f, Tolerated, start, end);
    MeasureTotal(f, start, end);
  }

  lemma {:induction false} OfHolds(rows: seq<Event>, kinds: set<Kind>, e: Event)
    requires e in rows && e.kind in kinds
    ensures MarkOf(e) in Of(rows, kinds)
  {
    if rows[|rows| - 1] != e {
      OfHolds(rows[..|rows| - 1], kinds, e);
    }
  }

  /** So do they for the journal of any run of the recorder. */
  lemma ShownCoverEveryRun(c: Clocks, ops: seq<Op>, start: int, end: int, shares: map<Level, int>)
    requires Timely(c, ops)
    requires Measured(shares, Visible(Run(START, ops).rows, end), start, end)
    ensures Shown(shares) == end - start
  {
    var rows := Run(START, ops).rows;
    EpisodesWellFormed(c, ops);
    var marks := Of(rows, Recorders.STATES);
    forall e | e in rows && e.kind == State
      ensures e.level in {Good, Warning, Critical}
    {
      OfHolds(rows, Recorders.STATES, e);
      var i :| 0 <= i < |marks| && marks[i] == MarkOf(e);
      assert ChangeAt(marks, i);
    }
    ShownCoverPeriod(rows, start, end, shares);
  }
}
