/**
 * The outages over every run, the program stopping and starting again at any
 * time (internal/probe/probe.go).
 */
module Resumption {
  import opened FailureRuns
  import opened Journals
  import opened Probes
  import opened Wrappers

  /** An attempt, or the program starting again: last is the date of the last slice stored. */
  datatype Op = Try(a: Attempt) | Boot(last: Option<int>, size: int, now: int)

  function Step(c: Config, s: Status, op: Op): Status {
    match op
    case Try(a) => Follow(c, s, a)
    case Boot(last, size, now) => Status(FRESH, Resumed(s.t, last, size, now))
  }

  function At(op: Op): int {
    if op.Try? then op.a.at else op.now
  }

  function Run(c: Config, s: Status, ops: seq<Op>): Status
    decreases |ops|
  {
    if ops == [] then s else Run(c, Step(c, s, ops[0]), ops[1..])
  }

  /** The clock does not go back. */
  predicate OnTime(clock: int, ops: seq<Op>)
    decreases |ops|
  {
    ops == [] || (clock <= At(ops[0]) && OnTime(At(ops[0]), ops[1..]))
  }

  function Clock(clock: int, ops: seq<Op>): int
    decreases |ops|
  {
    if ops == [] then clock else Clock(At(ops[0]), ops[1..])
  }

  // -------------------------------------------------------------- the table

  /** The row of the outage being followed is the last one. */
  predicate Shows(r: Row, o: Ongoing) {
    r.id == o.id && r.start == Seconds(o.start) && r.nature == o.nature && r.end.None?
  }

  predicate Ended(r: Row) {
    r.end.Some? && r.start <= r.end.value
  }

  /**
   * No row is open but that of the outage the program follows, if any; the
   * others end after they start.
   */
  ghost predicate Sound(rows: seq<Row>, open: Option<Ongoing>) {
    && RowTable(rows)
    && (open.Some? ==> rows != [] && Shows(rows[|rows| - 1], open.value))
    && (forall i :: 0 <= i < (if open.Some? then |rows| - 1 else |rows|) ==> Ended(rows[i]))
  }

  lemma SoundOpen(rows: seq<Row>, start: int, n: Nature)
    requires Sound(rows, None)
    ensures Sound(Opened(rows, start, n), Some(Ongoing(LastRow(rows) + 1, start, n)))
  {
    OpenedTable(rows, start, n);
  }

  lemma SoundClose(rows: seq<Row>, o: Ongoing, end: int)
    requires Sound(rows, Some(o)) && Seconds(o.start) <= Seconds(end)
    ensures Sound(Closed(rows, o.id, end), None)
  {
    ClosedLast(rows, end);
  }

  /** The only open row is the one found. */
  lemma {:induction false} CurrentIs(rows: seq<Row>, open: Option<Ongoing>)
    requires Sound(rows, open)
    ensures Current(rows) == if open.Some? then Some(rows[|rows| - 1]) else None
  {
    if rows != [] {
      var front := rows[..|rows| - 1];
      assert open.None? ==> Ended(rows[|rows| - 1]);
      CurrentIs(front, None);
    }
  }

  /** An outage left open is closed between its start and now, or at its start if that is later. */
  lemma ResumeBounds(start: int, last: Option<int>, size: int, now: int)
    ensures var end := ResumeEnd(start, last, size, now);
            start * SECOND <= end && (end <= now || end == start * SECOND) && start <= Seconds(end)
  {}

  // ------------------------------------------------------------ the journal

  /** The outages of the journal: true where one starts, false where one ends. */
  function Signs(log: seq<Entry>): seq<bool> {
    if log == [] then []
    else
      WithSign(Signs(log[..|log| - 1]), log[|log| - 1])
  }

  function WithSign(signs: seq<bool>, e: Entry): seq<bool> {
    if e.kind == Outage then signs + [true] else if e.kind == OutageEnd then signs + [false] else signs
  }

  /** Starts and ends alternate, a start being first, and the last one is a start when an outage is open. */
  predicate Alternate(signs: seq<bool>, open: bool) {
    && (forall i :: 0 <= i < |signs| ==> signs[i] == (i % 2 == 0))
    && (|signs| % 2 == 1 <==> open)
  }

  lemma AlternateAppend(signs: seq<bool>, open: bool)
    requires Alternate(signs, open)
    ensures Alternate(signs + [!open], !open)
  {
    var next := signs + [!open];
    forall i | 0 <= i < |next|
      ensures next[i] == (i % 2 == 0)
    {
      assert i < |signs| ==> next[i] == signs[i];
    }
  }

  lemma SignsAppend(log: seq<Entry>, e: Entry)
    ensures Signs(log + [e]) == WithSign(Signs(log), e)
  {
    assert (log + [e])[..|log|] == log;
  }

  function BurstDates(log: seq<Entry>): seq<int> {
    if log == [] then []
    else
      WithBurst(BurstDates(log[..|log| - 1]), log[|log| - 1])
  }

  function WithBurst(dates: seq<int>, e: Entry): seq<int> {
    if e.kind == MicroBurst then dates + [Seconds(e.at)] else dates
  }

  const HOUR_SECONDS := 3600

  predicate Spaced(dates: seq<int>) {
    forall i, j :: 0 <= i < j < |dates| ==> dates[i] + HOUR_SECONDS <= dates[j]
  }

  lemma BurstsAppend(log: seq<Entry>, e: Entry)
    ensures BurstDates(log + [e]) == WithBurst(BurstDates(log), e)
  {
    assert (log + [e])[..|log|] == log;
  }

  lemma {:induction false} LastBurstIs(log: seq<Entry>)
    requires Spaced(BurstDates(log))
    ensures var dates := BurstDates(log);
            LastBurst(log) == if dates == [] then None else Some(dates[|dates| - 1])
  {
    if log != [] {
      var front := log[..|log| - 1];
      assert BurstDates(front) <= BurstDates(log);
      LastBurstIs(front);
    }
  }

  /** Bursts are told an hour apart, in the seconds of the journal. */
  lemma BurstStep(cuts: map<int, Cut>, log: seq<Entry>, end: int)
    requires Spaced(BurstDates(log))
    ensures var next := log + BurstEntry(cuts, log, end);
            Spaced(BurstDates(next)) && Signs(next) == Signs(log)
  {
    LastBurstIs(log);
    var e := Entry(end, MicroBurst, Warning);
    if BurstEntry(cuts, log, end) == [e] {
      BurstsAppend(log, e);
      SignsAppend(log, e);
      var dates := BurstDates(log);
      assert forall i :: 0 <= i < |dates| - 1 ==> dates[i] <= dates[|dates| - 1];
    } else {
      assert log + [] == log;
    }
  }

  // ----------------------------------------------------------- the invariant

  /** What the journal tells of outages and bursts. */
  predicate Told(log: seq<Entry>, open: bool) {
    Alternate(Signs(log), open) && Spaced(BurstDates(log))
  }

  ghost predicate Kept(s: Status, clock: int) {
    && Sound(s.t.outages, s.w.open)
    && (s.w.failures > 0 ==> s.w.firstFail <= clock)
    && (s.w.open.Some? ==> s.w.failures > 0 && s.w.open.value.start == s.w.firstFail)
    && Told(s.t.log, s.w.open.Some?)
  }

  lemma EndLogged(log: seq<Entry>, at: int, l: Level)
    requires Told(log, true)
    ensures Told(log + [Entry(at, OutageEnd, l)], false)
  {
    SignsAppend(log, Entry(at, OutageEnd, l));
    BurstsAppend(log, Entry(at, OutageEnd, l));
    AlternateAppend(Signs(log), true);
  }

  lemma StartLogged(log: seq<Entry>, at: int, l: Level)
    requires Told(log, false)
    ensures Told(log + [Entry(at, Outage, l)], true)
  {
    SignsAppend(log, Entry(at, Outage, l));
    BurstsAppend(log, Entry(at, Outage, l));
    AlternateAppend(Signs(log), false);
  }

  lemma SuccessKept(c: Config, s: Status, clock: int, a: Attempt)
    requires Kept(s, clock) && a.ok && clock <= a.at
    ensures Kept(Follow(c, s, a), a.at)
  {
    if s.w.open.Some? {
      assert Seconds(s.w.open.value.start) <= Seconds(a.at);
      SoundClose(s.t.outages, s.w.open.value, a.at);
      EndLogged(s.t.log, a.at, Good);
    } else if Short(c, s.w.failures) {
      BurstStep(WithCut(s.t.cuts, CutOf(c, s.w, a.at)), s.t.log, a.at);
    }
  }

  lemma FailureKept(c: Config, s: Status, clock: int, a: Attempt)
    requires Kept(s, clock) && !a.ok && clock <= a.at
    ensures Kept(Follow(c, s, a), a.at)
  {
    var w := Failing(c, s.w, a);
    if w.failures == c.threshold && w.open.None? {
      SoundOpen(s.t.outages, w.firstFail, a.nature);
      StartLogged(s.t.log, w.firstFail, LevelOf(a.nature));
    }
  }

  lemma BootKept(c: Config, s: Status, clock: int, last: Option<int>, size: int, now: int)
    requires Kept(s, clock)
    ensures Kept(Step(c, s, Boot(last, size, now)), now)
  {
    CurrentIs(s.t.outages, s.w.open);
    if s.w.open.Some? {
      var o := s.w.open.value;
      var end := ResumeEnd(Seconds(o.start), last, size, now);
      ResumeBounds(Seconds(o.start), last, size, now);
      SoundClose(s.t.outages, o, end);
      EndLogged(s.t.log, end, Unknown);
    }
  }

  /**
   * In every reachable state at most one outage is open, it is the one the
   * program follows, the others end after they start, and the journal tells
   * their starts and ends in turn. A program that starts again leaves none
   * open.
   */
  lemma {:induction false} RunKept(c: Config, s: Status, clock: int, ops: seq<Op>)
    requires Kept(s, clock) && OnTime(clock, ops)
    ensures Kept(Run(c, s, ops), Clock(clock, ops))
    decreases |ops|
  {
    if ops != [] {
      match ops[0] {
        case Try(a) =>
          if a.ok {
            SuccessKept(c, s, clock, a);
          } else {
            FailureKept(c, s, clock, a);
          }
        case Boot(last, size, now) =>
          BootKept(c, s, clock, last, size, now);
      }
      RunKept(c, Step(c, s, ops[0]), At(ops[0]), ops[1..]);
    }
  }

  /** From empty tables: at most one row is open, the last one; it is that of the outage followed. */
  lemma OneOpenOutage(c: Config, clock: int, ops: seq<Op>, i: nat)
    requires OnTime(clock, ops)
    requires i < |Run(c, Status(FRESH, Tables([], map[], [])), ops).t.outages|
    ensures var s := Run(c, Status(FRESH, Tables([], map[], [])), ops);
            var r := s.t.outages[i];
            if r.end.None? then i == |s.t.outages| - 1 && s.w.open.Some? && Shows(r, s.w.open.value)
            else r.start <= r.end.value
  {
    RunKept(c, Status(FRESH, Tables([], map[], [])), clock, ops);
  }

  lemma LastCloses(rows: seq<Row>, o: Ongoing, end: int)
    requires Sound(rows, Some(o)) && Seconds(o.start) <= Seconds(end)
    ensures var next := Closed(rows, o.id, end);
            && |next| == |rows|
            && (forall i :: 0 <= i < |rows| ==> Ended(next[i]) && (rows[i].end.Some? ==> next[i] == rows[i]))
            && next[|rows| - 1] == rows[|rows| - 1].(end := Some(Seconds(end)))
  {
    ClosedLast(rows, end);
  }

  /**
   * A program that starts with the tables of a run leaves no row open and
   * changes no other. The outage left open ends with the last slice measured,
   * if that is after its start and not to come, at its start otherwise; the
   * journal is told so, of a level unknown.
   */
  lemma BootCloses(c: Config, s: Status, clock: int, last: Option<int>, size: int, now: int)
    requires Kept(s, clock)
    ensures var rows, next := s.t.outages, Step(c, s, Boot(last, size, now)).t;
            && |next.outages| == |rows|
            && next.cuts == s.t.cuts
            && (forall i :: 0 <= i < |rows| ==>
                  Ended(next.outages[i]) && (rows[i].end.Some? ==> next.outages[i] == rows[i]))
            && (s.w.open.None? ==> next == s.t)
            && (s.w.open.Some? ==>
                  var start := rows[|rows| - 1].start;
                  var measured := (if last.Some? then last.value else -62135596800) * SECOND + size;
                  var end := if start * SECOND <= measured <= now then measured else start * SECOND;
                  && next.outages[|rows| - 1] == rows[|rows| - 1].(end := Some(Seconds(end)))
                  && next.log == s.t.log + [Entry(end, OutageEnd, Unknown)])
  {
    CurrentIs(s.t.outages, s.w.open);
    if s.w.open.Some? {
      var rows := s.t.outages;
      var start := rows[|rows| - 1].start;
      var end := ResumeEnd(start, last, size, now);
      ResumeBounds(start, last, size, now);
      ResumeEndIs(start, last, size, now);
      LastCloses(rows, s.w.open.value, end);
      assert Step(c, s, Boot(last, size, now)).t ==
             s.t.(outages := Closed(rows, rows[|rows| - 1].id, end), log := s.t.log + [Entry(end, OutageEnd, Unknown)]);
    }
  }

  lemma ResumeEndIs(start: int, last: Option<int>, size: int, now: int)
    ensures var measured := (if last.Some? then last.value else -62135596800) * SECOND + size;
            ResumeEnd(start, last, size, now) == if start * SECOND <= measured <= now then measured else start * SECOND
  {}
}
