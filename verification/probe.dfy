/** The probe: failed attempts in a row become cuts, short ones or outages (internal/probe/probe.go). */
module Probes {
  import opened Journals
  import Meters
  import opened Wrappers

  const OUTAGE_AFTER: int := 90 * SECOND
  const MICRO_MAX_INTERVAL: int := 30 * SECOND
  const HOUR: int := 3600 * SECOND
  const MICRO_BURST := 5

  /** Where the connection stops. */
  datatype Nature = Line | Local | Internet

  /** An attempt, and what the modem would have told about the cause of a failure then. */
  datatype Attempt = Attempt(at: int, ok: bool, nature: Nature)

  datatype Config = Config(interval: int, threshold: int)

  /** The settings in force: every five seconds, and failures enough to last ninety seconds, three at least. */
  function Normalized(c: Config): (r: Config)
    ensures r.interval > 0 && r.threshold > 0
  {
    var interval := if c.interval <= 0 then 5 * SECOND else c.interval;
    var enough := (OUTAGE_AFTER + interval - 1) / interval;
    Config(interval, if c.threshold > 0 then c.threshold else if enough > 3 then enough else 3)
  }

  /** Short cuts are only told apart when attempts are frequent. */
  predicate Micro(c: Config) {
    c.interval <= MICRO_MAX_INTERVAL
  }

  /** A duration in whole seconds, towards zero. */
  function Whole(d: int): int {
    if d >= 0 then d / SECOND else -(-d / SECOND)
  }

  // ---------------------------------------------------------------- the tables

  datatype Row = Row(id: nat, start: int, end: Option<int>, nature: Nature)

  /** A short cut: between min and max without an answer, from start. */
  datatype MicroCut = MicroCut(start: int, min: int, max: int, nature: Nature)

  /** Its row, in whole seconds. */
  datatype Cut = Cut(min: int, max: int, nature: Nature)

  /** The outages, the short cuts by date, and what goes to the journal. */
  datatype Tables = Tables(outages: seq<Row>, cuts: map<int, Cut>, log: seq<Entry>)

  function LastRow(rows: seq<Row>): nat {
    if rows == [] then 0 else rows[|rows| - 1].id
  }

  function LevelOf(n: Nature): Level {
    if n == Local then Warning else Critical
  }

  function Opened(rows: seq<Row>, start: int, n: Nature): seq<Row> {
    rows + [Row(LastRow(rows) + 1, Seconds(start), None, n)]
  }

  /** Row id ends at end, the others do not change. */
  function Closed(rows: seq<Row>, id: nat, end: int): seq<Row> {
    seq(|rows|, i requires 0 <= i < |rows| =>
      if rows[i].id == id then rows[i].(end := Some(Seconds(end))) else rows[i])
  }

  function CutRow(m: MicroCut): Cut {
    Cut(Whole(m.min), Whole(m.max), m.nature)
  }

  function WithRow(cuts: map<int, Cut>, key: int, row: Cut): map<int, Cut> {
    if key in cuts then cuts else cuts[key := row]
  }

  /** The same cut twice is recorded once: the date is the key. */
  function WithCut(cuts: map<int, Cut>, m: MicroCut): map<int, Cut> {
    WithRow(cuts, Seconds(m.start), CutRow(m))
  }

  /** The cuts that start from lo to hi excluded. */
  function Recent(cuts: map<int, Cut>, lo: int, hi: int): set<int> {
    set k | k in cuts && lo <= k < hi
  }

  /** The date of the last burst in the journal. */
  function LastBurst(log: seq<Entry>): Option<int> {
    if log == [] then None
    else
      var before, e := LastBurst(log[..|log| - 1]), log[|log| - 1];
      if e.kind == MicroBurst && (before.None? || before.value <= Seconds(e.at)) then Some(Seconds(e.at)) else before
  }

  /** A burst is told once an hour at most. */
  function BurstEntry(cuts: map<int, Cut>, log: seq<Entry>, end: int): seq<Entry> {
    var last := LastBurst(log);
    if |Recent(cuts, Seconds(end - HOUR), Seconds(end + SECOND))| < MICRO_BURST
       || (last.Some? && end - last.value * SECOND < HOUR) then []
    else [Entry(end, MicroBurst, Warning)]
  }

  // --------------------------------------------------------------- the watch

  /** The outage being followed. */
  datatype Ongoing = Ongoing(id: nat, start: int, nature: Nature)

  datatype Watch = Watch(
    failures: nat, firstFail: int, lastFail: int, lastOK: Option<int>, nature: Nature, open: Option<Ongoing>)

  const FRESH := Watch(0, 0, 0, None, Internet, None)

  /** The cut that ends at end: its length is known to within an attempt before and one after. */
  function CutOf(c: Config, w: Watch, end: int): MicroCut {
    var before := if w.lastOK.None? || w.lastOK.value > w.firstFail then w.firstFail - c.interval else w.lastOK.value;
    MicroCut(w.firstFail, w.lastFail - w.firstFail, end - before, w.nature)
  }

  function AfterSuccess(c: Config, w: Watch, t: Tables, at: int): Tables {
    if w.open.Some? then
      t.(outages := Closed(t.outages, w.open.value.id, at), log := t.log + [Entry(at, OutageEnd, Good)])
    else if Micro(c) && 2 <= w.failures < c.threshold then
      var cuts := WithCut(t.cuts, CutOf(c, w, at));
      t.(cuts := cuts, log := t.log + BurstEntry(cuts, t.log, at))
    else t
  }

  function Failing(c: Config, w: Watch, a: Attempt): Watch {
    w.(failures := w.failures + 1, lastFail := a.at,
       firstFail := if w.failures == 0 then a.at else w.firstFail,
       nature := if Micro(c) && w.failures == 1 && w.open.None? then a.nature else w.nature)
  }

  datatype Status = Status(w: Watch, t: Tables)

  /** What an attempt does. */
  function Follow(c: Config, s: Status, a: Attempt): Status {
    if a.ok then
      Status(s.w.(failures := 0, lastOK := Some(a.at), open := None), AfterSuccess(c, s.w, s.t, a.at))
    else
      var w := Failing(c, s.w, a);
      if w.failures == c.threshold && w.open.None? then
        Status(w.(open := Some(Ongoing(LastRow(s.t.outages) + 1, w.firstFail, a.nature))),
              s.t.(outages := Opened(s.t.outages, w.firstFail, a.nature),
                   log := s.t.log + [Entry(w.firstFail, Outage, LevelOf(a.nature))]))
      else Status(w, s.t)
  }

  /** The last outage that has not ended. */
  function Current(rows: seq<Row>): Option<Row> {
    if rows == [] then None
    else
      var before, r := Current(rows[..|rows| - 1]), rows[|rows| - 1];
      if r.end.None? && (before.None? || before.value.start <= r.start) then Some(r) else before
  }

  /** When an outage left open is deemed to have ended: at the last measure, or at once. */
  function ResumeEnd(start: int, last: Option<int>, size: int, now: int): int {
    var end := (if last.Some? then last.value * SECOND else Meters.ZERO_TIME) + size;
    if end < start * SECOND || end > now then start * SECOND else end
  }

  function Resumed(t: Tables, last: Option<int>, size: int, now: int): Tables {
    match Current(t.outages)
    case None => t
    case Some(o) =>
      var end := ResumeEnd(o.start, last, size, now);
      t.(outages := Closed(t.outages, o.id, end), log := t.log + [Entry(end, OutageEnd, Unknown)])
  }

  // ------------------------------------------------------------- the program

  class Database {
    var outages: seq<Row>
    var cuts: map<int, Cut>
    var log: seq<Entry>

    function Contents(): Tables
      reads this
    {
      Tables(outages, cuts, log)
    }

    constructor ()
      ensures Contents() == Tables([], map[], [])
    {
      outages, cuts, log := [], map[], [];
    }

    method OpenOutage(nature: Nature, start: int) returns (id: nat)
      modifies this
      ensures id == old(LastRow(outages)) + 1
      ensures Contents() == old(Contents()).(outages := Opened(old(outages), start, nature))
    {
      id := LastRow(outages) + 1;
      outages := outages + [Row(id, Seconds(start), None, nature)];
    }

    method CloseOutage(id: nat, end: int)
      modifies this
      ensures Contents() == old(Contents()).(outages := Closed(old(outages), id, end))
    {
      var out: seq<Row> := [];
      for i := 0 to |outages|
        invariant outages == old(outages) && cuts == old(cuts) && log == old(log)
        invariant out == Closed(outages, id, end)[..i]
      {
        out := out + [if outages[i].id == id then outages[i].(end := Some(Seconds(end))) else outages[i]];
      }
      outages := out;
    }

    method CurrentOutage() returns (o: Option<Row>)
      ensures o == Current(outages)
    {
      o := None;
      for i := 0 to |outages|
        invariant o == Current(outages[..i])
      {
        assert outages[..i + 1][..i] == outages[..i];
        if outages[i].end.None? && (o.None? || o.value.start <= outages[i].start) {
          o := Some(outages[i]);
        }
      }
      assert outages[..|outages|] == outages;
    }

    method SaveMicroCut(m: MicroCut)
      modifies this
      ensures Contents() == old(Contents()).(cuts := WithCut(old(cuts), m))
    {
      var key := Seconds(m.start);
      if key !in cuts {
        cuts := cuts[key := CutRow(m)];
      }
    }

    method SaveEvent(e: Entry)
      modifies this
      ensures Contents() == old(Contents()).(log := old(log) + [e])
    {
      log := log + [e];
    }
  }

  class Prober {
    const c: Config
    const db: Database
    const meter: Meters.Meter
    var failures: nat
    var firstFail: int
    var lastFail: int
    var lastOK: Option<int>
    var microKind: Nature
    var open: Option<Ongoing>

    function Watching(): Watch
      reads this
    {
      Watch(failures, firstFail, lastFail, lastOK, microKind, open)
    }

    constructor (db: Database, c: Config, meter: Meters.Meter)
      ensures this.db == db && this.meter == meter && this.c == Normalized(c) && Watching() == FRESH
    {
      this.db, this.meter, this.c := db, meter, Normalized(c);
      failures, firstFail, lastFail, lastOK, microKind, open := 0, 0, 0, None, Internet, None;
    }

    /** Closes the outage that the last stop of the program left open. */
    method Resume(last: Option<int>, size: int, now: int)
      modifies db
      ensures db.Contents() == Resumed(old(db.Contents()), last, size, now)
    {
      var o := db.CurrentOutage();
      if o.None? {
        return;
      }
      var end := (if last.Some? then last.value * SECOND else Meters.ZERO_TIME) + size;
      if end < o.value.start * SECOND || end > now {
        end := o.value.start * SECOND;
      }
      db.CloseOutage(o.value.id, end);
      db.SaveEvent(Entry(end, OutageEnd, Unknown));
    }

    /** An attempt, and how long it took: its measure, then what it tells of the line. */
    method Round(a: Attempt, rtt: nat)
      requires meter.Valid()
      modifies this, db, meter, meter.agg
      ensures meter.Valid()
      ensures meter.State() ==
                Meters.Measured(old(meter.State()), Seconds, Meters.Bucket(a.at, meter.size), a.ok, rtt)
      ensures Status(Watching(), db.Contents()) == Follow(c, old(Status(Watching(), db.Contents())), a)
    {
      meter.Measure(a.at, a.ok, rtt);
      Conclude(a);
    }

    method Conclude(a: Attempt)
      modifies this, db
      ensures Status(Watching(), db.Contents()) == Follow(c, old(Status(Watching(), db.Contents())), a)
    {
      if a.ok {
        if open.Some? {
          Close(a.at);
        } else if c.interval <= MICRO_MAX_INTERVAL && failures >= 2 && failures < c.threshold {
          RecordMicroCut(a.at);
        }
        failures, lastOK := 0, Some(a.at);
        return;
      }
      failures := failures + 1;
      lastFail := a.at;
      if failures == 1 {
        firstFail := a.at;
      }
      if c.interval <= MICRO_MAX_INTERVAL && failures == 2 && open.None? {
        microKind := a.nature;
      }
      if failures == c.threshold && open.None? {
        var id := db.OpenOutage(a.nature, firstFail);
        open := Some(Ongoing(id, firstFail, a.nature));
        db.SaveEvent(Entry(firstFail, Outage, LevelOf(a.nature)));
      }
    }

    method Close(end: int)
      requires open.Some?
      modifies this`open, db
      ensures open.None?
      ensures db.Contents() == AfterSuccess(c, old(Watching()), old(db.Contents()), end)
    {
      var o := open.value;
      open := None;
      db.CloseOutage(o.id, end);
      db.SaveEvent(Entry(end, OutageEnd, Good));
    }

    method RecordMicroCut(end: int)
      requires open.None? && Micro(c) && 2 <= failures < c.threshold
      modifies db
      ensures db.Contents() == AfterSuccess(c, Watching(), old(db.Contents()), end)
    {
      var before := firstFail - c.interval;
      if lastOK.Some? && lastOK.value <= firstFail {
        before := lastOK.value;
      }
      db.SaveMicroCut(MicroCut(firstFail, lastFail - firstFail, end - before, microKind));
      var recent := Recent(db.cuts, Seconds(end - HOUR), Seconds(end + SECOND));
      var last := LastBurst(db.log);
      if |recent| < MICRO_BURST || (last.Some? && end - last.value * SECOND < HOUR) {
        return;
      }
      db.SaveEvent(Entry(end, MicroBurst, Warning));
    }
  }
}
