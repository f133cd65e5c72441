/**
 * What the collection writes in the journal after each reading
 * (internal/events/recorder.go) and the restarts asked of the modem
 * (internal/service/restart.go). The journal is the only memory between two
 * readings, but for the failures counted since the last one.
 */
module Recorders {
  import opened Counters
  import opened Detection
  import opened Journals
  import opened Wrappers

  const MINUTE: int := 60 * SECOND
  const RESTART_WINDOW: int := 10 * MINUTE
  const RESTART_FOLLOW: int := 60 * MINUTE
  const RESTART_GUARD: int := 10 * MINUTE
  const UPTIME_SLACK: int := MINUTE
  const FAILURES_BEFORE_ALERT := 2

  const STATES: set<Kind> := {State}
  const SPIKES: set<Kind> := {Errors, ErrorsEnd}
  const OUTAGES: set<Kind> := {ModemDown, ModemUp}
  const RESTARTS: set<Kind> := {Restart, RestartMissed}
  const ASKS: set<Kind> := {RestartAsked}

  // ------------------------------------------------- settling a restart asked

  /** A reading may conclude an accepted request of the last hour, unless a later event did. */
  predicate MayConclude(ask: Option<Event>, last: Option<Event>, at: int) {
    && ask.Some?
    && ask.value.level == Good
    && 0 < at - ask.value.ts * SECOND <= RESTART_FOLLOW
    && !(last.Some? && last.value.ts > ask.value.ts)
  }

  /** Confirmed by the counters or by the uptime, denied by the uptime, or not concluded. */
  function Conclusion(counted: bool, elapsed: int, up: int): Option<Kind> {
    if counted || (up > 0 && up < elapsed + UPTIME_SLACK) then Some(Restart)
    else if up > 0 && elapsed >= RESTART_WINDOW then Some(RestartMissed)
    else None
  }

  function ConclusionEntry(at: int, k: Kind): Entry {
    Entry(at, k, if k == Restart then Good else Warning)
  }

  /** Where the last restart is in out, -1 when there is none. */
  function LastRestart(out: seq<Entry>): (i: int)
    ensures -1 <= i < |out|
  {
    if out == [] then -1
    else if out[|out| - 1].kind == Restart then |out| - 1
    else LastRestart(out[..|out| - 1])
  }

  /** A confirmed restart replaces the one the counters showed. */
  function Settled(ask: Option<Event>, last: Option<Event>, at: int, up: int, out: seq<Entry>): seq<Entry> {
    if !MayConclude(ask, last, at) then out
    else
      var counted := LastRestart(out);
      match Conclusion(counted >= 0, at - ask.value.ts * SECOND, up)
      case None => out
      case Some(k) => if counted >= 0 then out[counted := ConclusionEntry(at, k)] else out + [ConclusionEntry(at, k)]
  }

  method SettleRestart(db: Journal, at: int, up: int, found: seq<Entry>) returns (out: seq<Entry>)
    ensures out == Settled(Last(db.rows, ASKS), Last(db.rows, RESTARTS), at, up, found)
  {
    out := found;
    var ask := db.LastEvent(ASKS);
    if ask.None? || ask.value.level != Good {
      return;
    }
    var elapsed := at - ask.value.ts * SECOND;
    if elapsed <= 0 || elapsed > RESTART_FOLLOW {
      return;
    }
    var last := db.LastEvent(RESTARTS);
    if last.Some? && last.value.ts > ask.value.ts {
      return;
    }
    var counted := -1;
    for i := 0 to |out|
      invariant out == found && counted == LastRestart(out[..i])
    {
      assert out[..i + 1][..i] == out[..i];
      if out[i].kind == Restart {
        counted := i;
      }
    }
    assert out[..|out|] == out;
    if counted >= 0 || (up > 0 && up < elapsed + UPTIME_SLACK) {
      var e := Entry(at, Restart, Good);
      if counted >= 0 {
        out := out[counted := e];
      } else {
        out := out + [e];
      }
    } else if up > 0 && elapsed >= RESTART_WINDOW {
      out := out + [Entry(at, RestartMissed, Warning)];
    }
  }

  // --------------------------------------------------------------- a reading

  /**
   * A reading: the previous one if there is one, the verdict unless it could
   * not be made, and the uptime of the modem, not positive when unknown.
   */
  datatype Observation = Observation(
    at: int, prev: Option<Reading>, cur: Reading, verdict: Option<Verdict>,
    calibrated: bool, spike: int, changes: seq<Change>, up: int)

  predicate IsLast(last: Option<Event>, kind: Kind) {
    last.Some? && last.value.kind == kind
  }

  function InputOf(rows: seq<Event>, o: Observation): Input
    requires o.verdict.Some?
  {
    Input(o.prev, o.at, o.cur, o.verdict.value, Last(rows, STATES), IsLast(Last(rows, SPIKES), Errors),
      o.calibrated, o.spike, o.changes)
  }

  /** The modem that was down answers again. */
  function UpEntry(rows: seq<Event>, at: int): seq<Entry> {
    if IsLast(Last(rows, OUTAGES), ModemDown) then [Entry(at, ModemUp, Good)] else []
  }

  /** What a reading records. */
  function Batch(rows: seq<Event>, o: Observation): seq<Entry>
    requires o.verdict.Some?
  {
    Settled(Last(rows, ASKS), Last(rows, RESTARTS), o.at, o.up, UpEntry(rows, o.at) + Detected(InputOf(rows, o)))
  }

  function AfterReading(rows: seq<Event>, o: Observation): seq<Event> {
    if o.verdict.None? then rows else Saved(rows, Batch(rows, o))
  }

  /** The rows after the failure that makes `failures` of them since a reading. */
  function AfterFailure(rows: seq<Event>, failures: nat, first: int, auth: bool): seq<Event> {
    if failures != FAILURES_BEFORE_ALERT || IsLast(Last(rows, OUTAGES), ModemDown) then rows
    else Saved(rows, [Entry(first, ModemDown, if auth then Warning else Critical)])
  }

  class Recorder {
    const db: Journal
    var failures: nat
    var firstFailure: int

    constructor (db: Journal)
      ensures this.db == db && failures == 0
    {
      this.db := db;
      failures := 0;
    }

    method Recorded(o: Observation)
      modifies this, db
      ensures failures == 0 && firstFailure == old(firstFailure)
      ensures db.rows == AfterReading(old(db.rows), o)
    {
      failures := 0;
      if o.verdict.None? {
        return;
      }
      var lastState := db.LastEvent(STATES);
      var spike := db.LastEvent(SPIKES);
      var openSpike := spike.Some? && spike.value.kind == Errors;
      var out: seq<Entry> := [];
      var modemLast := db.LastEvent(OUTAGES);
      if modemLast.Some? && modemLast.value.kind == ModemDown {
        out := [Entry(o.at, ModemUp, Good)];
      }
      var detected := Detect(Input(o.prev, o.at, o.cur, o.verdict.value, lastState, openSpike,
                                   o.calibrated, o.spike, o.changes));
      out := out + detected;
      out := SettleRestart(db, o.at, o.up, out);
      db.SaveEvents(out);
    }

    method Failed(now: int, auth: bool)
      modifies this, db
      ensures failures == old(failures) + 1
      ensures firstFailure == if old(failures) == 0 then now else old(firstFailure)
      ensures db.rows == AfterFailure(old(db.rows), failures, firstFailure, auth)
    {
      failures := failures + 1;
      if failures == 1 {
        firstFailure := now;
      }
      if failures != FAILURES_BEFORE_ALERT {
        return;
      }
      var last := db.LastEvent(OUTAGES);
      if last.Some? && last.value.kind == ModemDown {
        return;
      }
      db.SaveEvents([Entry(firstFailure, ModemDown, if auth then Warning else Critical)]);
    }
  }

  // ------------------------------------------------------ asking for a restart

  /** What the driver of the modem answers. */
  datatype Answer = Accepted | NoAnswer | Refused | Unreachable

  datatype Outcome = Asked | AskedNoAnswer | AskRefused | Failed | TooSoon | Unavailable

  /** Whether the request appears in the journal. */
  predicate Noted(o: Outcome) {
    o == Asked || o == AskedNoAnswer || o == AskRefused
  }

  function OutcomeOf(rows: seq<Event>, supported: bool, before: int, answer: Answer): Outcome {
    if !supported then Unavailable
    else if Last(rows, ASKS).Some? && before - Last(rows, ASKS).value.ts * SECOND < RESTART_GUARD then TooSoon
    else match answer
      case Accepted => Asked
      case NoAnswer => AskedNoAnswer
      case Refused => AskRefused
      case Unreachable => Outcome.Failed
  }

  function AfterAsk(rows: seq<Event>, outcome: Outcome, after: int): seq<Event> {
    if !Noted(outcome) then rows
    else Saved(rows, [Entry(after, RestartAsked, if outcome == AskRefused then Warning else Good)])
  }

  /** before and after are the clock before and after the modem was called. */
  method RestartModem(db: Journal, supported: bool, before: int, after: int, answer: Answer) returns (outcome: Outcome)
    modifies db
    ensures outcome == OutcomeOf(old(db.rows), supported, before, answer)
    ensures db.rows == AfterAsk(old(db.rows), outcome, after)
  {
    if !supported {
      return Unavailable;
    }
    var last := db.LastEvent(ASKS);
    if last.Some? && before - last.value.ts * SECOND < RESTART_GUARD {
      return TooSoon;
    }
    var level := Good;
    match answer {
      case Accepted => outcome := Asked;
      case NoAnswer => outcome := AskedNoAnswer;
      case Refused =>
        outcome := AskRefused;
        level := Warning;
      case Unreachable => return Outcome.Failed;
    }
    db.SaveEvents([Entry(after, RestartAsked, level)]);
  }
}
