/**
 * What the journal of the line tells, in figures: which readings, failures and
 * answers of the modem are recorded, under which kind and level
 * (internal/events, internal/service/restart.go).
 */
module LineReports {
  import opened Counters
  import opened Detection
  import opened Episodes
  import opened Journals
  import opened Recorders
  import opened Wrappers

  // --------------------------------------------------------- the counters fell

  /** The channels of a reading that the one before has, by rank. */
  function Shared(prev: Reading, cur: Reading): set<int> {
    set i | 0 <= i < |cur| && cur[i].id in Values(prev)
  }

  /** Those with a counter that went down and none that went up. */
  function Fallen(prev: Reading, cur: Reading): set<int> {
    set i | 0 <= i < |cur| && cur[i].id in Values(prev)
            && (cur[i].corr < Values(prev)[cur[i].id].corr || cur[i].noncorr < Values(prev)[cur[i].id].noncorr)
            && cur[i].corr <= Values(prev)[cur[i].id].corr && cur[i].noncorr <= Values(prev)[cur[i].id].noncorr
  }

  lemma SharedStep(prev: Reading, cur: Reading)
    requires cur != []
    ensures var n := |cur| - 1;
            Shared(prev, cur) == Shared(prev, cur[..n]) + if cur[n].id in Values(prev) then {n} else {}
  {}

  lemma FallenStep(prev: Reading, cur: Reading)
    requires cur != []
    ensures var n := |cur| - 1;
            Fallen(prev, cur) ==
            Fallen(prev, cur[..n]) + if cur[n].id in Values(prev) && Falls(Values(prev)[cur[n].id], cur[n]) then {n} else {}
  {}

  lemma SizeWith(s: set<int>, n: int)
    requires n !in s
    ensures |s + {n}| == |s| + 1 && |s + {}| == |s|
  {
    assert s + {} == s;
  }

  lemma {:induction false} Counted(prev: Reading, cur: Reading)
    ensures Comparable(Values(prev), cur) == |Shared(prev, cur)|
    ensures Declining(Values(prev), cur) == |Fallen(prev, cur)|
  {
    if cur != [] {
      var n := |cur| - 1;
      Counted(prev, cur[..n]);
      SharedStep(prev, cur);
      FallenStep(prev, cur);
      SizeWith(Shared(prev, cur[..n]), n);
      SizeWith(Fallen(prev, cur[..n]), n);
    }
  }

  /**
   * A restart is seen when two readings have three channels at least in
   * common, and the counters fell on four fifths of them at least.
   */
  lemma RestartSeenIs(prev: Reading, cur: Reading)
    ensures RestartSeen(prev, cur) <==> |Shared(prev, cur)| >= 3 && 5 * |Fallen(prev, cur)| >= 4 * |Shared(prev, cur)|
  {
    Counted(prev, cur);
  }

  // ------------------------------------------------------- a request concluded

  /** The counters show a restart since the reading before. */
  predicate CountersShow(o: Observation) {
    o.prev.Some?
    && |Shared(o.prev.value, o.cur)| >= 3
    && 5 * |Fallen(o.prev.value, o.cur)| >= 4 * |Shared(o.prev.value, o.cur)|
  }

  /** The last request was accepted within the hour before, and nothing later concluded it. */
  predicate OpenRequest(rows: seq<Event>, at: int) {
    var ask, last := Last(rows, {RestartAsked}), Last(rows, {Restart, RestartMissed});
    && ask.Some? && ask.value.level == Good
    && ask.value.ts * SECOND < at <= (ask.value.ts + 3600) * SECOND
    && (last.Some? ==> last.value.ts <= ask.value.ts)
  }

  /** The modem is known to have started less than a minute before the last request, or after it. */
  predicate StartedSince(rows: seq<Event>, o: Observation)
    requires Last(rows, {RestartAsked}).Some?
  {
    o.up > 0 && o.at - o.up > (Last(rows, {RestartAsked}).value.ts - 60) * SECOND
  }

  /**
   * What a reading tells of restarts. With a request open: a confirmed restart
   * exactly when the counters show it or the modem started since, a missed one
   * exactly when neither holds, the uptime is known and ten minutes have
   * passed, nothing otherwise. Without: a restart seen, as a warning.
   */
  lemma ConclusionMeaning(w: World, o: Observation)
    requires o.verdict.Some?
    ensures Of(Episodes.Step(w, Observe(o)).rows, {Restart, RestartMissed}) ==
            Of(w.rows, {Restart, RestartMissed}) +
              if OpenRequest(w.rows, o.at) && (CountersShow(o) || StartedSince(w.rows, o)) then
                [Mark(Seconds(o.at), Restart, Good)]
              else if OpenRequest(w.rows, o.at) && o.up > 0
                      && o.at >= (Last(w.rows, {RestartAsked}).value.ts + 600) * SECOND then
                [Mark(Seconds(o.at), RestartMissed, Warning)]
              else if CountersShow(o) then [Mark(Seconds(o.at), Restart, Warning)]
              else []
  {
    StepRestarts(w, Observe(o));
    if o.prev.Some? {
      RestartSeenIs(o.prev.value, o.cur);
    }
  }

  // ------------------------------------------------------------- the line state

  /** The state of the line that a level tells: a tolerated channel is no alert. */
  function Told(l: Level): Level {
    match l
    case Tolerated => Good
    case _ => l
  }

  /**
   * A reading that qualifies the line records its level when it is known and
   * differs from the last one recorded, the line being good at first.
   */
  lemma StateMeaning(w: World, o: Observation)
    requires o.verdict.Some?
    ensures var last := Last(w.rows, {State});
            var level, before := Told(o.verdict.value.level), if last.None? then Good else Told(last.value.level);
            Of(Episodes.Step(w, Observe(o)).rows, {State}) ==
            Of(w.rows, {State}) +
              if o.verdict.value.qualified && level != Unknown && level != before
              then [Mark(Seconds(o.at), State, level)] else []
  {
    StepStates(w, Observe(o));
  }

  // ------------------------------------------------------------ error episodes

  /**
   * Under a profile with limits, a reading starts an episode of errors when it
   * counts as many as the limit, a thousand unless set, and none is open; it
   * ends the one open when it counts fewer.
   */
  lemma SpikeMeaning(w: World, o: Observation)
    requires o.verdict.Some?
    ensures var last := Last(w.rows, {Errors, ErrorsEnd});
            var open := last.Some? && last.value.kind == Errors;
            Of(Episodes.Step(w, Observe(o)).rows, {Errors, ErrorsEnd}) ==
            Of(w.rows, {Errors, ErrorsEnd}) +
              if o.prev.None? || !o.calibrated then []
              else
                var many := Against(Values(o.prev.value), o.cur) >= if o.spike <= 0 then 1000 else o.spike;
                if many && !open then [Mark(Seconds(o.at), Errors, Warning)]
                else if !many && open then [Mark(Seconds(o.at), ErrorsEnd, Good)]
                else []
  {
    StepSpikes(w, Observe(o));
  }

  // ------------------------------------------------------ what else has changed

  function ChangeMark(at: int, c: Change): Mark {
    match c
    case Lost => Mark(Seconds(at), ChannelsLost, Warning)
    case Back => Mark(Seconds(at), ChannelsBack, Good)
    case Lower => Mark(Seconds(at), Modulation, Warning)
    case Higher => Mark(Seconds(at), Modulation, Good)
    case Jump => Mark(Seconds(at), Power, Warning)
  }

  function ChangeMarks(at: int, changes: seq<Change>): seq<Mark> {
    if changes == [] then [] else [ChangeMark(at, changes[0])] + ChangeMarks(at, changes[1..])
  }

  lemma {:induction false} MarksOfChanges(at: int, changes: seq<Change>)
    ensures Marks(ChangeEntries(at, changes), CHANGES) == ChangeMarks(at, changes)
  {
    if changes != [] {
      MarksOfChanges(at, changes[1..]);
      assert ChangeEntries(at, changes)[1..] == ChangeEntries(at, changes[1..]);
    }
  }

  /** Each change from the reading before is recorded, worse ones as warnings. */
  lemma ChangeMeaning(w: World, o: Observation)
    requires o.verdict.Some?
    ensures Of(Episodes.Step(w, Observe(o)).rows, {ChannelsLost, ChannelsBack, Modulation, Power}) ==
            Of(w.rows, {ChannelsLost, ChannelsBack, Modulation, Power}) + ChangeMarks(o.at, if o.prev.None? then [] else o.changes)
  {
    StepMarks(w, Observe(o), CHANGES);
    BatchMarks(w.rows, o);
    MarksOfChanges(o.at, if o.prev.None? then [] else o.changes);
  }

  // --------------------------------------------------------- the modem is down

  predicate IsDown(rows: seq<Event>) {
    var last := Last(rows, {ModemDown, ModemUp});
    last.Some? && last.value.kind == ModemDown
  }

  /** A reading tells that the modem is back if it was down. */
  lemma BackMeaning(w: World, o: Observation)
    requires o.verdict.Some?
    ensures Of(Episodes.Step(w, Observe(o)).rows, {ModemDown, ModemUp}) ==
            Of(w.rows, {ModemDown, ModemUp}) + if IsDown(w.rows) then [Mark(Seconds(o.at), ModemUp, Good)] else []
  {
    StepOutages(w, Observe(o));
  }

  /**
   * The second failure in a row, and no other, tells that the modem is down
   * unless it is already, from the date of the first: a warning when it
   * refuses the password, critical otherwise.
   */
  lemma TwoFailures(w: World, first: int, auth: bool, second: int, auth': bool, third: int, auth'': bool)
    requires w.failures == 0
    ensures var one := Episodes.Step(w, Fail(first, auth));
            var two := Episodes.Step(one, Fail(second, auth'));
            var three := Episodes.Step(two, Fail(third, auth''));
            && one.rows == w.rows
            && Of(two.rows, {ModemDown, ModemUp}) ==
               Of(w.rows, {ModemDown, ModemUp})
               + (if IsDown(w.rows) then [] else [Mark(Seconds(first), ModemDown, if auth' then Warning else Critical)])
            && three.rows == two.rows
  {
    var one := Episodes.Step(w, Fail(first, auth));
    StepOutages(one, Fail(second, auth'));
  }

  /** After a reading failures are counted from one again; one that cannot be judged records nothing. */
  lemma ReadingForgetsFailures(w: World, o: Observation)
    ensures Episodes.Step(w, Observe(o)).failures == 0
    ensures o.verdict.None? ==> Episodes.Step(w, Observe(o)).rows == w.rows
  {}

  // ----------------------------------------------------------- restarts asked

  /**
   * A request is recorded when the modem can be asked, none was recorded in
   * the ten minutes before, and the modem was reached: as good if it accepts
   * or gives no answer, as a warning if it refuses. The answer to whoever asks
   * tells these cases apart.
   */
  lemma AskMeaning(w: World, supported: bool, before: int, after: int, answer: Answer)
    ensures var last := Last(w.rows, {RestartAsked});
            var soon := last.Some? && before < (last.value.ts + 600) * SECOND;
            Of(Episodes.Step(w, Ask(supported, before, after, answer)).rows, {RestartAsked}) ==
            Of(w.rows, {RestartAsked}) +
              if !supported || soon || answer == Unreachable then []
              else [Mark(Seconds(after), RestartAsked, if answer == Refused then Warning else Good)]
    ensures var last := Last(w.rows, {RestartAsked});
            var soon := last.Some? && before < (last.value.ts + 600) * SECOND;
            var outcome := OutcomeOf(w.rows, supported, before, answer);
            && (outcome == Unavailable <==> !supported)
            && (outcome == TooSoon <==> supported && soon)
            && (outcome == Asked <==> supported && !soon && answer == Accepted)
            && (outcome == AskedNoAnswer <==> supported && !soon && answer == NoAnswer)
            && (outcome == AskRefused <==> supported && !soon && answer == Refused)
  {
    StepAsks(w, Ask(supported, before, after, answer));
  }
}
