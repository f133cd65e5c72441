/** The events that a reading gives, compared with the previous one (internal/events/detect.go). */
module Detection {
  import opened Counters
  import opened Journals
  import opened Wrappers

  const RESTART_MIN_OVERLAP := 3

  // ---------------------------------------------------- a restarted modem

  /** Some counter of the channel went down and none went up. */
  predicate Falls(p: Channel, c: Channel) {
    (c.corr < p.corr || c.noncorr < p.noncorr) && !(c.corr > p.corr || c.noncorr > p.noncorr)
  }

  function Comparable(before: map<int, Channel>, cur: Reading): nat {
    if cur == [] then 0
    else Comparable(before, cur[..|cur| - 1]) + if cur[|cur| - 1].id in before then 1 else 0
  }

  function Declining(before: map<int, Channel>, cur: Reading): nat {
    if cur == [] then 0
    else
      var c := cur[|cur| - 1];
      Declining(before, cur[..|cur| - 1]) + if c.id in before && Falls(before[c.id], c) then 1 else 0
  }

  /** The counters fell on four fifths of the channels of both readings, three at least. */
  predicate RestartSeen(prev: Reading, cur: Reading) {
    var comparable, declining := Comparable(Values(prev), cur), Declining(Values(prev), cur);
    comparable >= RESTART_MIN_OVERLAP && declining as real >= 0.8 * comparable as real
  }

  method DetectRestart(prev: Reading, cur: Reading) returns (seen: bool)
    ensures seen <==> RestartSeen(prev, cur)
  {
    var before: map<int, Channel> := map[];
    for i := 0 to |prev|
      invariant before == Values(prev[..i])
    {
      assert prev[..i + 1][..i] == prev[..i];
      before := before[prev[i].id := prev[i]];
    }
    assert prev[..|prev|] == prev;
    var comparable, declining := 0, 0;
    for i := 0 to |cur|
      invariant comparable == Comparable(before, cur[..i])
      invariant declining == Declining(before, cur[..i])
    {
      assert cur[..i + 1][..i] == cur[..i];
      var c := cur[i];
      if c.id in before {
        var p := before[c.id];
        comparable := comparable + 1;
        var down := c.corr < p.corr || c.noncorr < p.noncorr;
        var up := c.corr > p.corr || c.noncorr > p.noncorr;
        if down && !up {
          declining := declining + 1;
        }
      }
    }
    assert cur[..|cur|] == cur;
    return comparable >= RESTART_MIN_OVERLAP && declining as real >= 0.8 * comparable as real;
  }

  lemma {:induction false} DecliningWithin(before: map<int, Channel>, cur: Reading)
    ensures Declining(before, cur) <= Comparable(before, cur)
    ensures (forall c | c in cur && c.id in before :: Falls(before[c.id], c)) ==>
              Declining(before, cur) == Comparable(before, cur)
    ensures (forall c | c in cur && c.id in before :: !Falls(before[c.id], c)) ==> Declining(before, cur) == 0
  {
    if cur != [] {
      var front := cur[..|cur| - 1];
      DecliningWithin(before, front);
      assert cur == front + [cur[|cur| - 1]];
    }
  }

  /**
   * A modem all of whose counters fell is seen to have restarted, if three of
   * its channels can be compared; one none of whose counters fell never is.
   */
  lemma RestartMeaning(prev: Reading, cur: Reading)
    ensures (forall c | c in cur && c.id in Values(prev) :: Falls(Values(prev)[c.id], c)) ==>
              (RestartSeen(prev, cur) <==> Comparable(Values(prev), cur) >= 3)
    ensures (forall c | c in cur && c.id in Values(prev) :: !Falls(Values(prev)[c.id], c)) ==>
              !RestartSeen(prev, cur)
    ensures RestartSeen(prev, cur) ==> Declining(Values(prev), cur) >= 3
  {
    DecliningWithin(Values(prev), cur);
  }

  // ---------------------------------------------------------- the line state

  datatype Verdict = Verdict(qualified: bool, level: Level)

  /** A tolerated channel is no alert: the journal knows three states. */
  function Alert(l: Level): Level {
    if l == Tolerated then Good else l
  }

  function LevelAfter(last: Option<Event>): Level {
    if last.None? then Good else Alert(last.value.level)
  }

  /** Whether the verdict says in which state the line is. */
  predicate Decides(v: Verdict) {
    v.qualified && Alert(v.level) != Unknown
  }

  function StateChange(v: Verdict, last: Option<Event>): Option<Level> {
    if !Decides(v) || Alert(v.level) == LevelAfter(last) then None else Some(Alert(v.level))
  }

  // ------------------------------------------------------------- the reading

  /** What else two readings may differ in: channels, modulations, power. */
  datatype Change = Lost | Back | Lower | Higher | Jump

  function EntryOf(at: int, c: Change): Entry {
    match c
    case Lost => Entry(at, ChannelsLost, Warning)
    case Back => Entry(at, ChannelsBack, Good)
    case Lower => Entry(at, Modulation, Warning)
    case Higher => Entry(at, Modulation, Good)
    case Jump => Entry(at, Power, Warning)
  }

  datatype Input = Input(
    prev: Option<Reading>, at: int, cur: Reading, verdict: Verdict,
    lastState: Option<Event>, openSpike: bool, calibrated: bool, spike: int, changes: seq<Change>)

  /** Enough errors to be a spike: a thousand unless the profile says otherwise. */
  function SpikeLimit(limit: int): int {
    if limit <= 0 then 1000 else limit
  }

  function SpikeKind(errors: int, limit: int, open: bool): Option<Kind> {
    if errors >= SpikeLimit(limit) then (if open then None else Some(Errors))
    else if open then Some(ErrorsEnd) else None
  }

  function SpikeEntry(at: int, k: Option<Kind>): seq<Entry> {
    match k
    case None => []
    case Some(kind) => [Entry(at, kind, if kind == Errors then Warning else Good)]
  }

  function RestartEntry(at: int, seen: bool): seq<Entry> {
    if seen then [Entry(at, Restart, Warning)] else []
  }

  function StateEntry(at: int, change: Option<Level>): seq<Entry> {
    if change.None? then [] else [Entry(at, State, change.value)]
  }

  function ChangeEntries(at: int, changes: seq<Change>): seq<Entry> {
    seq(|changes|, i requires 0 <= i < |changes| => EntryOf(at, changes[i]))
  }

  function SpikeOf(x: Input): Option<Kind> {
    if x.prev.None? || !x.calibrated then None
    else SpikeKind(Against(Values(x.prev.value), x.cur), x.spike, x.openSpike)
  }

  predicate RestartIn(x: Input) {
    x.prev.Some? && RestartSeen(x.prev.value, x.cur)
  }

  /** The events of a reading, in the order they are recorded. */
  function Detected(x: Input): seq<Entry> {
    RestartEntry(x.at, RestartIn(x))
    + ChangeEntries(x.at, if x.prev.None? then [] else x.changes)
    + SpikeEntry(x.at, SpikeOf(x))
    + StateEntry(x.at, StateChange(x.verdict, x.lastState))
  }

  /** A spike over several readings is one episode: a start, then an end. */
  method DetectSpike(at: int, prev: Reading, cur: Reading, limit: int, open: bool) returns (out: seq<Entry>)
    ensures out == SpikeEntry(at, SpikeKind(Against(Values(prev), cur), limit, open))
  {
    out := [];
    var errors := UncorrectedDelta(prev, cur);
    var spike := errors >= SpikeLimit(limit);
    if spike && !open {
      out := [Entry(at, Errors, Warning)];
    } else if !spike && open {
      out := [Entry(at, ErrorsEnd, Good)];
    }
  }

  method Detect(x: Input) returns (out: seq<Entry>)
    ensures out == Detected(x)
  {
    out := [];
    if x.prev.Some? {
      var restarted := DetectRestart(x.prev.value, x.cur);
      if restarted {
        out := out + [Entry(x.at, Restart, Warning)];
      }
      out := out + ChangeEntries(x.at, x.changes);
      if x.calibrated {
        var spike := DetectSpike(x.at, x.prev.value, x.cur, x.spike, x.openSpike);
        out := out + spike;
      }
    }
    assert out == RestartEntry(x.at, RestartIn(x)) + ChangeEntries(x.at, if x.prev.None? then [] else x.changes)
                  + SpikeEntry(x.at, SpikeOf(x));
    var change := StateChange(x.verdict, x.lastState);
    if change.Some? {
      out := out + [Entry(x.at, State, change.value)];
    }
  }
}
