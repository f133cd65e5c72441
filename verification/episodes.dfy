/**
 * Every run of the recorder: readings, failures, restarts of the program,
 * restarts asked of the modem, and what else is written in the journal.
 */
module Episodes {
  import opened Detection
  import opened Journals
  import opened Recorders
  import opened Wrappers

  datatype World = World(rows: seq<Event>, failures: nat, firstFailure: int)

  /** What the other parts of the program write. */
  datatype Other = OutageStarts | OutageEnds | Bursts | Update | NoteAdded

  datatype Op =
    | Observe(o: Observation)
    | Fail(now: int, auth: bool)
    | Reboot
    | Ask(supported: bool, before: int, after: int, answer: Answer)
    | Write(at: int, other: Other, level: Level)
    | Erase(id: nat)

  function KindOf(other: Other): Kind {
    match other
    case OutageStarts => Outage
    case OutageEnds => OutageEnd
    case Bursts => MicroBurst
    case Update => NewVersion
    case NoteAdded => Note
  }

  function Step(w: World, op: Op): World {
    match op
    case Observe(o) => World(AfterReading(w.rows, o), 0, w.firstFailure)
    case Fail(now, auth) =>
      var first := if w.failures == 0 then now else w.firstFailure;
      World(AfterFailure(w.rows, w.failures + 1, first, auth), w.failures + 1, first)
    case Reboot => World(w.rows, 0, 0)
    case Ask(supported, before, after, answer) =>
      w.(rows := AfterAsk(w.rows, OutcomeOf(w.rows, supported, before, answer), after))
    case Write(at, other, level) => w.(rows := Saved(w.rows, [Entry(at, KindOf(other), level)]))
    case Erase(id) => w.(rows := Without(w.rows, OfNote(id)))
  }

  function Run(w: World, ops: seq<Op>): World
    decreases |ops|
  {
    if ops == [] then w else Run(Step(w, ops[0]), ops[1..])
  }

  /** The clocks of the collection and of the requests: neither goes back, they need not agree. */
  datatype Clocks = Clocks(reading: int, asking: int)

  function Tick(c: Clocks, op: Op): Clocks {
    match op
    case Observe(o) => c.(reading := o.at)
    case Fail(now, _) => c.(reading := now)
    case Ask(_, _, after, _) => c.(asking := after)
    case _ => c
  }

  predicate OnTime(c: Clocks, op: Op) {
    match op
    case Observe(o) => c.reading <= o.at
    case Fail(now, _) => c.reading <= now
    case Ask(_, before, after, _) => c.asking <= before <= after
    case _ => true
  }

  predicate Timely(c: Clocks, ops: seq<Op>)
    decreases |ops|
  {
    ops == [] || (OnTime(c, ops[0]) && Timely(Tick(c, ops[0]), ops[1..]))
  }

  function Clock(c: Clocks, ops: seq<Op>): Clocks
    decreases |ops|
  {
    if ops == [] then c else Clock(Tick(c, ops[0]), ops[1..])
  }

  // ------------------------------------------------- what a batch is made of

  /** What settling makes of the restart seen, if any. */
  function Ruling(ask: Option<Event>, last: Option<Event>, at: int, up: int, seen: bool): Option<Kind> {
    if MayConclude(ask, last, at) then Conclusion(seen, at - ask.value.ts * SECOND, up) else None
  }

  function RestartEntries(at: int, seen: bool, ruling: Option<Kind>): seq<Entry> {
    if ruling.Some? then [ConclusionEntry(at, ruling.value)] else RestartEntry(at, seen)
  }

  function RulingOf(rows: seq<Event>, o: Observation): Option<Kind>
    requires o.verdict.Some?
  {
    Ruling(Last(rows, ASKS), Last(rows, RESTARTS), o.at, o.up, RestartIn(InputOf(rows, o)))
  }

  /** Whether a reading concludes the last request. */
  predicate Concludes(rows: seq<Event>, o: Observation) {
    o.verdict.Some? && RulingOf(rows, o).Some?
  }

  /** The restart event of a batch, if any. */
  function RestartPart(rows: seq<Event>, o: Observation): seq<Entry>
    requires o.verdict.Some?
  {
    RestartEntries(o.at, RestartIn(InputOf(rows, o)), RulingOf(rows, o))
  }

  lemma {:induction false} LastRestartOf(a: seq<Entry>, b: seq<Entry>)
    requires forall i :: 0 <= i < |b| ==> b[i].kind != Restart
    ensures LastRestart(a + b) == LastRestart(a)
  {
    if b == [] {
      assert a + b == a;
    } else {
      assert (a + b)[..|a + b| - 1] == a + b[..|b| - 1];
      LastRestartOf(a, b[..|b| - 1]);
    }
  }

  lemma ReplacedAt(front: seq<Entry>, e: Entry, k: Entry, rest: seq<Entry>)
    ensures (front + [e] + rest)[|front| := k] == front + [k] + rest
  {}

  lemma SettledSeen(ask: Option<Event>, last: Option<Event>, at: int, up: int, front: seq<Entry>, rest: seq<Entry>)
    requires forall i :: 0 <= i < |rest| ==> rest[i].kind != Restart
    ensures Settled(ask, last, at, up, front + RestartEntry(at, true) + rest) ==
              front + RestartEntries(at, true, Ruling(ask, last, at, up, true)) + rest
  {
    var e, k := Entry(at, Restart, Warning), ConclusionEntry(at, Restart);
    LastRestartOf(front + [e], rest);
    assert LastRestart(front + [e] + rest) == |front|;
    ReplacedAt(front, e, k, rest);
  }

  lemma SettledUnseen(ask: Option<Event>, last: Option<Event>, at: int, up: int, out: seq<Entry>)
    requires forall i :: 0 <= i < |out| ==> out[i].kind != Restart
    ensures Settled(ask, last, at, up, out) == out + RestartEntries(at, false, Ruling(ask, last, at, up, false))
  {
    assert [] + out == out;
    LastRestartOf([], out);
    Nothing(out);
  }

  /** Settling a batch whose only restart, if any, comes after `front`. */
  lemma SettledShape(ask: Option<Event>, last: Option<Event>, at: int, up: int,
                     front: seq<Entry>, seen: bool, rest: seq<Entry>)
    requires forall i :: 0 <= i < |front| ==> front[i].kind != Restart
    requires forall i :: 0 <= i < |rest| ==> rest[i].kind != Restart
    ensures var part := RestartEntries(at, seen, Ruling(ask, last, at, up, seen));
            Settled(ask, last, at, up, front + RestartEntry(at, seen) + rest) ==
              front + (if seen then part else []) + rest + (if seen then [] else part)
  {
    if seen {
      SettledSeen(ask, last, at, up, front, rest);
      Nothing(front + RestartEntries(at, true, Ruling(ask, last, at, up, true)) + rest);
    } else {
      Nothing(front);
      SettledUnseen(ask, last, at, up, front + rest);
    }
  }

  function SpikePart(rows: seq<Event>, o: Observation): seq<Entry>
    requires o.verdict.Some?
  {
    SpikeEntry(o.at, SpikeOf(InputOf(rows, o)))
  }

  function StatePart(rows: seq<Event>, o: Observation): seq<Entry>
    requires o.verdict.Some?
  {
    StateEntry(o.at, StateChange(o.verdict.value, Last(rows, STATES)))
  }

  function ChangePart(o: Observation): seq<Entry> {
    ChangeEntries(o.at, if o.prev.None? then [] else o.changes)
  }

  function Joined(parts: seq<seq<Entry>>): seq<Entry> {
    if parts == [] then [] else parts[0] + Joined(parts[1..])
  }

  /** The parts of a batch: a restart keeps its place, a conclusion without one comes at the end. */
  function Parts(front: seq<Entry>, seen: bool, part: seq<Entry>, c: seq<Entry>, d: seq<Entry>, e: seq<Entry>)
    : seq<seq<Entry>>
  {
    [front, if seen then part else [], c, d, e, if seen then [] else part]
  }

  function Owners(seen: bool): seq<set<Kind>> {
    [OUTAGES, if seen then RESTARTS else {}, CHANGES, SPIKES, STATES, if seen then {} else RESTARTS]
  }

  lemma JoinedCons(a: seq<Entry>, parts: seq<seq<Entry>>)
    ensures Joined([a] + parts) == a + Joined(parts)
  {
    assert ([a] + parts)[1..] == parts;
  }

  lemma JoinedSix(a: seq<Entry>, b: seq<Entry>, c: seq<Entry>, d: seq<Entry>, e: seq<Entry>, f: seq<Entry>)
    ensures Joined([a, b, c, d, e, f]) == a + b + (c + d + e) + f
  {
    JoinedCons(f, []);
    JoinedCons(e, [f]);
    JoinedCons(d, [e] + [f]);
    JoinedCons(c, [d] + ([e] + [f]));
    JoinedCons(b, [c] + ([d] + ([e] + [f])));
    JoinedCons(a, [b] + ([c] + ([d] + ([e] + [f]))));
    assert [a, b, c, d, e, f] == [a] + ([b] + ([c] + ([d] + ([e] + [f]))));
    assert [f] + [] == [f];
    assert a + (b + (c + (d + (e + (f + []))))) == a + b + (c + d + e) + f;
  }

  lemma Reassociate(a: seq<Entry>, b: seq<Entry>, c: seq<Entry>, d: seq<Entry>, e: seq<Entry>)
    ensures a + (b + c + d + e) == a + b + (c + d + e)
  {}

  lemma BatchShape(rows: seq<Event>, o: Observation)
    requires o.verdict.Some?
    ensures Batch(rows, o) ==
              Joined(Parts(UpEntry(rows, o.at), RestartIn(InputOf(rows, o)), RestartPart(rows, o),
                           ChangePart(o), SpikePart(rows, o), StatePart(rows, o)))
  {
    var front, seen := UpEntry(rows, o.at), RestartIn(InputOf(rows, o));
    var rest := ChangePart(o) + SpikePart(rows, o) + StatePart(rows, o);
    Reassociate(front, RestartEntry(o.at, seen), ChangePart(o), SpikePart(rows, o), StatePart(rows, o));
    SettledShape(Last(rows, ASKS), Last(rows, RESTARTS), o.at, o.up, front, seen, rest);
    var part := RestartPart(rows, o);
    JoinedSix(front, if seen then part else [], ChangePart(o), SpikePart(rows, o), StatePart(rows, o),
              if seen then [] else part);
  }

  const CHANGES: set<Kind> := {ChannelsLost, ChannelsBack, Modulation, Power}

  predicate Only(entries: seq<Entry>, kinds: set<Kind>) {
    forall e | e in entries :: e.kind in kinds
  }

  ghost predicate Owned(parts: seq<seq<Entry>>, owners: seq<set<Kind>>) {
    |parts| == |owners| && forall i :: 0 <= i < |parts| ==> Only(parts[i], owners[i])
  }

  /** No part but the k-th has events of these kinds. */
  ghost predicate Apart(owners: seq<set<Kind>>, kinds: set<Kind>, k: int) {
    forall i :: 0 <= i < |owners| && i != k ==> owners[i] !! kinds
  }

  lemma {:induction false} NoneLeft(parts: seq<seq<Entry>>, owners: seq<set<Kind>>, kinds: set<Kind>)
    requires Owned(parts, owners) && Apart(owners, kinds, -1)
    ensures Marks(Joined(parts), kinds) == []
  {
    if parts != [] {
      assert Only(parts[0], owners[0]) && owners[0] !! kinds;
      NoMarks(parts[0], kinds);
      MarksConcat(parts[0], Joined(parts[1..]), kinds);
      NoneLeft(parts[1..], owners[1..], kinds);
    }
  }

  /** When one part only has events of some kinds, they are the events of that part. */
  lemma {:induction false} MarksOfPart(parts: seq<seq<Entry>>, owners: seq<set<Kind>>, kinds: set<Kind>, k: nat)
    requires k < |parts| && Owned(parts, owners) && Apart(owners, kinds, k)
    ensures Marks(Joined(parts), kinds) == Marks(parts[k], kinds)
  {
    MarksConcat(parts[0], Joined(parts[1..]), kinds);
    if k == 0 {
      NoneLeft(parts[1..], owners[1..], kinds);
    } else {
      assert Only(parts[0], owners[0]) && owners[0] !! kinds;
      NoMarks(parts[0], kinds);
      MarksOfPart(parts[1..], owners[1..], kinds, k - 1);
    }
  }

  lemma OwnersApart(seen: bool)
    ensures Apart(Owners(seen), OUTAGES, 0) && Apart(Owners(seen), RESTARTS, if seen then 1 else 5)
    ensures Apart(Owners(seen), SPIKES, 3) && Apart(Owners(seen), STATES, 4) && Apart(Owners(seen), ASKS, -1)
    ensures Apart(Owners(seen), CHANGES, 2)
  {}

  lemma PartKinds(parts: seq<seq<Entry>>, owners: seq<set<Kind>>, r: nat)
    requires Owned(parts, owners) && |parts| == 6 && r < 6
    requires Apart(owners, OUTAGES, 0) && Apart(owners, RESTARTS, r)
    requires Apart(owners, SPIKES, 3) && Apart(owners, STATES, 4) && Apart(owners, ASKS, -1)
    requires Apart(owners, CHANGES, 2)
    ensures var all := Joined(parts);
            && Marks(all, OUTAGES) == Marks(parts[0], OUTAGES)
            && Marks(all, RESTARTS) == Marks(parts[r], RESTARTS)
            && Marks(all, SPIKES) == Marks(parts[3], SPIKES)
            && Marks(all, STATES) == Marks(parts[4], STATES)
            && Marks(all, ASKS) == []
            && Marks(all, CHANGES) == Marks(parts[2], CHANGES)
  {
    MarksOfPart(parts, owners, OUTAGES, 0);
    MarksOfPart(parts, owners, CHANGES, 2);
    MarksOfPart(parts, owners, RESTARTS, r);
    MarksOfPart(parts, owners, SPIKES, 3);
    MarksOfPart(parts, owners, STATES, 4);
    NoneLeft(parts, owners, ASKS);
  }

  lemma RestartOwned(rows: seq<Event>, o: Observation)
    requires o.verdict.Some?
    ensures Only(RestartPart(rows, o), RESTARTS)
  {}

  lemma PartsOwned(rows: seq<Event>, o: Observation)
    requires o.verdict.Some?
    ensures var seen := RestartIn(InputOf(rows, o));
            Owned(Parts(UpEntry(rows, o.at), seen, RestartPart(rows, o), ChangePart(o), SpikePart(rows, o),
                        StatePart(rows, o)), Owners(seen))
  {
    RestartOwned(rows, o);
    assert Only(UpEntry(rows, o.at), OUTAGES) && Only(ChangePart(o), CHANGES);
    assert Only(SpikePart(rows, o), SPIKES) && Only(StatePart(rows, o), STATES);
    ListOwned(UpEntry(rows, o.at), RestartIn(InputOf(rows, o)), RestartPart(rows, o), ChangePart(o),
              SpikePart(rows, o), StatePart(rows, o));
  }

  lemma ListOwned(a: seq<Entry>, seen: bool, b: seq<Entry>, c: seq<Entry>, d: seq<Entry>, e: seq<Entry>)
    requires Only(a, OUTAGES) && Only(b, RESTARTS) && Only(c, CHANGES) && Only(d, SPIKES) && Only(e, STATES)
    ensures Owned(Parts(a, seen, b, c, d, e), Owners(seen))
  {}

  /** What a reading adds to the events of each kind. */
  lemma BatchMarks(rows: seq<Event>, o: Observation)
    requires o.verdict.Some?
    ensures var batch := Batch(rows, o);
            && Marks(batch, OUTAGES) == Marks(UpEntry(rows, o.at), OUTAGES)
            && Marks(batch, RESTARTS) == Marks(RestartPart(rows, o), RESTARTS)
            && Marks(batch, SPIKES) == Marks(SpikePart(rows, o), SPIKES)
            && Marks(batch, STATES) == Marks(StatePart(rows, o), STATES)
            && Marks(batch, ASKS) == []
            && Marks(batch, CHANGES) == Marks(ChangePart(o), CHANGES)
  {
    BatchShape(rows, o);
    var seen := RestartIn(InputOf(rows, o));
    var parts := Parts(UpEntry(rows, o.at), seen, RestartPart(rows, o), ChangePart(o), SpikePart(rows, o), StatePart(rows, o));
    OwnersApart(seen);
    PartsOwned(rows, o);
    PartKinds(parts, Owners(seen), if seen then 1 else 5);
  }

  // ------------------------------------------------ what a step adds, by kind

  /** The kinds followed here; the other parts of the program never write them. */
  ghost predicate Followed(kinds: set<Kind>) {
    kinds !! {Outage, OutageEnd, MicroBurst, NewVersion, Note}
  }

  /** The entries that a step records, but for those of the other parts of the program. */
  function Recorded(w: World, op: Op): seq<Entry> {
    match op
    case Observe(o) => if o.verdict.None? then [] else Batch(w.rows, o)
    case Fail(now, auth) =>
      if w.failures + 1 != FAILURES_BEFORE_ALERT || IsLast(Last(w.rows, OUTAGES), ModemDown) then []
      else [Entry(w.firstFailure, ModemDown, if auth then Warning else Critical)]
    case Ask(supported, before, after, answer) =>
      var outcome := OutcomeOf(w.rows, supported, before, answer);
      if Noted(outcome) then [Entry(after, RestartAsked, if outcome == AskRefused then Warning else Good)] else []
    case _ => []
  }

  lemma StepMarks(w: World, op: Op, kinds: set<Kind>)
    requires Followed(kinds)
    ensures Of(Step(w, op).rows, kinds) == Of(w.rows, kinds) + Marks(Recorded(w, op), kinds)
  {
    match op
    case Write(at, other, level) =>
      var entries := [Entry(at, KindOf(other), level)];
      OfSaved(w.rows, entries, kinds);
      NoMarks(entries, kinds);
    case Erase(id) =>
      OfWithout(w.rows, OfNote(id), kinds);
      Nothing(Of(w.rows, kinds));
    case _ =>
      StepSaves(w, op);
      OfSaved(w.rows, Recorded(w, op), kinds);
  }

  lemma StepSaves(w: World, op: Op)
    requires !op.Write? && !op.Erase?
    ensures Step(w, op).rows == Saved(w.rows, Recorded(w, op))
  {}

  predicate Judged(op: Op) {
    op.Observe? && op.o.verdict.Some?
  }

  function StateMarks(at: int, change: Option<Level>): seq<Mark> {
    if change.None? then [] else [Mark(Seconds(at), State, change.value)]
  }

  function SpikeMarks(at: int, k: Option<Kind>): seq<Mark> {
    if k.None? then [] else [Mark(Seconds(at), k.value, if k.value == Errors then Warning else Good)]
  }

  function UpMarks(at: int, down: bool): seq<Mark> {
    if down then [Mark(Seconds(at), ModemUp, Good)] else []
  }

  function DownMarks(first: int, failures: nat, down: bool, auth: bool): seq<Mark> {
    if failures != FAILURES_BEFORE_ALERT || down then []
    else [Mark(Seconds(first), ModemDown, if auth then Warning else Critical)]
  }

  function RestartMarks(at: int, seen: bool, ruling: Option<Kind>): seq<Mark> {
    match ruling
    case Some(k) => [Mark(Seconds(at), k, if k == Restart then Good else Warning)]
    case None => if seen then [Mark(Seconds(at), Restart, Warning)] else []
  }

  function AskMarks(after: int, outcome: Outcome): seq<Mark> {
    if Noted(outcome) then [Mark(Seconds(after), RestartAsked, if outcome == AskRefused then Warning else Good)] else []
  }

  lemma MarksOfOne(e: Entry, kinds: set<Kind>)
    ensures Marks([], kinds) == []
    ensures Marks([e], kinds) == if e.kind in kinds then [Mark(Seconds(e.at), e.kind, e.level)] else []
  {}

  /** What a step records, kind by kind. */
  lemma RecordedStates(w: World, op: Op)
    ensures Marks(Recorded(w, op), STATES) ==
              if Judged(op) then StateMarks(op.o.at, StateChange(op.o.verdict.value, Last(w.rows, STATES))) else []
  {
    if Judged(op) {
      BatchMarks(w.rows, op.o);
      var change := StateChange(op.o.verdict.value, Last(w.rows, STATES));
      if change.Some? {
        MarksOfOne(Entry(op.o.at, State, change.value), STATES);
      }
    }
  }

  lemma RecordedSpikes(w: World, op: Op)
    ensures Marks(Recorded(w, op), SPIKES) ==
              if Judged(op) then SpikeMarks(op.o.at, SpikeOf(InputOf(w.rows, op.o))) else []
  {
    if Judged(op) {
      BatchMarks(w.rows, op.o);
      var k := SpikeOf(InputOf(w.rows, op.o));
      if k.Some? {
        MarksOfOne(Entry(op.o.at, k.value, if k.value == Errors then Warning else Good), SPIKES);
      }
    }
  }

  lemma RecordedOutages(w: World, op: Op)
    ensures var down := IsLast(Last(w.rows, OUTAGES), ModemDown);
            Marks(Recorded(w, op), OUTAGES) ==
              if Judged(op) then UpMarks(op.o.at, down)
              else if op.Fail? then DownMarks(w.firstFailure, w.failures + 1, down, op.auth) else []
  {
    if Judged(op) {
      BatchMarks(w.rows, op.o);
    }
  }

  lemma RecordedRestarts(w: World, op: Op)
    ensures Marks(Recorded(w, op), RESTARTS) ==
              if Judged(op) then RestartMarks(op.o.at, RestartIn(InputOf(w.rows, op.o)), RulingOf(w.rows, op.o)) else []
  {
    if Judged(op) {
      BatchMarks(w.rows, op.o);
      RestartPartMarks(op.o.at, RestartIn(InputOf(w.rows, op.o)), Last(w.rows, ASKS), Last(w.rows, RESTARTS), op.o.up);
    }
  }

  lemma RestartPartMarks(at: int, seen: bool, ask: Option<Event>, last: Option<Event>, up: int)
    ensures var ruling := Ruling(ask, last, at, up, seen);
            Marks(RestartEntries(at, seen, ruling), RESTARTS) == RestartMarks(at, seen, ruling)
  {}

  lemma RecordedAsks(w: World, op: Op)
    ensures Marks(Recorded(w, op), ASKS) ==
              if op.Ask? then AskMarks(op.after, OutcomeOf(w.rows, op.supported, op.before, op.answer)) else []
  {
    if Judged(op) {
      BatchMarks(w.rows, op.o);
    }
  }

  lemma StepStates(w: World, op: Op)
    ensures Of(Step(w, op).rows, STATES) ==
              Of(w.rows, STATES)
              + if Judged(op) then StateMarks(op.o.at, StateChange(op.o.verdict.value, Last(w.rows, STATES))) else []
  {
    StepMarks(w, op, STATES);
    RecordedStates(w, op);
  }

  lemma StepSpikes(w: World, op: Op)
    ensures Of(Step(w, op).rows, SPIKES) ==
              Of(w.rows, SPIKES) + if Judged(op) then SpikeMarks(op.o.at, SpikeOf(InputOf(w.rows, op.o))) else []
  {
    StepMarks(w, op, SPIKES);
    RecordedSpikes(w, op);
  }

  lemma StepOutages(w: World, op: Op)
    ensures var down := IsLast(Last(w.rows, OUTAGES), ModemDown);
            Of(Step(w, op).rows, OUTAGES) ==
              Of(w.rows, OUTAGES)
              + if Judged(op) then UpMarks(op.o.at, down)
                else if op.Fail? then DownMarks(w.firstFailure, w.failures + 1, down, op.auth) else []
  {
    StepMarks(w, op, OUTAGES);
    RecordedOutages(w, op);
  }

  lemma StepRestarts(w: World, op: Op)
    ensures Of(Step(w, op).rows, RESTARTS) ==
              Of(w.rows, RESTARTS)
              + if Judged(op) then RestartMarks(op.o.at, RestartIn(InputOf(w.rows, op.o)), RulingOf(w.rows, op.o)) else []
  {
    StepMarks(w, op, RESTARTS);
    RecordedRestarts(w, op);
  }

  lemma StepAsks(w: World, op: Op)
    ensures Of(Step(w, op).rows, ASKS) ==
              Of(w.rows, ASKS)
              + if op.Ask? then AskMarks(op.after, OutcomeOf(w.rows, op.supported, op.before, op.answer)) else []
  {
    StepMarks(w, op, ASKS);
    RecordedAsks(w, op);
  }

  // ------------------------------------------------------------- the invariants

  /** The dates follow the order of recording and none is after now. */
  ghost predicate Dated(marks: seq<Mark>, now: int) {
    InOrder(marks) && (marks != [] ==> marks[|marks| - 1].ts <= Seconds(now))
  }

  /** A mark no older than now may follow. */
  lemma DatedStep(marks: seq<Mark>, now: int, added: seq<Mark>, at: int)
    requires Dated(marks, now) && now <= at
    requires |added| <= 1 && forall m | m in added :: m.ts == Seconds(at)
    ensures Dated(marks + added, at)
  {
    assert forall i :: 0 <= i < |marks| ==> marks[i].ts <= marks[|marks| - 1].ts;
  }

  predicate ChangeAt(marks: seq<Mark>, i: nat)
    requires i < |marks|
  {
    marks[i].level in {Good, Warning, Critical} && marks[i].level != if i == 0 then Good else marks[i - 1].level
  }

  /** Each state differs from the one before, the line being first in a good one. */
  predicate StatesChange(marks: seq<Mark>) {
    forall i :: 0 <= i < |marks| ==> ChangeAt(marks, i)
  }

  /** The kinds alternate, starting with first. */
  predicate Alternate(marks: seq<Mark>, first: Kind, second: Kind) {
    forall i :: 0 <= i < |marks| ==> marks[i].kind == if i % 2 == 0 then first else second
  }

  const GUARD_SECONDS := 600

  /** Ten minutes at least between two events. */
  predicate Spaced(marks: seq<Mark>) {
    forall i, j :: 0 <= i < j < |marks| ==> marks[i].ts + GUARD_SECONDS <= marks[j].ts
  }

  /** The date a modem found down would get: that of the first failure, if there is one. */
  function DownDate(w: World, c: Clocks): int {
    if w.failures > 0 then w.firstFailure else c.reading
  }

  /** What every run keeps. */
  ghost predicate Kept(w: World, c: Clocks) {
    && Dated(Of(w.rows, STATES), c.reading) && StatesChange(Of(w.rows, STATES))
    && Dated(Of(w.rows, SPIKES), c.reading) && Alternate(Of(w.rows, SPIKES), Errors, ErrorsEnd)
    && Dated(Of(w.rows, OUTAGES), DownDate(w, c)) && Alternate(Of(w.rows, OUTAGES), ModemDown, ModemUp)
    && DownDate(w, c) <= c.reading
    && Dated(Of(w.rows, RESTARTS), c.reading)
    && Dated(Of(w.rows, ASKS), c.asking) && Spaced(Of(w.rows, ASKS))
  }

  predicate Recalls(marks: seq<Mark>, last: Option<Event>) {
    match last
    case None => marks == []
    case Some(e) => marks != [] && MarkOf(e) == marks[|marks| - 1]
  }

  lemma StateAdded(marks: seq<Mark>, now: int, at: int, v: Verdict, last: Option<Event>)
    requires Dated(marks, now) && StatesChange(marks) && now <= at && Recalls(marks, last)
    ensures var next := marks + StateMarks(at, StateChange(v, last));
            && Dated(next, at) && StatesChange(next)
            && (Decides(v) ==> Alert(v.level) == if next == [] then Good else Alert(next[|next| - 1].level))
  {
    var next := marks + StateMarks(at, StateChange(v, last));
    DatedStep(marks, now, StateMarks(at, StateChange(v, last)), at);
    assert marks != [] ==> ChangeAt(marks, |marks| - 1);
    forall i | 0 <= i < |next|
      ensures ChangeAt(next, i)
    {
      assert i < |marks| ==> ChangeAt(marks, i);
    }
  }

  lemma StatesKept(w: World, c: Clocks, op: Op)
    requires Dated(Of(w.rows, STATES), c.reading) && StatesChange(Of(w.rows, STATES)) && OnTime(c, op)
    ensures var marks := Of(Step(w, op).rows, STATES);
            && Dated(marks, Tick(c, op).reading) && StatesChange(marks)
            && (Judged(op) && Decides(op.o.verdict.value) ==>
                  Alert(op.o.verdict.value.level) == if marks == [] then Good else Alert(marks[|marks| - 1].level))
  {
    StepStates(w, op);
    LastRecorded(w.rows, STATES);
    if Judged(op) {
      StateAdded(Of(w.rows, STATES), c.reading, op.o.at, op.o.verdict.value, Last(w.rows, STATES));
    } else {
      assert Of(w.rows, STATES) + [] == Of(w.rows, STATES);
    }
  }

  /** A mark that follows one of the other kind, or none if it is of the second. */
  lemma PairAdded(marks: seq<Mark>, now: int, at: int, first: Kind, second: Kind, last: Option<Event>, m: Mark)
    requires Dated(marks, now) && Alternate(marks, first, second) && first != second && now <= at
    requires Recalls(marks, last) && m.ts == Seconds(at)
    requires m.kind == if IsLast(last, first) then second else first
    ensures Dated(marks + [m], at) && Alternate(marks + [m], first, second)
  {
    DatedStep(marks, now, [m], at);
    if marks != [] {
      assert marks[|marks| - 1].kind == first <==> |marks| % 2 == 1;
    }
    assert Alternate(marks + [m], first, second);
  }

  lemma NothingAdded(marks: seq<Mark>)
    ensures marks + [] == marks
  {}

  lemma SpikeAdded(marks: seq<Mark>, now: int, at: int, k: Option<Kind>, last: Option<Event>)
    requires Dated(marks, now) && Alternate(marks, Errors, ErrorsEnd) && now <= at && Recalls(marks, last)
    requires k.Some? ==> k.value == if IsLast(last, Errors) then ErrorsEnd else Errors
    ensures var next := marks + SpikeMarks(at, k);
            Dated(next, at) && Alternate(next, Errors, ErrorsEnd)
  {
    if k.Some? {
      PairAdded(marks, now, at, Errors, ErrorsEnd, last, SpikeMarks(at, k)[0]);
    } else {
      NothingAdded(marks);
      assert Dated(marks, at);
    }
  }

  lemma SpikesKept(w: World, c: Clocks, op: Op)
    requires Dated(Of(w.rows, SPIKES), c.reading) && Alternate(Of(w.rows, SPIKES), Errors, ErrorsEnd) && OnTime(c, op)
    ensures var marks := Of(Step(w, op).rows, SPIKES);
            Dated(marks, Tick(c, op).reading) && Alternate(marks, Errors, ErrorsEnd)
  {
    var marks := Of(w.rows, SPIKES);
    StepSpikes(w, op);
    LastRecorded(w.rows, SPIKES);
    if Judged(op) && op.o.prev.Some? && op.o.calibrated {
      SpikeAdded(marks, c.reading, op.o.at, SpikeOf(InputOf(w.rows, op.o)), Last(w.rows, SPIKES));
    } else {
      NothingAdded(marks);
    }
  }

  lemma OutageAdded(marks: seq<Mark>, now: int, at: int, added: seq<Mark>, last: Option<Event>)
    requires Dated(marks, now) && Alternate(marks, ModemDown, ModemUp) && now <= at && Recalls(marks, last)
    requires added != [] ==>
               && |added| == 1 && added[0].ts == Seconds(at)
               && added[0].kind == if IsLast(last, ModemDown) then ModemUp else ModemDown
    ensures Dated(marks + added, at) && Alternate(marks + added, ModemDown, ModemUp)
  {
    if added != [] {
      assert added == [added[0]];
      PairAdded(marks, now, at, ModemDown, ModemUp, last, added[0]);
    } else {
      NothingAdded(marks);
      assert Dated(marks, at);
    }
  }

  lemma OutagesKept(w: World, c: Clocks, op: Op)
    requires Dated(Of(w.rows, OUTAGES), DownDate(w, c)) && Alternate(Of(w.rows, OUTAGES), ModemDown, ModemUp)
    requires DownDate(w, c) <= c.reading && OnTime(c, op)
    ensures var marks, next, now := Of(Step(w, op).rows, OUTAGES), Step(w, op), Tick(c, op);
            Dated(marks, DownDate(next, now)) && Alternate(marks, ModemDown, ModemUp) && DownDate(next, now) <= now.reading
  {
    StepOutages(w, op);
    LastRecorded(w.rows, OUTAGES);
    var down := IsLast(Last(w.rows, OUTAGES), ModemDown);
    var added := if Judged(op) then UpMarks(op.o.at, down)
                 else if op.Fail? then DownMarks(w.firstFailure, w.failures + 1, down, op.auth) else [];
    OutageAdded(Of(w.rows, OUTAGES), DownDate(w, c), DownDate(Step(w, op), Tick(c, op)), added,
                Last(w.rows, OUTAGES));
  }

  lemma RestartsKept(w: World, c: Clocks, op: Op)
    requires Dated(Of(w.rows, RESTARTS), c.reading) && OnTime(c, op)
    ensures Of(w.rows, RESTARTS) <= Of(Step(w, op).rows, RESTARTS)
    ensures |Of(Step(w, op).rows, RESTARTS)| <= |Of(w.rows, RESTARTS)| + 1
    ensures Dated(Of(Step(w, op).rows, RESTARTS), Tick(c, op).reading)
  {
    StepRestarts(w, op);
    if Judged(op) {
      var added := RestartMarks(op.o.at, RestartIn(InputOf(w.rows, op.o)), RulingOf(w.rows, op.o));
      DatedStep(Of(w.rows, RESTARTS), c.reading, added, op.o.at);
    }
  }

  lemma AskAdded(marks: seq<Mark>, now: int, before: int, after: int, last: Option<Event>, outcome: Outcome)
    requires Dated(marks, now) && Spaced(marks) && now <= before <= after && Recalls(marks, last)
    requires Noted(outcome) && last.Some? ==> before - last.value.ts * SECOND >= RESTART_GUARD
    ensures Dated(marks + AskMarks(after, outcome), after) && Spaced(marks + AskMarks(after, outcome))
  {
    DatedStep(marks, now, AskMarks(after, outcome), after);
    assert forall i :: 0 <= i < |marks| ==> marks[i].ts <= marks[|marks| - 1].ts;
  }

  lemma AsksKept(w: World, c: Clocks, op: Op)
    requires Dated(Of(w.rows, ASKS), c.asking) && Spaced(Of(w.rows, ASKS)) && OnTime(c, op)
    ensures Dated(Of(Step(w, op).rows, ASKS), Tick(c, op).asking) && Spaced(Of(Step(w, op).rows, ASKS))
  {
    StepAsks(w, op);
    LastRecorded(w.rows, ASKS);
    if op.Ask? {
      var outcome := OutcomeOf(w.rows, op.supported, op.before, op.answer);
      AskAdded(Of(w.rows, ASKS), c.asking, op.before, op.after, Last(w.rows, ASKS), outcome);
    }
  }

  lemma StepKept(w: World, c: Clocks, op: Op)
    requires Kept(w, c) && OnTime(c, op)
    ensures Kept(Step(w, op), Tick(c, op))
  {
    StatesKept(w, c, op);
    SpikesKept(w, c, op);
    OutagesKept(w, c, op);
    RestartsKept(w, c, op);
    AsksKept(w, c, op);
  }

  lemma {:induction false} RunKept(w: World, c: Clocks, ops: seq<Op>)
    requires Kept(w, c) && Timely(c, ops)
    ensures Kept(Run(w, ops), Clock(c, ops))
    decreases |ops|
  {
    if ops != [] {
      StepKept(w, c, ops[0]);
      RunKept(Step(w, ops[0]), Tick(c, ops[0]), ops[1..]);
    }
  }

  const START := World([], 0, 0)

  /**
   * Over every run from an empty journal, whatever the readings, failures,
   * restarts of the program and requests: the state changes at each state
   * event, spikes start then end, the modem goes down then up, and requests
   * are ten minutes apart.
   */
  lemma EpisodesWellFormed(c: Clocks, ops: seq<Op>)
    requires Timely(c, ops)
    ensures var rows := Run(START, ops).rows;
            && StatesChange(Of(rows, STATES))
            && Alternate(Of(rows, SPIKES), Errors, ErrorsEnd)
            && Alternate(Of(rows, OUTAGES), ModemDown, ModemUp)
            && Spaced(Of(rows, ASKS))
  {
    RunKept(START, c, ops);
  }

  /** After a reading that tells the state of the line, the last state recorded is that one. */
  lemma StateIsCurrent(c: Clocks, ops: seq<Op>, o: Observation)
    requires Timely(c, ops) && OnTime(Clock(c, ops), Observe(o))
    requires o.verdict.Some? && Decides(o.verdict.value)
    ensures LevelAfter(Last(Step(Run(START, ops), Observe(o)).rows, STATES)) == Alert(o.verdict.value.level)
  {
    RunKept(START, c, ops);
    StatesKept(Run(START, ops), Clock(c, ops), Observe(o));
    LastRecorded(Step(Run(START, ops), Observe(o)).rows, STATES);
  }

  // ------------------------------------------------------ one conclusion per request

  /** A reading records one restart event at most, confirmed if it concludes a request. */
  lemma OneRestartPerReading(rows: seq<Event>, o: Observation)
    requires o.verdict.Some?
    ensures |Marks(Batch(rows, o), RESTARTS)| <= 1
    ensures Concludes(rows, o) ==> Marks(Batch(rows, o), RESTARTS) == RestartMarks(o.at, false, RulingOf(rows, o))
  {
    BatchMarks(rows, o);
    RestartPartMarks(o.at, RestartIn(InputOf(rows, o)), Last(rows, ASKS), Last(rows, RESTARTS), o.up);
  }

  /** The request dated ask has been concluded, or made useless, by a later restart event. */
  predicate Closed(rows: seq<Event>, ask: int) {
    Last(rows, RESTARTS).Some? && Last(rows, RESTARTS).value.ts > ask
  }

  /** A reading that concludes the request dated ask. */
  predicate ConcludesAsk(rows: seq<Event>, o: Observation, ask: int) {
    Concludes(rows, o) && Last(rows, ASKS).value.ts == ask
  }

  /** The last date does not go back when marks are added. */
  lemma LastDateGrows(before: seq<Mark>, marks: seq<Mark>)
    requires before != [] && before <= marks && InOrder(marks)
    ensures before[|before| - 1].ts <= marks[|marks| - 1].ts
  {
    assert marks[|before| - 1] == before[|before| - 1];
  }

  lemma StaysClosed(w: World, c: Clocks, op: Op, ask: int)
    requires Dated(Of(w.rows, RESTARTS), c.reading) && OnTime(c, op) && Closed(w.rows, ask)
    ensures Closed(Step(w, op).rows, ask)
  {
    var rows := Step(w, op).rows;
    RestartsKept(w, c, op);
    LastRecorded(w.rows, RESTARTS);
    LastRecorded(rows, RESTARTS);
    LastDateGrows(Of(w.rows, RESTARTS), Of(rows, RESTARTS));
  }

  lemma ConcludingCloses(w: World, c: Clocks, o: Observation, ask: int)
    requires Kept(w, c) && OnTime(c, Observe(o)) && ConcludesAsk(w.rows, o, ask)
    ensures Last(Step(w, Observe(o)).rows, RESTARTS).Some?
    ensures Last(Step(w, Observe(o)).rows, RESTARTS).value.ts == Seconds(o.at)
    ensures Last(Step(w, Observe(o)).rows, ASKS) == Last(w.rows, ASKS)
  {
    var w' := Step(w, Observe(o));
    RestartsKept(w, c, Observe(o));
    StepRestarts(w, Observe(o));
    LastRecorded(w'.rows, RESTARTS);
    BatchMarks(w.rows, o);
    LastSaved(w.rows, Batch(w.rows, o), ASKS);
  }

  lemma {:induction false} LastSaved(rows: seq<Event>, entries: seq<Entry>, kinds: set<Kind>)
    requires Marks(entries, kinds) == []
    ensures Last(Saved(rows, entries), kinds) == Last(rows, kinds)
    decreases |entries|
  {
    if entries != [] {
      var next := Inserted(rows, entries[0]);
      assert next[..|next| - 1] == rows;
      LastSaved(next, entries[1..], kinds);
    }
  }

  /** How many readings of a run conclude the request dated ask. */
  function Conclusions(w: World, ops: seq<Op>, ask: int): nat
    decreases |ops|
  {
    if ops == [] then 0
    else
      (if ops[0].Observe? && ConcludesAsk(w.rows, ops[0].o, ask) then 1 else 0)
      + Conclusions(Step(w, ops[0]), ops[1..], ask)
  }

  /** How many of them are read in the very second of the request. */
  function Hasty(w: World, ops: seq<Op>, ask: int): nat
    decreases |ops|
  {
    if ops == [] then 0
    else
      (if ops[0].Observe? && ConcludesAsk(w.rows, ops[0].o, ask) && Seconds(ops[0].o.at) == ask then 1 else 0)
      + Hasty(Step(w, ops[0]), ops[1..], ask)
  }

  lemma {:induction false} NothingAfterClosed(w: World, c: Clocks, ops: seq<Op>, ask: int)
    requires Kept(w, c) && Timely(c, ops) && Closed(w.rows, ask)
    ensures Conclusions(w, ops, ask) == 0
    decreases |ops|
  {
    if ops != [] {
      StaysClosed(w, c, ops[0], ask);
      StepKept(w, c, ops[0]);
      NothingAfterClosed(Step(w, ops[0]), Tick(c, ops[0]), ops[1..], ask);
    }
  }

  /**
   * Over every run a request gets one conclusion at most, not counting those
   * made in its very second: the journal only keeps seconds, and such a
   * conclusion does not look later than the request.
   */
  lemma {:induction false} AtMostOneConclusion(w: World, c: Clocks, ops: seq<Op>, ask: int)
    requires Kept(w, c) && Timely(c, ops)
    ensures Conclusions(w, ops, ask) <= Hasty(w, ops, ask) + 1
    decreases |ops|
  {
    if ops != [] {
      var next, later := Step(w, ops[0]), Tick(c, ops[0]);
      StepKept(w, c, ops[0]);
      AtMostOneConclusion(next, later, ops[1..], ask);
      if ops[0].Observe? && ConcludesAsk(w.rows, ops[0].o, ask) && Seconds(ops[0].o.at) != ask {
        assert Seconds((ops[0].o).at) >= ask;
        ConcludingCloses(w, c, ops[0].o, ask);
        NothingAfterClosed(next, later, ops[1..], ask);
      }
    }
  }

  /** The same reading one second later, the modem having just started. */
  function Later(o: Observation): Observation {
    o.(at := o.at + SECOND, prev := Some(o.cur), up := 1)
  }

  lemma ConcludedAgain(w: World, c: Clocks, o: Observation, ask: int)
    requires Kept(w, c) && OnTime(c, Observe(o)) && ConcludesAsk(w.rows, o, ask)
    requires Seconds(o.at) == ask
    ensures ConcludesAsk(Step(w, Observe(o)).rows, Later(o), ask)
  {
    ConcludingCloses(w, c, o, ask);
  }

  lemma CountsStep(w: World, op: Op, rest: seq<Op>, ask: int)
    ensures Conclusions(w, [op] + rest, ask) ==
              (if op.Observe? && ConcludesAsk(w.rows, op.o, ask) then 1 else 0) + Conclusions(Step(w, op), rest, ask)
  {
    assert ([op] + rest)[1..] == rest;
  }

  /** Whatever follows, the request dated ask is not concluded any more. */
  ghost predicate Final(w: World, c: Clocks, ask: int) {
    forall ops | Timely(c, ops) :: Conclusions(w, ops, ask) == 0
  }

  lemma ClosedIsFinal(w: World, c: Clocks, ask: int)
    requires Kept(w, c) && Closed(w.rows, ask)
    ensures Final(w, c, ask)
  {
    forall ops | Timely(c, ops)
      ensures Conclusions(w, ops, ask) == 0
    {
      NothingAfterClosed(w, c, ops, ask);
    }
  }

  lemma NotFinal(w: World, c: Clocks, o: Observation, ask: int)
    requires OnTime(c, Observe(o)) && ConcludesAsk(w.rows, o, ask)
    ensures !Final(w, c, ask)
  {
    var ops := [Observe(o)] + [];
    assert ops[1..] == [];
    CountsStep(w, Observe(o), [], ask);
    assert Timely(c, ops);
  }

  /**
   * A conclusion is the last one, whatever follows, if and only if it is read
   * in a later second than the request.
   */
  lemma ConclusionIsFinal(w: World, c: Clocks, o: Observation, ask: int)
    requires Kept(w, c) && OnTime(c, Observe(o)) && ConcludesAsk(w.rows, o, ask)
    ensures Final(Step(w, Observe(o)), Tick(c, Observe(o)), ask) <==> Seconds(o.at) > ask
  {
    var next, later := Step(w, Observe(o)), Tick(c, Observe(o));
    assert Seconds(o.at) >= ask;
    if Seconds(o.at) > ask {
      StepKept(w, c, Observe(o));
      ConcludingCloses(w, c, o, ask);
      ClosedIsFinal(next, later, ask);
    } else {
      ConcludedAgain(w, c, o, ask);
      NotFinal(next, later, Later(o), ask);
    }
  }

  lemma TwiceInARow(w: World, c: Clocks, o: Observation, ask: int)
    requires Kept(w, c) && OnTime(c, Observe(o)) && ConcludesAsk(w.rows, o, ask) && Seconds(o.at) == ask
    ensures Conclusions(w, [Observe(o)] + ([Observe(Later(o))] + []), ask) == 2
  {
    ConcludedAgain(w, c, o, ask);
    CountsStep(w, Observe(o), [Observe(Later(o))] + [], ask);
    CountsStep(Step(w, Observe(o)), Observe(Later(o)), [], ask);
  }

  /** A reading of a modem that has just started, one nanosecond after the epoch. */
  const EARLY := Observation(1, None, [], Some(Verdict(false, Unknown)), false, 0, [], 1)

  const FIRST_ASK := Event(1, 0, RestartAsked, Good)

  lemma AskRecorded()
    ensures AfterAsk([], Asked, 0) == [FIRST_ASK]
  {
    var e := Entry(0, RestartAsked, Good);
    assert [e][1..] == [];
    assert Inserted([], e) == [FIRST_ASK];
    assert Saved([], [e]) == Saved(Inserted([], e), []);
  }

  lemma LastOfOne(e: Event, kinds: set<Kind>)
    ensures Last([e], kinds) == if e.kind in kinds then Some(e) else None
  {
    assert [e][..0] == [];
  }

  lemma EarlyTwice(w: World, c: Clocks)
    requires Kept(w, c) && c.reading <= 1
    requires Last(w.rows, ASKS) == Some(FIRST_ASK) && Last(w.rows, RESTARTS) == None
    ensures Conclusions(w, [Observe(EARLY)] + ([Observe(Later(EARLY))] + []), 0) == 2
  {
    assert ConcludesAsk(w.rows, EARLY, 0);
    TwiceInARow(w, c, EARLY, 0);
  }

  /** A request read in its own second, then a second later, is concluded twice. */
  lemma ConcludedTwice(w: World, ops: seq<Op>)
    requires w == Step(START, Ask(true, 0, 0, Accepted))
    requires ops == [Observe(EARLY)] + ([Observe(Later(EARLY))] + [])
    ensures Conclusions(w, ops, 0) == 2
  {
    AskRecorded();
    StepKept(START, Clocks(0, 0), Ask(true, 0, 0, Accepted));
    LastOfOne(FIRST_ASK, ASKS);
    LastOfOne(FIRST_ASK, RESTARTS);
    EarlyTwice(w, Clocks(0, 0));
  }
}
