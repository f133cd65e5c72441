/**
 * The journal of the line (internal/store/events.go): a table whose rows get
 * increasing identifiers and a date in whole seconds. Other dates are in
 * nanoseconds.
 */
module Journals {
  import opened Wrappers

  datatype Level = Unknown | Good | Tolerated | Warning | Critical

  datatype Kind =
    | State | Restart | RestartAsked | RestartMissed | ChannelsLost | ChannelsBack | Modulation | Power
    | Errors | ErrorsEnd | ModemDown | ModemUp | Outage | OutageEnd | MicroBurst | NewVersion | Note

  datatype Event = Event(id: nat, ts: int, kind: Kind, level: Level)

  /** An event to be recorded. */
  datatype Entry = Entry(at: int, kind: Kind, level: Level)

  /** A recorded event without its identifier. */
  datatype Mark = Mark(ts: int, kind: Kind, level: Level)

  function Seconds(t: int): (s: int)
    ensures s * SECOND <= t < (s + 1) * SECOND
  {
    t / SECOND
  }

  // --------------------------------------------------------------- the table

  ghost predicate Table(rows: seq<Event>) {
    && (forall i :: 0 <= i < |rows| ==> rows[i].id > 0)
    && (forall i, j :: 0 <= i < j < |rows| ==> rows[i].id < rows[j].id)
  }

  /** The highest identifier, zero when there is none. */
  function LastId(rows: seq<Event>): nat {
    if rows == [] then 0 else rows[|rows| - 1].id
  }

  /** The table after an insertion; the identifier after the highest one is used, even if it served before. */
  function Inserted(rows: seq<Event>, e: Entry): seq<Event> {
    rows + [Event(LastId(rows) + 1, Seconds(e.at), e.kind, e.level)]
  }

  function Saved(rows: seq<Event>, entries: seq<Entry>): seq<Event>
    decreases |entries|
  {
    if entries == [] then rows else Saved(Inserted(rows, entries[0]), entries[1..])
  }

  /** What takes rows out of the table: the user deletes a note, the retention drops what is older than a date. */
  datatype Removal = OfNote(id: nat) | OlderThan(cutoff: int)

  predicate Removes(r: Removal, e: Event) {
    match r
    case OfNote(id) => e.id == id && e.kind == Note
    case OlderThan(cutoff) => e.ts < cutoff
  }

  /** The table after a removal. */
  function Without(rows: seq<Event>, r: Removal): seq<Event> {
    if rows == [] then []
    else
      var rest := Without(rows[..|rows| - 1], r);
      if Removes(r, rows[|rows| - 1]) then rest else rest + [rows[|rows| - 1]]
  }

  lemma {:induction false} SavedTable(rows: seq<Event>, entries: seq<Entry>)
    requires Table(rows)
    ensures Table(Saved(rows, entries)) && LastId(Saved(rows, entries)) == LastId(rows) + |entries|
    ensures rows <= Saved(rows, entries)
    decreases |entries|
  {
    if entries != [] {
      SavedTable(Inserted(rows, entries[0]), entries[1..]);
    }
  }

  lemma FrontBelow(rows: seq<Event>)
    requires Table(rows) && rows != []
    ensures Table(rows[..|rows| - 1]) && LastId(rows[..|rows| - 1]) < rows[|rows| - 1].id
  {
    var front := rows[..|rows| - 1];
    assert front != [] ==> front[|front| - 1] == rows[|rows| - 2];
  }

  lemma AppendTable(rows: seq<Event>, e: Event)
    requires Table(rows) && LastId(rows) < e.id
    ensures Table(rows + [e])
  {
    forall i | 0 <= i < |rows|
      ensures rows[i].id < e.id
    {
      assert i < |rows| - 1 ==> rows[i].id < rows[|rows| - 1].id;
    }
  }

  /** The other rows stay in order. */
  lemma {:induction false} WithoutTable(rows: seq<Event>, r: Removal)
    requires Table(rows)
    ensures Table(Without(rows, r)) && LastId(Without(rows, r)) <= LastId(rows)
  {
    if rows != [] {
      FrontBelow(rows);
      WithoutTable(rows[..|rows| - 1], r);
      AppendTable(Without(rows[..|rows| - 1], r), rows[|rows| - 1]);
    }
  }

  lemma {:induction false} WithoutHolds(rows: seq<Event>, r: Removal, e: Event)
    ensures e in Without(rows, r) <==> e in rows && !Removes(r, e)
  {
    if rows != [] {
      var front := rows[..|rows| - 1];
      assert rows == front + [rows[|rows| - 1]];
      WithoutHolds(front, r, e);
    }
  }

  // ------------------------------------------------------ the events of a kind

  /** The events of some kinds, in the order they were recorded. */
  function Of(rows: seq<Event>, kinds: set<Kind>): seq<Mark> {
    if rows == [] then []
    else
      var last := rows[|rows| - 1];
      Of(rows[..|rows| - 1], kinds) + if last.kind in kinds then [Mark(last.ts, last.kind, last.level)] else []
  }

  function MarkIn(e: Entry, kinds: set<Kind>): seq<Mark> {
    if e.kind in kinds then [Mark(Seconds(e.at), e.kind, e.level)] else []
  }

  function Marks(entries: seq<Entry>, kinds: set<Kind>): seq<Mark> {
    if entries == [] then [] else MarkIn(entries[0], kinds) + Marks(entries[1..], kinds)
  }

  lemma {:induction false} OfSaved(rows: seq<Event>, entries: seq<Entry>, kinds: set<Kind>)
    ensures Of(Saved(rows, entries), kinds) == Of(rows, kinds) + Marks(entries, kinds)
    decreases |entries|
  {
    if entries != [] {
      var next := Inserted(rows, entries[0]);
      assert next[..|next| - 1] == rows;
      OfSaved(next, entries[1..], kinds);
    }
  }

  lemma {:induction false} OfWithout(rows: seq<Event>, r: Removal, kinds: set<Kind>)
    requires forall e | Removes(r, e) :: e.kind !in kinds
    ensures Of(Without(rows, r), kinds) == Of(rows, kinds)
  {
    if rows != [] {
      var rest := Without(rows[..|rows| - 1], r);
      OfWithout(rows[..|rows| - 1], r, kinds);
      assert (rest + [rows[|rows| - 1]])[..|rest|] == rest;
    }
  }

  lemma {:induction false} MarksConcat(a: seq<Entry>, b: seq<Entry>, kinds: set<Kind>)
    ensures Marks(a + b, kinds) == Marks(a, kinds) + Marks(b, kinds)
  {
    if a == [] {
      assert a + b == b;
    } else {
      assert (a + b)[1..] == a[1..] + b;
      MarksConcat(a[1..], b, kinds);
      ConcatAssociative(MarkIn(a[0], kinds), Marks(a[1..], kinds), Marks(b, kinds));
    }
  }

  lemma {:induction false} NoMarks(entries: seq<Entry>, kinds: set<Kind>)
    requires forall i :: 0 <= i < |entries| ==> entries[i].kind !in kinds
    ensures Marks(entries, kinds) == []
  {
    if entries != [] {
      NoMarks(entries[1..], kinds);
    }
  }

  // ------------------------------------------------------------ the last event

  /** The event of some kinds that is last by date, then by identifier. */
  function Last(rows: seq<Event>, kinds: set<Kind>): Option<Event> {
    if rows == [] then None
    else
      var before, e := Last(rows[..|rows| - 1], kinds), rows[|rows| - 1];
      if e.kind in kinds && (before.None? || before.value.ts <= e.ts) then Some(e) else before
  }

  predicate NotAfter(a: Event, b: Event) {
    a.ts < b.ts || (a.ts == b.ts && a.id <= b.id)
  }

  lemma {:induction false} LastIsGreatest(rows: seq<Event>, kinds: set<Kind>)
    requires Table(rows)
    ensures Last(rows, kinds).Some? ==> Last(rows, kinds).value in rows && Last(rows, kinds).value.kind in kinds
    ensures forall e | e in rows && e.kind in kinds ::
              Last(rows, kinds).Some? && NotAfter(e, Last(rows, kinds).value)
  {
    if rows != [] {
      var front, last := rows[..|rows| - 1], rows[|rows| - 1];
      assert rows == front + [last];
      LastIsGreatest(front, kinds);
    }
  }

  ghost predicate InOrder(marks: seq<Mark>) {
    forall i, j :: 0 <= i < j < |marks| ==> marks[i].ts <= marks[j].ts
  }

  function MarkOf(e: Event): Mark {
    Mark(e.ts, e.kind, e.level)
  }

  /** When the dates of some kinds follow the order of recording, the last event is the last recorded. */
  lemma {:induction false} LastRecorded(rows: seq<Event>, kinds: set<Kind>)
    requires InOrder(Of(rows, kinds))
    ensures var marks := Of(rows, kinds);
            match Last(rows, kinds)
            case None => marks == []
            case Some(e) => marks != [] && MarkOf(e) == marks[|marks| - 1]
  {
    if rows != [] {
      var front := Of(rows[..|rows| - 1], kinds);
      var marks := Of(rows, kinds);
      assert front <= marks;
      LastRecorded(rows[..|rows| - 1], kinds);
    }
  }

  // --------------------------------------------------------------- the journal

  class Journal {
    var rows: seq<Event>

    constructor ()
      ensures rows == []
    {
      rows := [];
    }

    method SaveEvents(entries: seq<Entry>)
      modifies this
      ensures rows == Saved(old(rows), entries)
    {
      for i := 0 to |entries|
        invariant Saved(rows, entries[i..]) == Saved(old(rows), entries)
      {
        assert entries[i..][1..] == entries[i + 1..];
        rows := Inserted(rows, entries[i]);
      }
    }

    method LastEvent(kinds: set<Kind>) returns (last: Option<Event>)
      ensures last == Last(rows, kinds)
    {
      last := None;
      for i := 0 to |rows|
        invariant last == Last(rows[..i], kinds)
      {
        assert rows[..i + 1][..i] == rows[..i];
        var e := rows[i];
        if e.kind in kinds && (last.None? || last.value.ts <= e.ts) {
          last := Some(e);
        }
      }
      assert rows[..|rows|] == rows;
    }

    method AddNote(at: int)
      modifies this
      ensures rows == Saved(old(rows), [Entry(at, Note, Unknown)])
    {
      SaveEvents([Entry(at, Note, Unknown)]);
    }

    /** Whether there was such a note to delete. */
    method DeleteNote(id: nat) returns (found: bool)
      modifies this
      ensures rows == Without(old(rows), OfNote(id))
      ensures found <==> exists e :: e in old(rows) && Removes(OfNote(id), e)
    {
      found := Remove(OfNote(id));
    }

    /** The retention, for events: dated before a number of days ago, or before the oldest reading kept. */
    method Purge(cutoff: int)
      modifies this
      ensures rows == Without(old(rows), OlderThan(cutoff))
    {
      var _ := Remove(OlderThan(cutoff));
    }

    method Remove(r: Removal) returns (any: bool)
      modifies this
      ensures rows == Without(old(rows), r)
      ensures any <==> exists e :: e in old(rows) && Removes(r, e)
    {
      var kept: seq<Event> := [];
      any := false;
      for i := 0 to |rows|
        invariant rows == old(rows)
        invariant kept == Without(rows[..i], r)
        invariant any <==> exists e :: e in rows[..i] && Removes(r, e)
      {
        assert rows[..i + 1] == rows[..i] + [rows[i]];
        if Removes(r, rows[i]) {
          any := true;
        } else {
          kept := kept + [rows[i]];
        }
      }
      assert rows[..|rows|] == rows;
      rows := kept;
    }
  }
}
