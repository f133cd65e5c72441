/** The notifier: which events of the journal it sends, once each, and which it passes over (internal/notify/notify.go). */
module Notifications {
  import opened Journals
  import opened Wrappers

  const MAX_AGE: int := 3600 * SECOND
  const PAGE := 500

  datatype Filter = States | CriticalOnly | All

  const STATE_KINDS: set<Kind> := {State, Outage, OutageEnd, ModemDown, ModemUp, MicroBurst}

  predicate Wanted(e: Event, filter: Filter) {
    e.kind != Note &&
    match filter
    case All => true
    case CriticalOnly => e.level == Critical
    case States => e.kind in STATE_KINDS
  }

  /** The clock when each event is looked at. */
  type Clock = Event -> int

  datatype Fate = Delivered | Unwanted | TooOld

  function FateOf(e: Event, now: Clock, filter: Filter): Fate {
    if now(e) - e.ts * SECOND > MAX_AGE then TooOld else if Wanted(e, filter) then Delivered else Unwanted
  }

  /** The events to send among some, in order. */
  function Due(events: seq<Event>, now: Clock, filter: Filter): seq<Event> {
    if events == [] then []
    else
      var e := events[|events| - 1];
      Due(events[..|events| - 1], now, filter) + if FateOf(e, now, filter) == Delivered then [e] else []
  }

  /** The rows after an identifier, in order. */
  function After(rows: seq<Event>, id: nat): seq<Event> {
    if rows == [] then []
    else
      var e := rows[|rows| - 1];
      After(rows[..|rows| - 1], id) + if e.id > id then [e] else []
  }

  /** The rows after id are those from the k-th on. */
  ghost predicate Cuts(rows: seq<Event>, id: nat, k: nat) {
    && k <= |rows|
    && (forall i :: 0 <= i < k ==> rows[i].id <= id)
    && (forall i :: k <= i < |rows| ==> rows[i].id > id)
  }

  lemma {:induction false} AfterIsEnd(rows: seq<Event>, id: nat, k: nat)
    requires Cuts(rows, id, k)
    ensures After(rows, id) == rows[k..]
  {
    if rows != [] {
      var n := |rows| - 1;
      if k <= n {
        AfterIsEnd(rows[..n], id, k);
        assert rows[k..] == rows[..n][k..] + [rows[n]];
      } else {
        AfterIsEnd(rows[..n], id, n);
      }
    }
  }

  /** Identifiers increase: between two neighbours the table can be cut. */
  lemma CutBetween(rows: seq<Event>, id: nat, k: nat)
    requires Table(rows) && k <= |rows|
    requires (k > 0 ==> rows[k - 1].id <= id) && (k < |rows| ==> rows[k].id > id)
    ensures Cuts(rows, id, k)
  {
    forall i | 0 <= i < k
      ensures rows[i].id <= id
    {
      assert i < k - 1 ==> rows[i].id < rows[k - 1].id;
    }
    forall i | k <= i < |rows|
      ensures rows[i].id > id
    {
      assert k < i ==> rows[k].id < rows[i].id;
    }
  }

  function Cut(rows: seq<Event>, id: nat): (k: nat)
    ensures k <= |rows| && (k > 0 ==> rows[k - 1].id <= id) && (k < |rows| ==> rows[k].id > id)
  {
    if rows == [] || rows[|rows| - 1].id <= id then |rows| else Cut(rows[..|rows| - 1], id)
  }

  lemma AfterTable(rows: seq<Event>, id: nat)
    requires Table(rows)
    ensures Cuts(rows, id, Cut(rows, id)) && After(rows, id) == rows[Cut(rows, id)..]
    ensures if After(rows, id) == [] then LastId(rows) <= id else LastId(rows) > id
  {
    CutBetween(rows, id, Cut(rows, id));
    AfterIsEnd(rows, id, Cut(rows, id));
  }

  /** Nothing comes after an identifier exactly when it is not below the highest one. */
  lemma AnythingAfter(rows: seq<Event>, id: nat)
    requires Table(rows)
    ensures After(rows, id) == [] <==> LastId(rows) <= id
  {
    AfterTable(rows, id);
  }

  lemma AfterHolds(rows: seq<Event>, id: nat, e: Event)
    requires Table(rows)
    ensures e in After(rows, id) <==> e in rows && e.id > id
  {
    AfterTable(rows, id);
    InEnd(rows, id, Cut(rows, id), e);
  }

  lemma InEnd(rows: seq<Event>, id: nat, k: nat, e: Event)
    requires Cuts(rows, id, k)
    ensures e in rows[k..] <==> e in rows && e.id > id
  {
    assert rows == rows[..k] + rows[k..];
  }

  lemma {:induction false} DueConcat(a: seq<Event>, b: seq<Event>, now: Clock, filter: Filter)
    ensures Due(a + b, now, filter) == Due(a, now, filter) + Due(b, now, filter)
  {
    if b == [] {
      assert a + b == a;
    } else {
      assert (a + b)[..|a + b| - 1] == a + b[..|b| - 1];
      DueConcat(a, b[..|b| - 1], now, filter);
    }
  }

  // ---------------------------------------------------------------- the poll

  /** A page of the rows after an identifier. */
  method EventsAfter(rows: seq<Event>, id: nat, limit: nat) returns (page: seq<Event>)
    ensures var all := After(rows, id);
            page == all[..if |all| < limit then |all| else limit]
  {
    page := [];
    for i := 0 to |rows|
      invariant var all := After(rows[..i], id);
                page == all[..if |all| < limit then |all| else limit]
    {
      assert rows[..i + 1][..i] == rows[..i];
      if rows[i].id > id && |page| < limit {
        page := page + [rows[i]];
      }
    }
    assert rows[..|rows|] == rows;
  }

  /** After the first n rows of those after id come the others. */
  lemma PageStep(rows: seq<Event>, id: nat, n: nat)
    requires Table(rows) && n <= |After(rows, id)|
    ensures var all := After(rows, id);
            all == all[..n] + After(rows, if n == 0 then id else all[n - 1].id)
  {
    if n > 0 {
      var k := Cut(rows, id);
      AfterTable(rows, id);
      SplitEnd(rows, k, n);
      CutAfterRow(rows, k + n);
      AfterIsEnd(rows, rows[k + n - 1].id, k + n);
    }
  }

  lemma SplitEnd(rows: seq<Event>, k: nat, n: nat)
    requires 0 < n && k + n <= |rows|
    ensures rows[k..] == rows[k..][..n] + rows[k + n..]
    ensures rows[k..][n - 1] == rows[k + n - 1]
  {}

  /** The rows after the m-th row's identifier are those from the m-th on. */
  lemma CutAfterRow(rows: seq<Event>, m: nat)
    requires Table(rows) && 0 < m <= |rows|
    ensures Cuts(rows, rows[m - 1].id, m)
  {
    assert m < |rows| ==> rows[m - 1].id < rows[m].id;
    CutBetween(rows, rows[m - 1].id, m);
  }

  /** Keeps what is to be sent of a page, after what was kept of the ones before. */
  method TakePage(list: seq<Event>, next: nat, batch: seq<Event>, now: Clock, filter: Filter)
    returns (batch': seq<Event>, next': nat)
    ensures batch' == batch + Due(list, now, filter)
    ensures next' == if list == [] then next else list[|list| - 1].id
  {
    batch', next' := batch, next;
    for i := 0 to |list|
      invariant batch' == batch + Due(list[..i], now, filter)
      invariant next' == if i == 0 then next else list[i - 1].id
    {
      var e := list[i];
      assert list[..i + 1][..i] == list[..i];
      if now(e) - e.ts * SECOND <= MAX_AGE && Wanted(e, filter) {
        batch' := batch' + [e];
      }
      next' := e.id;
    }
    assert list[..|list|] == list;
  }

  /** What has been read so far, up to next, of the rows after last. */
  ghost predicate ReadUpTo(rows: seq<Event>, last: nat, read: seq<Event>, next: nat) {
    && After(rows, last) == read + After(rows, next)
    && next == if read == [] then last else read[|read| - 1].id
  }

  lemma ReadPage(rows: seq<Event>, last: nat, read: seq<Event>, next: nat, list: seq<Event>)
    requires Table(rows) && ReadUpTo(rows, last, read, next) && list <= After(rows, next)
    ensures var next' := if list == [] then next else list[|list| - 1].id;
            && ReadUpTo(rows, last, read + list, next')
            && |After(rows, next')| == |After(rows, next)| - |list|
  {
    PageStep(rows, next, |list|);
    assert list == After(rows, next)[..|list|];
    ConcatAssociative(read, list, After(rows, if list == [] then next else list[|list| - 1].id));
  }

  /** Reads every row after an identifier, page by page. */
  method Collect(rows: seq<Event>, last: nat, now: Clock, filter: Filter) returns (batch: seq<Event>, next: nat)
    requires Table(rows)
    ensures var all := After(rows, last);
            batch == Due(all, now, filter) && next == if all == [] then last else LastId(rows)
  {
    batch, next := [], last;
    ghost var read: seq<Event> := [];
    while true
      invariant ReadUpTo(rows, last, read, next) && batch == Due(read, now, filter)
      decreases |After(rows, next)|
    {
      var list := EventsAfter(rows, next, PAGE);
      ReadPage(rows, last, read, next, list);
      DueConcat(read, list, now, filter);
      batch, next := TakePage(list, next, batch, now, filter);
      read := read + list;
      if |list| < PAGE {
        break;
      }
    }
    AllRead(rows, last, read, next);
  }

  lemma AllRead(rows: seq<Event>, last: nat, read: seq<Event>, next: nat)
    requires Table(rows) && ReadUpTo(rows, last, read, next) && After(rows, next) == []
    ensures read == After(rows, last) && next == if read == [] then last else LastId(rows)
  {
    assert read + [] == read;
    AfterTable(rows, last);
  }

  /** What becomes of a send: it works, it fails, or the program stops just after it. */
  datatype Sending = Works | Fails | Crashes

  /** The cursor after a poll. */
  function Cursor(rows: seq<Event>, cursor: Option<nat>, now: Clock, filter: Filter, sending: Sending): Option<nat> {
    match cursor
    case None => Some(LastId(rows))
    case Some(last) =>
      var all := After(rows, last);
      if all == [] || sending == Crashes || (sending == Fails && Due(all, now, filter) != []) then cursor
      else Some(LastId(rows))
  }

  /** What a poll sends. */
  function Sent(rows: seq<Event>, cursor: Option<nat>, now: Clock, filter: Filter, sending: Sending): seq<Event> {
    if cursor.None? || sending == Fails then [] else Due(After(rows, cursor.value), now, filter)
  }

  class Notifier {
    const db: Journal
    const filter: Filter
    /** The last event handled, kept with the settings; none before the first poll. */
    var cursor: Option<nat>
    var failing: bool

    constructor (db: Journal, filter: Filter, cursor: Option<nat>)
      ensures this.db == db && this.filter == filter && this.cursor == cursor && !failing
    {
      this.db, this.filter, this.cursor, failing := db, filter, cursor, false;
    }

    method Poll(now: Clock, sending: Sending) returns (sent: seq<Event>)
      requires Table(db.rows)
      modifies this
      ensures cursor == Cursor(db.rows, old(cursor), now, filter, sending)
      ensures sent == Sent(db.rows, old(cursor), now, filter, sending)
      ensures old(cursor).Some? && Due(After(db.rows, old(cursor).value), now, filter) != [] && sending != Crashes ==>
                (failing <==> sending == Fails)
    {
      sent := [];
      if cursor.None? {
        cursor := Some(LastId(db.rows));
        return;
      }
      var last := cursor.value;
      AnythingAfter(db.rows, last);
      var batch, next := Collect(db.rows, last, now, filter);
      if next == last {
        return;
      }
      if |batch| > 0 {
        if sending == Fails {
          failing := true;
          return;
        }
        sent := batch;
        if sending == Crashes {
          return;
        }
        failing := false;
      }
      if sending != Crashes {
        cursor := Some(next);
      }
    }
  }

  // ------------------------------------------------------------------ runs

  /** An event that a poll passed over or sent, and when it was looked at. */
  datatype Look = Look(e: Event, at: int)

  /** The journal, the cursor, where it was first, everything sent and everything passed. */
  datatype Station = Station(rows: seq<Event>, cursor: Option<nat>, first: nat, sent: seq<Event>, passed: seq<Look>)

  datatype Op = Insert(entries: seq<Entry>) | Take(away: Removal) | Poll(now: Clock, sending: Sending)

  function Looks(events: seq<Event>, now: Clock): seq<Look> {
    seq(|events|, i requires 0 <= i < |events| => Look(events[i], now(events[i])))
  }

  function PassedBy(s: Station, now: Clock, filter: Filter, sending: Sending): seq<Look> {
    if s.cursor.None? || Cursor(s.rows, s.cursor, now, filter, sending) == s.cursor then []
    else Looks(After(s.rows, s.cursor.value), now)
  }

  function Joined(sent: seq<Event>, more: seq<Event>): seq<Event> {
    if more == [] then sent else sent + more
  }

  function Step(s: Station, op: Op, filter: Filter): Station {
    match op
    case Insert(entries) => s.(rows := Saved(s.rows, entries))
    case Take(away) => s.(rows := Without(s.rows, away))
    case Poll(now, sending) =>
      Station(s.rows, Cursor(s.rows, s.cursor, now, filter, sending),
              if s.cursor.None? then LastId(s.rows) else s.first,
              Joined(s.sent, Sent(s.rows, s.cursor, now, filter, sending)),
              s.passed + PassedBy(s, now, filter, sending))
  }

  function Run(s: Station, ops: seq<Op>, filter: Filter): Station
    decreases |ops|
  {
    if ops == [] then s else Run(Step(s, ops[0], filter), ops[1..], filter)
  }

  lemma StepTable(s: Station, op: Op, filter: Filter)
    requires Table(s.rows)
    ensures Table(Step(s, op, filter).rows)
  {
    match op
    case Insert(entries) => SavedTable(s.rows, entries);
    case Take(away) => WithoutTable(s.rows, away);
    case Poll(_, _) =>
  }

  // ------------------------------------------------------- once, and in order

  /** What was sent is in increasing order, without repeats, and up to the cursor. */
  ghost predicate InTurn(sent: seq<Event>, cursor: Option<nat>) {
    Table(sent) && (sent != [] ==> cursor.Some? && LastId(sent) <= cursor.value)
  }

  lemma {:induction false} DueHolds(events: seq<Event>, now: Clock, filter: Filter, e: Event)
    ensures e in Due(events, now, filter) <==> e in events && FateOf(e, now, filter) == Delivered
  {
    if events != [] {
      var front := events[..|events| - 1];
      assert events == front + [events[|events| - 1]];
      DueHolds(front, now, filter, e);
    }
  }

  lemma {:induction false} DueTable(events: seq<Event>, now: Clock, filter: Filter)
    requires Table(events)
    ensures Table(Due(events, now, filter)) && LastId(Due(events, now, filter)) <= LastId(events)
  {
    if events != [] {
      FrontBelow(events);
      DueTable(events[..|events| - 1], now, filter);
      AppendTable(Due(events[..|events| - 1], now, filter), events[|events| - 1]);
    }
  }

  lemma TableConcat(a: seq<Event>, b: seq<Event>, id: nat)
    requires Table(a) && Table(b) && LastId(a) <= id && forall e | e in b :: e.id > id
    ensures Table(a + b) && LastId(a + b) == if b == [] then LastId(a) else LastId(b)
  {
    forall i, j | 0 <= i < |a| <= j < |a + b|
      ensures (a + b)[i].id < (a + b)[j].id
    {
      assert (a + b)[j] in b;
      assert i < |a| - 1 ==> a[i].id < a[|a| - 1].id;
    }
  }

  lemma EndTable(rows: seq<Event>, id: nat)
    requires Table(rows)
    ensures Table(After(rows, id)) && LastId(After(rows, id)) <= LastId(rows)
  {
    AfterTable(rows, id);
  }

  lemma CursorGrows(rows: seq<Event>, cursor: Option<nat>, now: Clock, filter: Filter, sending: Sending)
    requires Table(rows)
    ensures var next := Cursor(rows, cursor, now, filter, sending);
            next.Some? && (cursor.Some? ==> cursor.value <= next.value)
  {
    if cursor.Some? {
      AnythingAfter(rows, cursor.value);
    }
  }

  /** What is sent comes after the cursor, and not after the next one. */
  lemma SentBetween(rows: seq<Event>, last: nat, now: Clock, filter: Filter)
    requires Table(rows)
    ensures var due := Due(After(rows, last), now, filter);
            && Table(due)
            && (forall e | e in due :: e.id > last)
            && (due != [] ==> LastId(due) <= LastId(rows))
  {
    var all := After(rows, last);
    EndTable(rows, last);
    DueTable(all, now, filter);
    forall e | e in Due(all, now, filter)
      ensures e.id > last
    {
      DueHolds(all, now, filter, e);
      AfterHolds(rows, last, e);
    }
  }

  /** What is sent after the cursor keeps the turn, whatever the next cursor. */
  lemma DueInTurn(sent: seq<Event>, last: nat, due: seq<Event>, next: nat)
    requires InTurn(sent, Some(last)) && Table(due) && (forall e | e in due :: e.id > last)
    requires last <= next && (due != [] ==> LastId(due) <= next)
    ensures InTurn(Joined(sent, due), Some(next))
  {
    TableConcat(sent, due, last);
  }

  lemma PollInTurn(s: Station, now: Clock, filter: Filter, sending: Sending)
    requires Table(s.rows) && InTurn(s.sent, s.cursor) && sending != Crashes
    ensures var next := Step(s, Poll(now, sending), filter);
            InTurn(next.sent, next.cursor)
  {
    CursorGrows(s.rows, s.cursor, now, filter, sending);
    var next := Cursor(s.rows, s.cursor, now, filter, sending).value;
    if s.cursor.Some? {
      SentBetween(s.rows, s.cursor.value, now, filter);
      if sending != Fails {
        DueInTurn(s.sent, s.cursor.value, Due(After(s.rows, s.cursor.value), now, filter), next);
      }
    }
  }

  predicate NoCrash(ops: seq<Op>) {
    forall i :: 0 <= i < |ops| && ops[i].Poll? ==> ops[i].sending != Crashes
  }

  /** Whatever is recorded, deleted or fails to be sent, events are sent once each, in the order they were recorded. */
  lemma {:induction false} SentInTurn(s: Station, ops: seq<Op>, filter: Filter)
    requires Table(s.rows) && InTurn(s.sent, s.cursor) && NoCrash(ops)
    ensures var end := Run(s, ops, filter);
            InTurn(end.sent, end.cursor)
    decreases |ops|
  {
    if ops != [] {
      StepTable(s, ops[0], filter);
      if ops[0].Poll? {
        PollInTurn(s, ops[0].now, filter, ops[0].sending);
      }
      SentInTurn(Step(s, ops[0], filter), ops[1..], filter);
    }
  }

  // ------------------------------------------------------------ none forgotten

  predicate Late(l: Look) {
    l.at - l.e.ts * SECOND > MAX_AGE
  }

  /** Every event passed was sent, unless it was not wanted or was over one hour old. */
  ghost predicate Accounted(s: Station, filter: Filter) {
    forall l | l in s.passed :: Late(l) || !Wanted(l.e, filter) || l.e in s.sent
  }

  /** Every event of the journal between the first cursor and the current one was passed. */
  ghost predicate Covered(s: Station) {
    s.cursor.Some? ==> forall e | e in s.rows && s.first < e.id <= s.cursor.value :: Seen(e, s.passed)
  }

  ghost predicate Seen(e: Event, passed: seq<Look>) {
    exists l :: l in passed && l.e == e
  }

  lemma LooksSee(events: seq<Event>, now: Clock, e: Event)
    requires e in events
    ensures Seen(e, Looks(events, now))
  {
    var i :| 0 <= i < |events| && events[i] == e;
    assert Looks(events, now)[i] in Looks(events, now);
  }

  lemma PollAccounted(s: Station, now: Clock, filter: Filter, sending: Sending)
    requires Table(s.rows) && Accounted(s, filter)
    ensures Accounted(Step(s, Poll(now, sending), filter), filter)
  {
    var next := Step(s, Poll(now, sending), filter);
    if s.cursor.Some? && next.cursor != s.cursor {
      var all := After(s.rows, s.cursor.value);
      forall l | l in Looks(all, now)
        ensures Late(l) || !Wanted(l.e, filter) || l.e in Due(all, now, filter)
      {
        DueHolds(all, now, filter, l.e);
        var i :| 0 <= i < |all| && Looks(all, now)[i] == l;
        assert l == Look(all[i], now(all[i])) && all[i] in all;
      }
    }
  }

  lemma PollCovers(s: Station, now: Clock, filter: Filter, sending: Sending)
    requires Table(s.rows) && Covered(s)
    ensures Covered(Step(s, Poll(now, sending), filter))
  {
    var next := Step(s, Poll(now, sending), filter);
    var looks := PassedBy(s, now, filter, sending);
    if next.cursor.Some? {
      forall e | e in s.rows && next.first < e.id <= next.cursor.value
        ensures Seen(e, next.passed)
      {
        assert Seen(e, s.passed) || Seen(e, looks) ==> Seen(e, s.passed + looks);
        if s.cursor.Some? && e.id > s.cursor.value {
          AfterHolds(s.rows, s.cursor.value, e);
          LooksSee(After(s.rows, s.cursor.value), now, e);
        }
      }
    }
  }

  /** The next identifier is after the cursor. */
  predicate OnTop(s: Station) {
    s.cursor.None? || s.cursor.value <= LastId(s.rows)
  }

  lemma {:induction false} NewRows(rows: seq<Event>, entries: seq<Entry>, e: Event)
    requires Table(rows) && e in Saved(rows, entries)
    ensures e in rows || e.id > LastId(rows)
    decreases |entries|
  {
    if entries != [] {
      NewRows(Inserted(rows, entries[0]), entries[1..], e);
    }
  }

  lemma InsertCovers(s: Station, entries: seq<Entry>)
    requires Table(s.rows) && Covered(s) && OnTop(s)
    ensures Covered(s.(rows := Saved(s.rows, entries)))
  {
    forall e | e in Saved(s.rows, entries)
      ensures e in s.rows || e.id > LastId(s.rows)
    {
      NewRows(s.rows, entries, e);
    }
  }

  lemma TakeCovers(s: Station, away: Removal)
    requires Covered(s)
    ensures Covered(s.(rows := Without(s.rows, away)))
  {
    forall e | e in Without(s.rows, away)
      ensures e in s.rows
    {
      WithoutHolds(s.rows, away, e);
    }
  }

  /** Nothing is recorded while the cursor is ahead of the journal. */
  predicate AlwaysOnTop(s: Station, ops: seq<Op>, filter: Filter)
    decreases |ops|
  {
    ops == [] || ((ops[0].Insert? ==> OnTop(s)) && AlwaysOnTop(Step(s, ops[0], filter), ops[1..], filter))
  }

  /**
   * Over every run, with failures to send and crashes between a send and the
   * cursor: the events of the journal between the first cursor and the current
   * one were sent, or not wanted, or over one hour old when they were looked
   * at. Nothing may have been recorded while the cursor was ahead.
   */
  lemma {:induction false} NoneForgotten(s: Station, ops: seq<Op>, filter: Filter)
    requires Table(s.rows) && Accounted(s, filter) && Covered(s)
    ensures Accounted(Run(s, ops, filter), filter)
    ensures AlwaysOnTop(s, ops, filter) ==> Covered(Run(s, ops, filter))
    decreases |ops|
  {
    if ops != [] {
      var next := Step(s, ops[0], filter);
      StepTable(s, ops[0], filter);
      match ops[0] {
        case Poll(now, sending) =>
          PollAccounted(s, now, filter, sending);
          PollCovers(s, now, filter, sending);
        case Insert(entries) =>
          if OnTop(s) {
            InsertCovers(s, entries);
          }
        case Take(away) => TakeCovers(s, away);
      }
      if ops[0].Insert? && !OnTop(s) {
        AccountedOnly(next, ops[1..], filter);
      } else {
        NoneForgotten(next, ops[1..], filter);
      }
    }
  }

  lemma {:induction false} AccountedOnly(s: Station, ops: seq<Op>, filter: Filter)
    requires Table(s.rows) && Accounted(s, filter)
    ensures Accounted(Run(s, ops, filter), filter)
    decreases |ops|
  {
    if ops != [] {
      StepTable(s, ops[0], filter);
      if ops[0].Poll? {
        PollAccounted(s, ops[0].now, filter, ops[0].sending);
      }
      AccountedOnly(Step(s, ops[0], filter), ops[1..], filter);
    }
  }

  // ---------------------------------------------------- an identifier used twice

  /** A step leaves the row in the journal. */
  predicate Leaves(op: Op, e: Event) {
    op.Take? ==> !Removes(op.away, e)
  }

  /** The highest identifier reaches id if and only if some row does. */
  lemma Reaches(rows: seq<Event>, id: nat)
    requires Table(rows) && id > 0
    ensures id <= LastId(rows) <==> exists e :: e in rows && id <= e.id
  {
    if id <= LastId(rows) {
      assert rows[|rows| - 1] in rows;
    }
    forall e | e in rows
      ensures e.id <= LastId(rows)
    {
      var i :| 0 <= i < |rows| && rows[i] == e;
      assert i < |rows| - 1 ==> rows[i].id < rows[|rows| - 1].id;
    }
  }

  /**
   * A step keeps the cursor from being ahead of the journal if and only if it
   * leaves some row that the cursor has not gone beyond. Deleting a note or
   * dropping old events may leave none.
   */
  lemma OnTopKept(s: Station, op: Op, filter: Filter)
    requires Table(s.rows) && OnTop(s)
    ensures OnTop(Step(s, op, filter)) <==>
              s.cursor.None? || s.cursor.value == 0 || exists e :: e in s.rows && s.cursor.value <= e.id && Leaves(op, e)
  {
    if s.cursor.Some? && s.cursor.value > 0 {
      Reaches(s.rows, s.cursor.value);
    }
    match op
    case Insert(entries) => SavedTable(s.rows, entries);
    case Poll(now, sending) =>
    case Take(away) =>
      WithoutTable(s.rows, away);
      forall e
        ensures e in Without(s.rows, away) <==> e in s.rows && Leaves(op, e)
      {
        WithoutHolds(s.rows, away, e);
      }
      if s.cursor.Some? && s.cursor.value > 0 {
        Reaches(Without(s.rows, away), s.cursor.value);
      }
  }

  /** A run only looks at events recorded after the cursor. */
  lemma {:induction false} LooksAfterCursor(s: Station, ops: seq<Op>, filter: Filter)
    requires Table(s.rows) && s.cursor.Some?
    ensures var end := Run(s, ops, filter);
            s.passed <= end.passed && forall l | l in end.passed[|s.passed|..] :: l.e.id > s.cursor.value
    decreases |ops|
  {
    if ops != [] {
      var next := Step(s, ops[0], filter);
      StepTable(s, ops[0], filter);
      StepLooks(s, ops[0], filter);
      LooksAfterCursor(next, ops[1..], filter);
      var end := Run(next, ops[1..], filter);
      forall l | l in end.passed[|s.passed|..]
        ensures l.e.id > s.cursor.value
      {
        var i :| |s.passed| <= i < |end.passed| && end.passed[i] == l;
        if i >= |next.passed| {
          assert end.passed[|next.passed|..][i - |next.passed|] == l;
        } else {
          assert next.passed[|s.passed|..][i - |s.passed|] == l;
        }
      }
    }
  }

  lemma StepLooks(s: Station, op: Op, filter: Filter)
    requires Table(s.rows) && s.cursor.Some?
    ensures var next := Step(s, op, filter);
            && s.passed <= next.passed
            && next.cursor.Some? && s.cursor.value <= next.cursor.value
            && forall l | l in next.passed[|s.passed|..] :: l.e.id > s.cursor.value
  {
    if op.Poll? {
      CursorGrows(s.rows, s.cursor, op.now, filter, op.sending);
      var looks := PassedBy(s, op.now, filter, op.sending);
      var all := After(s.rows, s.cursor.value);
      assert (s.passed + looks)[|s.passed|..] == looks;
      forall l | l in looks
        ensures l.e.id > s.cursor.value
      {
        var i :| 0 <= i < |all| && looks[i] == l;
        assert all[i] in all;
        AfterHolds(s.rows, s.cursor.value, all[i]);
      }
    }
  }

  /** Some run from s looks at event e. */
  ghost predicate LookedAt(s: Station, e: Event, filter: Filter) {
    exists ops :: Seen(e, NewLooks(s, ops, filter))
  }

  function NewLooks(s: Station, ops: seq<Op>, filter: Filter): seq<Look> {
    var end := Run(s, ops, filter);
    if |s.passed| <= |end.passed| then end.passed[|s.passed|..] else []
  }

  /**
   * An event about to be recorded will be looked at if and only if the cursor
   * is not ahead of the journal; otherwise no run ever does.
   */
  lemma NewEventLookedAt(s: Station, entry: Entry, now: Clock, filter: Filter)
    requires Table(s.rows) && s.cursor.Some?
    ensures var next := s.(rows := Inserted(s.rows, entry));
            LookedAt(next, next.rows[|s.rows|], filter) <==> OnTop(s)
  {
    var next := s.(rows := Inserted(s.rows, entry));
    var e := next.rows[|s.rows|];
    SavedTable(s.rows, [entry]);
    assert Saved(s.rows, [entry]) == next.rows;
    if OnTop(s) {
      AfterHolds(next.rows, s.cursor.value, e);
      PollLooksAt(next, now, filter, e);
    } else {
      forall ops: seq<Op>
        ensures !Seen(e, NewLooks(next, ops, filter))
      {
        LooksAfterCursor(next, ops, filter);
      }
    }
  }

  lemma RunOne(s: Station, op: Op, filter: Filter)
    ensures Run(s, [op], filter) == Step(s, op, filter)
  {
    assert [op][1..] == [];
  }

  /** A poll that works looks at everything after the cursor. */
  lemma WorkingPollLooks(s: Station, now: Clock, filter: Filter)
    requires Table(s.rows) && s.cursor.Some?
    ensures Step(s, Poll(now, Works), filter).passed == s.passed + Looks(After(s.rows, s.cursor.value), now)
  {
    AnythingAfter(s.rows, s.cursor.value);
  }

  lemma PollLooksAt(s: Station, now: Clock, filter: Filter, e: Event)
    requires Table(s.rows) && s.cursor.Some? && e in After(s.rows, s.cursor.value)
    ensures LookedAt(s, e, filter)
  {
    var ops := [Poll(now, Works)];
    var looks := Looks(After(s.rows, s.cursor.value), now);
    RunOne(s, ops[0], filter);
    WorkingPollLooks(s, now, filter);
    LooksSee(After(s.rows, s.cursor.value), now, e);
    assert (s.passed + looks)[|s.passed|..] == looks;
    assert Seen(e, NewLooks(s, ops, filter));
  }

  const QUIET := Station([Event(1, 0, Note, Unknown)], Some(1), 1, [], [])

  /**
   * A note is the only row and has been passed. Once it is deleted by hand, or
   * dropped for its age, a critical state recorded in its place gets its
   * identifier and is never sent.
   */
  lemma AlertNeverSent(away: Removal, filter: Filter)
    requires away == OfNote(1) || away == OlderThan(1)
    ensures var s := Step(Step(QUIET, Take(away), filter), Insert([Entry(SECOND, State, Critical)]), filter);
            s.rows == [Event(1, 1, State, Critical)] && !LookedAt(s, s.rows[0], filter)
  {
    var emptied := Step(QUIET, Take(away), filter);
    assert QUIET.rows[..0] == [];
    assert emptied.rows == [];
    var entry := Entry(SECOND, State, Critical);
    assert [entry][1..] == [] && Seconds(SECOND) == 1;
    assert Saved([], [entry]) == Inserted([], entry) == [Event(1, 1, State, Critical)];
    NewEventLookedAt(emptied, entry, e => 0, filter);
  }
}
