/** What the notifier sends, by the kind, the level and the age of events (internal/notify/notify.go). */
module Alerts {
  import opened Journals
  import opened Notifications
  import opened Wrappers

  /** What a subscriber to a filter is to be told: never a note. */
  ghost predicate Concerns(e: Event, filter: Filter) {
    && e.kind != Note
    && (filter == CriticalOnly ==> e.level == Critical)
    && (filter == States ==> e.kind in {State, Outage, OutageEnd, ModemDown, ModemUp, MicroBurst})
  }

  lemma DeliveredIs(e: Event, now: Clock, filter: Filter)
    ensures FateOf(e, now, filter) == Delivered <==> now(e) - e.ts * SECOND <= 3600 * SECOND && Concerns(e, filter)
  {}

  /** An event after the cursor, at most an hour old, that concerns the filter. */
  ghost predicate Awaits(rows: seq<Event>, last: nat, now: Clock, filter: Filter, e: Event) {
    e in rows && e.id > last && now(e) - e.ts * SECOND <= 3600 * SECOND && Concerns(e, filter)
  }

  /**
   * A poll whose send does not fail sends exactly the events after the cursor
   * that are at most an hour old and concern the filter.
   */
  lemma PollSends(rows: seq<Event>, last: nat, now: Clock, filter: Filter, sending: Sending, e: Event)
    requires Table(rows)
    ensures e in Sent(rows, Some(last), now, filter, sending) <==>
              sending != Fails && Awaits(rows, last, now, filter, e)
  {
    DueHolds(After(rows, last), now, filter, e);
    AfterHolds(rows, last, e);
    DeliveredIs(e, now, filter);
  }

  /**
   * The cursor goes to the last event, at the first poll and at each one that
   * works; when the send fails it stays only if there was something to send,
   * and after a crash it stays.
   */
  lemma PollMoves(rows: seq<Event>, last: nat, now: Clock, filter: Filter, sending: Sending)
    requires Table(rows)
    ensures Cursor(rows, None, now, filter, sending) == Some(LastId(rows))
    ensures var held := sending == Crashes || (sending == Fails && exists e :: Awaits(rows, last, now, filter, e));
            Cursor(rows, Some(last), now, filter, sending) ==
            Some(if held || LastId(rows) < last then last else LastId(rows))
  {
    AnythingAfter(rows, last);
    var due := Due(After(rows, last), now, filter);
    forall e
      ensures e in due <==> Awaits(rows, last, now, filter, e)
    {
      PollSends(rows, last, now, filter, Works, e);
    }
    assert due != [] ==> due[0] in due;
  }

  ghost predicate Passed(s: Station, filter: Filter) {
    forall l | l in s.passed :: l.at - l.e.ts * SECOND <= 3600 * SECOND && Concerns(l.e, filter) ==> l.e in s.sent
  }

  ghost predicate Proper(s: Station, filter: Filter) {
    forall e | e in s.sent :: Concerns(e, filter)
  }

  lemma PassedIsAccounted(s: Station, filter: Filter)
    ensures Passed(s, filter) <==> Accounted(s, filter)
  {
    forall l | l in s.passed
      ensures l.at - l.e.ts * SECOND <= 3600 * SECOND && Concerns(l.e, filter) <==> !Late(l) && Wanted(l.e, filter)
    {}
  }

  lemma StepProper(s: Station, op: Op, filter: Filter)
    requires Table(s.rows) && Proper(s, filter)
    ensures Proper(Step(s, op, filter), filter)
  {
    if op.Poll? && s.cursor.Some? {
      forall e | e in Sent(s.rows, s.cursor, op.now, filter, op.sending)
        ensures Concerns(e, filter)
      {
        PollSends(s.rows, s.cursor.value, op.now, filter, op.sending, e);
      }
    }
  }

  lemma {:induction false} RunProper(s: Station, ops: seq<Op>, filter: Filter)
    requires Table(s.rows) && Proper(s, filter)
    ensures Proper(Run(s, ops, filter), filter)
    decreases |ops|
  {
    if ops != [] {
      StepTable(s, ops[0], filter);
      StepProper(s, ops[0], filter);
      RunProper(Step(s, ops[0], filter), ops[1..], filter);
    }
  }

  /**
   * Over every run, failures to send and crashes included: an event passed
   * while at most an hour old was sent if it concerns the filter, and nothing
   * is ever sent that does not.
   */
  lemma AlertsReachSubscriber(s: Station, ops: seq<Op>, filter: Filter)
    requires Table(s.rows) && s.sent == [] && s.passed == []
    ensures var end := Run(s, ops, filter);
            && (forall l | l in end.passed && l.at - l.e.ts * SECOND <= 3600 * SECOND && Concerns(l.e, filter) :: l.e in end.sent)
            && forall e | e in end.sent :: Concerns(e, filter)
  {
    AccountedOnly(s, ops, filter);
    PassedIsAccounted(Run(s, ops, filter), filter);
    RunProper(s, ops, filter);
  }
}
