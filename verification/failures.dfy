/**
 * What the tables of the probe are for: outages and short cuts are the runs of
 * failed attempts, whatever the trace (internal/probe/probe.go).
 */
module FailureRuns {
  import opened Journals
  import opened Probes
  import opened Wrappers

  // ---------------------------------------------- the runs of failed attempts

  /** How many attempts in a row have failed, up to now. */
  function FailRun(trace: seq<Attempt>): (r: nat)
    ensures r <= |trace|
  {
    if trace == [] || trace[|trace| - 1].ok then 0 else 1 + FailRun(trace[..|trace| - 1])
  }

  lemma {:induction false} FailRunIsMaximal(trace: seq<Attempt>)
    ensures var i := |trace| - FailRun(trace);
            (forall k :: i <= k < |trace| ==> !trace[k].ok) && (i > 0 ==> trace[i - 1].ok)
  {
    if trace != [] && !trace[|trace| - 1].ok {
      FailRunIsMaximal(trace[..|trace| - 1]);
    }
  }

  /** The run of failures from i to j excluded, ended by the success at j. */
  predicate EndedRun(trace: seq<Attempt>, i: nat, j: nat) {
    && i < j < |trace|
    && (forall k :: i <= k < j ==> !trace[k].ok)
    && trace[j].ok
    && (i > 0 ==> trace[i - 1].ok)
  }

  /** An outage, without the number of its row. */
  datatype Spell = Spell(start: int, end: Option<int>, nature: Nature)

  /** A run of failures from i long enough for an outage. */
  function SpellOf(c: Config, trace: seq<Attempt>, i: nat, end: Option<int>): Spell
    requires 0 < c.threshold && i + c.threshold <= |trace|
  {
    Spell(trace[i].at, end, trace[i + c.threshold - 1].nature)
  }

  /** The outages that have ended: one for each long run, from its first failure to the success after it. */
  function EndedSpells(c: Config, trace: seq<Attempt>): seq<Spell>
    requires 0 < c.threshold
  {
    if trace == [] then []
    else
      var n := |trace| - 1;
      EndedSpells(c, trace[..n]) + LastEnded(c, trace[..n], trace[n])
  }

  /** The outage that the last attempt ends, if any. */
  function LastEnded(c: Config, front: seq<Attempt>, a: Attempt): seq<Spell>
    requires 0 < c.threshold
  {
    var r := FailRun(front);
    if a.ok && r >= c.threshold then [SpellOf(c, front, |front| - r, Some(a.at))] else []
  }

  /** The outage made by the last r attempts, all failed. */
  function OpenFrom(c: Config, trace: seq<Attempt>, r: nat): seq<Spell>
    requires 0 < c.threshold && r <= |trace|
  {
    if r >= c.threshold then [SpellOf(c, trace, |trace| - r, None)] else []
  }

  /** The outage still going on, if any. */
  function OpenSpell(c: Config, trace: seq<Attempt>): seq<Spell>
    requires 0 < c.threshold
  {
    OpenFrom(c, trace, FailRun(trace))
  }

  /** The short cut made by the failures from i to j excluded: between these bounds, in nanoseconds. */
  function MinLength(trace: seq<Attempt>, i: nat, j: nat): int
    requires i < j < |trace|
  {
    trace[j - 1].at - trace[i].at
  }

  function MaxLength(c: Config, trace: seq<Attempt>, i: nat, j: nat): int
    requires i < j < |trace|
  {
    trace[j].at - if i == 0 then trace[i].at - c.interval else trace[i - 1].at
  }

  function ShortCut(c: Config, trace: seq<Attempt>, i: nat, j: nat): MicroCut
    requires i + 1 < j < |trace|
  {
    MicroCut(trace[i].at, MinLength(trace, i, j), MaxLength(c, trace, i, j), trace[i + 1].nature)
  }

  predicate Short(c: Config, r: int) {
    Micro(c) && 2 <= r < c.threshold
  }

  /** The short cut that the last attempt ends, if any. */
  function LastCut(c: Config, front: seq<Attempt>, a: Attempt): seq<MicroCut> {
    var r := FailRun(front);
    if a.ok && Short(c, r) then [ShortCut(c, front + [a], |front| - r, |front|)] else []
  }

  /** The short cuts: one for each run of two failures or more too short for an outage. */
  function ShortCuts(c: Config, trace: seq<Attempt>): seq<MicroCut> {
    if trace == [] then []
    else
      var n := |trace| - 1;
      ShortCuts(c, trace[..n]) + LastCut(c, trace[..n], trace[n])
  }

  function Recorded(cuts: map<int, Cut>, list: seq<MicroCut>): map<int, Cut> {
    if list == [] then cuts else WithCut(Recorded(cuts, list[..|list| - 1]), list[|list| - 1])
  }

  /** The rows of outages, in whole seconds. */
  function Rounded(spells: seq<Spell>): seq<Spell> {
    seq(|spells|, i requires 0 <= i < |spells| => Round(spells[i]))
  }

  function Round(s: Spell): Spell {
    Spell(Seconds(s.start), if s.end.None? then None else Some(Seconds(s.end.value)), s.nature)
  }

  function SpellOfRow(r: Row): Spell {
    Spell(r.start, r.end, r.nature)
  }

  function Spells(rows: seq<Row>): seq<Spell> {
    seq(|rows|, i requires 0 <= i < |rows| => SpellOfRow(rows[i]))
  }

  /** The attempts of a trace, one after the other, by a program that has just started. */
  function FollowAll(c: Config, t: Tables, trace: seq<Attempt>): Status {
    if trace == [] then Status(FRESH, t) else Follow(c, FollowAll(c, t, trace[..|trace| - 1]), trace[|trace| - 1])
  }

  // ------------------------------------------------------- the watch of a run

  /** The clock does not go back. */
  ghost predicate Timed(trace: seq<Attempt>) {
    forall i, j :: 0 <= i < j < |trace| ==> trace[i].at <= trace[j].at
  }

  /** What the program remembers is the run of failures now going on. */
  predicate Watches(c: Config, w: Watch, trace: seq<Attempt>) {
    var n, r := |trace|, FailRun(trace);
    && w.failures == r
    && (r > 0 ==> w.firstFail == trace[n - r].at && w.lastFail == trace[n - 1].at)
    && w.lastOK == (if r == n then None else Some(trace[n - r - 1].at))
    && (Micro(c) && r >= 2 && c.threshold >= 2 ==> w.nature == trace[n - r + 1].nature)
    && (w.open.Some? <==> r >= c.threshold)
  }

  lemma RunAppend(trace: seq<Attempt>, a: Attempt)
    ensures FailRun(trace + [a]) == if a.ok then 0 else 1 + FailRun(trace)
  {
    assert (trace + [a])[..|trace|] == trace;
  }

  lemma WatchesStep(c: Config, s: Status, trace: seq<Attempt>, a: Attempt)
    requires 0 < c.threshold && Watches(c, s.w, trace)
    ensures Watches(c, Follow(c, s, a).w, trace + [a])
  {
    RunAppend(trace, a);
  }

  ghost predicate RowTable(rows: seq<Row>) {
    forall i, j :: 0 <= i < j < |rows| ==> rows[i].id < rows[j].id
  }

  lemma OpenedTable(rows: seq<Row>, start: int, n: Nature)
    requires RowTable(rows)
    ensures RowTable(Opened(rows, start, n))
  {
    assert forall i :: 0 <= i < |rows| - 1 ==> rows[i].id < rows[|rows| - 1].id;
  }

  /** Closing the last row leaves the others as they were. */
  lemma ClosedLast(rows: seq<Row>, end: int)
    requires RowTable(rows) && rows != []
    ensures var n := |rows| - 1;
            && Closed(rows, rows[n].id, end) == rows[..n] + [rows[n].(end := Some(Seconds(end)))]
            && RowTable(Closed(rows, rows[n].id, end))
  {
    assert forall i :: 0 <= i < |rows| - 1 ==> rows[i].id < rows[|rows| - 1].id;
  }

  lemma SpellsAppend(rows: seq<Row>, r: Row)
    ensures Spells(rows + [r]) == Spells(rows) + [SpellOfRow(r)]
  {}

  lemma RoundedAppend(spells: seq<Spell>, s: Spell)
    ensures Rounded(spells + [s]) == Rounded(spells) + [Round(s)]
  {}

  /** The outages of the table are those of the trace, after those there were. */
  ghost predicate OutagesMatch(c: Config, s: Status, before: seq<Row>, trace: seq<Attempt>)
    requires 0 < c.threshold
  {
    && RowTable(s.t.outages)
    && Spells(s.t.outages) == Spells(before) + Rounded(EndedSpells(c, trace) + OpenSpell(c, trace))
    && (s.w.open.Some? ==> s.t.outages != [] && s.w.open.value.id == LastRow(s.t.outages))
  }

  lemma EndedAppend(c: Config, trace: seq<Attempt>, a: Attempt)
    requires 0 < c.threshold
    ensures EndedSpells(c, trace + [a]) == EndedSpells(c, trace) + LastEnded(c, trace, a)
  {
    assert (trace + [a])[..|trace|] == trace;
  }

  lemma OpenFromAppend(c: Config, trace: seq<Attempt>, a: Attempt, r: nat)
    requires 0 < c.threshold && r <= |trace|
    ensures OpenFrom(c, trace + [a], r + 1) ==
              if r + 1 < c.threshold then []
              else if r >= c.threshold then OpenFrom(c, trace, r)
              else [Spell((trace + [a])[|trace| - r].at, None, a.nature)]
  {
    if r >= c.threshold {
      assert SpellOf(c, trace + [a], (|trace| - r), None) == SpellOf(c, trace, (|trace| - r), None);
    } else if r + 1 == c.threshold {
      assert (trace + [a])[|trace|] == a;
    }
  }

  lemma OpenAppend(c: Config, trace: seq<Attempt>, a: Attempt, r: nat)
    requires 0 < c.threshold && r == FailRun(trace)
    ensures OpenSpell(c, trace + [a]) == if a.ok then [] else OpenFrom(c, trace + [a], r + 1)
  {
    RunAppend(trace, a);
  }

  lemma SuccessMatches(c: Config, s: Status, before: seq<Row>, trace: seq<Attempt>, a: Attempt)
    requires 0 < c.threshold && a.ok && Watches(c, s.w, trace) && OutagesMatch(c, s, before, trace)
    ensures OutagesMatch(c, Follow(c, s, a), before, trace + [a])
  {
    EndedAppend(c, trace, a);
    OpenAppend(c, trace, a, FailRun(trace));
    OpenFromAppend(c, trace, a, FailRun(trace));
    if s.w.open.Some? {
      var i := |trace| - FailRun(trace);
      ClosedLast(s.t.outages, a.at);
      LastEnds(s.t.outages, Spells(before), EndedSpells(c, trace), SpellOf(c, trace, i, None), a.at);
      assert EndedSpells(c, trace) + [SpellOf(c, trace, i, Some(a.at))] + [] ==
             EndedSpells(c, trace) + [SpellOf(c, trace, i, Some(a.at))];
    }
  }

  /** When the last row shows an outage that has not ended, ending both keeps them the same. */
  lemma LastEnds(rows: seq<Row>, before: seq<Spell>, ended: seq<Spell>, open: Spell, at: int)
    requires rows != [] && open.end.None? && Spells(rows) == before + Rounded(ended + [open])
    ensures var n := |rows| - 1;
            Spells(rows[..n] + [rows[n].(end := Some(Seconds(at)))]) ==
              before + Rounded(ended + [open.(end := Some(at))])
  {
    var n := |rows| - 1;
    assert rows == rows[..n] + [rows[n]];
    SpellsAppend(rows[..n], rows[n]);
    SpellsAppend(rows[..n], rows[n].(end := Some(Seconds(at))));
    RoundedAppend(ended, open);
    RoundedAppend(ended, open.(end := Some(at)));
    assert before + Rounded(ended + [open]) == (before + Rounded(ended)) + [Round(open)];
    LastSpell(Spells(rows[..n]), SpellOfRow(rows[n]), before + Rounded(ended), Round(open));
  }

  lemma LastSpell(a: seq<Spell>, x: Spell, b: seq<Spell>, y: Spell)
    requires a + [x] == b + [y]
    ensures a == b && x == y
  {
    assert |a + [x]| == |b + [y]|;
    assert (a + [x])[|a|] == x && (b + [y])[|b|] == y;
    assert (a + [x])[..|a|] == a && (b + [y])[..|b|] == b;
  }

  lemma FailureMatches(c: Config, s: Status, before: seq<Row>, trace: seq<Attempt>, a: Attempt)
    requires 0 < c.threshold && !a.ok && Watches(c, s.w, trace) && OutagesMatch(c, s, before, trace)
    ensures OutagesMatch(c, Follow(c, s, a), before, trace + [a])
  {
    EndedAppend(c, trace, a);
    OpenAppend(c, trace, a, FailRun(trace));
    OpenFromAppend(c, trace, a, FailRun(trace));
    var w := Failing(c, s.w, a);
    if w.failures == c.threshold && w.open.None? {
      OpenedTable(s.t.outages, w.firstFail, a.nature);
      LastOpens(s.t.outages, Spells(before), EndedSpells(c, trace), w.firstFail, a.nature);
    }
  }

  lemma LastOpens(rows: seq<Row>, before: seq<Spell>, ended: seq<Spell>, start: int, n: Nature)
    requires Spells(rows) == before + Rounded(ended + [])
    ensures Spells(Opened(rows, start, n)) == before + Rounded(ended + [] + [Spell(start, None, n)])
  {
    SpellsAppend(rows, Row(LastRow(rows) + 1, Seconds(start), None, n));
    RoundedAppend(ended + [], Spell(start, None, n));
    assert before + (Rounded(ended + []) + [Round(Spell(start, None, n))]) ==
           before + Rounded(ended + []) + [Round(Spell(start, None, n))];
  }

  lemma CutsAppend(c: Config, trace: seq<Attempt>, a: Attempt)
    ensures ShortCuts(c, trace + [a]) == ShortCuts(c, trace) + LastCut(c, trace, a)
  {
    assert (trace + [a])[..|trace|] == trace;
  }

  lemma RecordedAppend(cuts: map<int, Cut>, list: seq<MicroCut>, x: MicroCut)
    ensures Recorded(cuts, list + [x]) == WithCut(Recorded(cuts, list), x)
  {
    assert (list + [x])[..|list|] == list;
  }

  /** What an attempt adds to the short cuts. */
  lemma FollowCuts(c: Config, s: Status, trace: seq<Attempt>, a: Attempt)
    requires 0 < c.threshold && Timed(trace + [a]) && Watches(c, s.w, trace)
    ensures var last := LastCut(c, trace, a);
            Follow(c, s, a).t.cuts == if last == [] then s.t.cuts else WithCut(s.t.cuts, last[0])
  {
    if a.ok && Short(c, FailRun(trace)) {
      var all, i := trace + [a], |trace| - FailRun(trace);
      assert i > 0 ==> all[i - 1].at <= all[i].at;
      CutIsShort(c, s.w, trace, a, i);
    }
  }

  lemma CutIsShort(c: Config, w: Watch, trace: seq<Attempt>, a: Attempt, i: nat)
    requires 0 < c.threshold && Watches(c, w, trace) && Short(c, FailRun(trace))
    requires i == |trace| - FailRun(trace) && (i > 0 ==> trace[i - 1].at <= trace[i].at)
    ensures CutOf(c, w, a.at) == ShortCut(c, trace + [a], i, |trace|)
  {
    CutFrom(c, w, trace, a, i, |trace|);
  }

  lemma CutFrom(c: Config, w: Watch, trace: seq<Attempt>, a: Attempt, i: nat, n: nat)
    requires n == |trace| && i + 1 < n
    requires w.firstFail == trace[i].at && w.lastFail == trace[n - 1].at && w.nature == trace[i + 1].nature
    requires if i == 0 then w.lastOK.None? else w.lastOK == Some(trace[i - 1].at) && trace[i - 1].at <= trace[i].at
    ensures CutOf(c, w, a.at) == ShortCut(c, trace + [a], i, n)
  {}

  lemma CutsMatch(c: Config, s: Status, before: map<int, Cut>, trace: seq<Attempt>, a: Attempt)
    requires 0 < c.threshold && Timed(trace + [a]) && Watches(c, s.w, trace)
    requires s.t.cuts == Recorded(before, ShortCuts(c, trace))
    ensures Follow(c, s, a).t.cuts == Recorded(before, ShortCuts(c, trace + [a]))
  {
    CutsAppend(c, trace, a);
    FollowCuts(c, s, trace, a);
    var list, last := ShortCuts(c, trace), LastCut(c, trace, a);
    if last == [] {
      assert list + last == list;
    } else {
      assert last == [last[0]];
      RecordedAppend(before, list, last[0]);
    }
  }

  /** The program and its tables are what the trace says they should be. */
  ghost predicate Match(c: Config, s: Status, t: Tables, trace: seq<Attempt>)
    requires 0 < c.threshold
  {
    && Watches(c, s.w, trace)
    && OutagesMatch(c, s, t.outages, trace)
    && s.t.cuts == Recorded(t.cuts, ShortCuts(c, trace))
  }

  lemma MatchStep(c: Config, s: Status, t: Tables, trace: seq<Attempt>, a: Attempt)
    requires 0 < c.threshold && Timed(trace + [a]) && Match(c, s, t, trace)
    ensures Match(c, Follow(c, s, a), t, trace + [a])
  {
    WatchesStep(c, s, trace, a);
    CutsMatch(c, s, t.cuts, trace, a);
    if a.ok {
      SuccessMatches(c, s, t.outages, trace, a);
    } else {
      FailureMatches(c, s, t.outages, trace, a);
    }
  }

  lemma MatchStart(c: Config, t: Tables)
    requires 0 < c.threshold && RowTable(t.outages)
    ensures Match(c, Status(FRESH, t), t, [])
  {
    assert Spells(t.outages) + [] == Spells(t.outages);
  }

  /**
   * For every trace, the tables are those of its runs of failures: nothing for
   * one failure, a short cut from two to the threshold, an outage from the
   * threshold on, which ends at the next success.
   */
  lemma {:induction false} TablesAreRuns(c: Config, t: Tables, trace: seq<Attempt>)
    requires 0 < c.threshold && Timed(trace) && RowTable(t.outages)
    ensures Match(c, FollowAll(c, t, trace), t, trace)
  {
    if trace == [] {
      MatchStart(c, t);
    } else {
      var front, a := trace[..|trace| - 1], trace[|trace| - 1];
      assert trace == front + [a];
      TablesAreRuns(c, t, front);
      MatchStep(c, FollowAll(c, t, front), t, front, a);
    }
  }

  // ----------------------------------------------- the runs, without recursion

  /** The failures up to the end start at i when the attempt before it succeeded. */
  lemma {:induction false} FailRunFrom(trace: seq<Attempt>, i: nat)
    requires i <= |trace| && (forall k :: i <= k < |trace| ==> !trace[k].ok) && (i > 0 ==> trace[i - 1].ok)
    ensures FailRun(trace) == |trace| - i
  {
    if i < |trace| {
      FailRunFrom(trace[..|trace| - 1], i);
    }
  }

  /** The runs ended within a front are those of the front. */
  lemma RunOfFront(trace: seq<Attempt>, n: nat, i: nat, j: nat)
    requires n <= |trace| && j < n
    ensures EndedRun(trace[..n], i, j) <==> EndedRun(trace, i, j)
  {}

  /** A run that the last attempt ends is the one going on before it. */
  lemma LastRun(trace: seq<Attempt>, i: nat)
    requires trace != []
    ensures var n := |trace| - 1;
            EndedRun(trace, i, n) <==> trace[n].ok && FailRun(trace[..n]) > 0 && i == n - FailRun(trace[..n])
  {
    var n := |trace| - 1;
    var front := trace[..n];
    FailRunIsMaximal(front);
    if EndedRun(trace, i, n) {
      FailRunFrom(front, i);
    }
  }

  predicate LongRun(c: Config, trace: seq<Attempt>, i: nat, j: nat)
    requires 0 < c.threshold
  {
    EndedRun(trace, i, j) && j - i >= c.threshold
  }

  ghost predicate SpellOfRun(c: Config, trace: seq<Attempt>, x: Spell)
    requires 0 < c.threshold
  {
    exists i: nat, j: nat :: LongRun(c, trace, i, j) && x == SpellOf(c, trace, i, Some(trace[j].at))
  }

  lemma {:induction false} SpellIsRun(c: Config, trace: seq<Attempt>, x: Spell)
    requires 0 < c.threshold && x in EndedSpells(c, trace)
    ensures SpellOfRun(c, trace, x)
  {
    var n := |trace| - 1;
    var front := trace[..n];
    if x in EndedSpells(c, front) {
      SpellIsRun(c, front, x);
      var i: nat, j: nat :| LongRun(c, front, i, j) && x == SpellOf(c, front, i, Some(front[j].at));
      RunOfFront(trace, n, i, j);
      assert SpellOf(c, trace[..n], i, Some(front[j].at)) == SpellOf(c, trace, i, Some(front[j].at));
      assert LongRun(c, trace, i, j);
    } else {
      var k := n - FailRun(front);
      LastRun(trace, k);
      assert SpellOf(c, trace[..n], k, Some(trace[n].at)) == SpellOf(c, trace, k, Some(trace[n].at));
      assert LongRun(c, trace, k, n);
    }
  }

  lemma {:induction false} RunIsSpell(c: Config, trace: seq<Attempt>, i: nat, j: nat)
    requires 0 < c.threshold && LongRun(c, trace, i, j)
    ensures SpellOf(c, trace, i, Some(trace[j].at)) in EndedSpells(c, trace)
  {
    var n := |trace| - 1;
    assert SpellOf(c, trace[..n], i, Some(trace[j].at)) == SpellOf(c, trace, i, Some(trace[j].at));
    if j < n {
      RunOfFront(trace, n, i, j);
      RunIsSpell(c, trace[..n], i, j);
    } else {
      LastRun(trace, i);
    }
  }

  /**
   * The outages ended are exactly the runs of failures as long as the
   * threshold, from their first failure to the success that ends them.
   */
  lemma SpellsAreRuns(c: Config, trace: seq<Attempt>, x: Spell)
    requires 0 < c.threshold
    ensures x in EndedSpells(c, trace) <==> SpellOfRun(c, trace, x)
  {
    if x in EndedSpells(c, trace) {
      SpellIsRun(c, trace, x);
    }
    if SpellOfRun(c, trace, x) {
      var i: nat, j: nat :| LongRun(c, trace, i, j) && x == SpellOf(c, trace, i, Some(trace[j].at));
      RunIsSpell(c, trace, i, j);
    }
  }

  predicate ShortRun(c: Config, trace: seq<Attempt>, i: nat, j: nat) {
    EndedRun(trace, i, j) && Short(c, j - i)
  }

  ghost predicate CutOfRun(c: Config, trace: seq<Attempt>, m: MicroCut) {
    exists i: nat, j: nat :: ShortRun(c, trace, i, j) && m == ShortCut(c, trace, i, j)
  }

  lemma {:induction false} CutIsRun(c: Config, trace: seq<Attempt>, m: MicroCut)
    requires m in ShortCuts(c, trace)
    ensures CutOfRun(c, trace, m)
  {
    var n := |trace| - 1;
    var front := trace[..n];
    if m in ShortCuts(c, front) {
      CutIsRun(c, front, m);
      var i: nat, j: nat :| ShortRun(c, front, i, j) && m == ShortCut(c, front, i, j);
      RunOfFront(trace, n, i, j);
      assert ShortCut(c, trace[..n], i, j) == ShortCut(c, trace, i, j);
      assert ShortRun(c, trace, i, j);
    } else {
      assert front + [trace[n]] == trace;
      LastRun(trace, n - FailRun(front));
      assert ShortRun(c, trace, n - FailRun(front), n);
    }
  }

  lemma {:induction false} RunIsCut(c: Config, trace: seq<Attempt>, i: nat, j: nat)
    requires ShortRun(c, trace, i, j)
    ensures ShortCut(c, trace, i, j) in ShortCuts(c, trace)
  {
    var n := |trace| - 1;
    if j < n {
      RunOfFront(trace, n, i, j);
      assert ShortCut(c, trace[..n], i, j) == ShortCut(c, trace, i, j);
      RunIsCut(c, trace[..n], i, j);
    } else {
      LastRun(trace, i);
      assert trace[..n] + [trace[n]] == trace;
    }
  }

  /** The short cuts are exactly the runs of two failures or more shorter than the threshold. */
  lemma CutsAreRuns(c: Config, trace: seq<Attempt>, m: MicroCut)
    ensures m in ShortCuts(c, trace) <==> CutOfRun(c, trace, m)
  {
    if m in ShortCuts(c, trace) {
      CutIsRun(c, trace, m);
    }
    if CutOfRun(c, trace, m) {
      var i: nat, j: nat :| ShortRun(c, trace, i, j) && m == ShortCut(c, trace, i, j);
      RunIsCut(c, trace, i, j);
    }
  }

  // --------------------------------------------------- how long a short cut is

  /** The bounds of a short cut are in order, in nanoseconds as in the seconds stored. */
  lemma BoundsInOrder(c: Config, trace: seq<Attempt>, i: nat, j: nat)
    requires Timed(trace) && c.interval > 0 && i + 1 < j < |trace|
    ensures 0 <= MinLength(trace, i, j) <= MaxLength(c, trace, i, j)
    ensures CutRow(ShortCut(c, trace, i, j)).min <= CutRow(ShortCut(c, trace, i, j)).max
  {
    assert trace[i].at <= trace[j - 1].at <= trace[j].at;
    assert i > 0 ==> trace[i - 1].at <= trace[i].at;
    assert Whole(MinLength(trace, i, j)) <= Whole(MaxLength(c, trace, i, j));
  }

  /** Attempts exactly an interval apart. */
  predicate Even(c: Config, trace: seq<Attempt>) {
    forall k :: 0 < k < |trace| ==> trace[k].at == trace[k - 1].at + c.interval
  }

  lemma {:induction false} EvenSpan(c: Config, trace: seq<Attempt>, i: nat, k: nat)
    requires Even(c, trace) && i <= k < |trace|
    ensures trace[k].at - trace[i].at == (k - i) * c.interval
    decreases k
  {
    if i < k {
      EvenSpan(c, trace, i, k - 1);
      assert (k - 1 - i) * c.interval + c.interval == (k - i) * c.interval;
    }
  }

  lemma Product(m: int, n: int, d: int)
    requires m <= n && d > 0
    ensures m * d <= n * d
  {
    assert (n - m) * d >= 0;
  }

  /** The default threshold lasts no more than ninety seconds and an interval. */
  lemma DefaultThreshold(interval: int)
    requires 0 < interval <= MICRO_MAX_INTERVAL
    ensures var c := Normalized(Config(interval, 0));
            c.interval == interval && c.threshold * interval < OUTAGE_AFTER + interval
  {
    var enough := (OUTAGE_AFTER + interval - 1) / interval;
    assert enough * interval <= OUTAGE_AFTER + interval - 1;
    if enough < 3 {
      assert (OUTAGE_AFTER + interval - 1) < (enough + 1) * interval;
      Product(enough + 1, 3, interval);
    }
  }

  /**
   * With attempts exactly an interval apart the bounds are two intervals
   * apart, and the longest short cut is under ninety seconds and an interval.
   */
  lemma EvenBounds(interval: int, trace: seq<Attempt>, i: nat, j: nat)
    requires 0 < interval <= 30 * SECOND
    requires var c := Normalized(Config(interval, 0));
             Even(c, trace) && ShortRun(c, trace, i, j)
    ensures var c := Normalized(Config(interval, 0));
            && MaxLength(c, trace, i, j) - MinLength(trace, i, j) == 2 * interval
            && MaxLength(c, trace, i, j) < 90 * SECOND + interval
  {
    var c := Normalized(Config(interval, 0));
    DefaultThreshold(interval);
    EvenSpan(c, trace, i, j - 1);
    Product(j - 1 - i + 2, c.threshold, interval);
    assert (j - 1 - i) * interval + 2 * interval == (j - 1 - i + 2) * interval;
  }

  // ------------------------------------------------------- a row for every cut

  /** Attempts a second apart at least. */
  ghost predicate Apart(trace: seq<Attempt>) {
    forall i, j :: 0 <= i < j < |trace| ==> trace[i].at + SECOND <= trace[j].at
  }

  ghost predicate StartsApart(list: seq<MicroCut>) {
    forall i, j :: 0 <= i < j < |list| ==> list[i].start + SECOND <= list[j].start
  }

  lemma {:induction false} CutsApart(c: Config, trace: seq<Attempt>)
    requires Apart(trace)
    ensures StartsApart(ShortCuts(c, trace))
  {
    if trace != [] {
      var n := |trace| - 1;
      var front, k := trace[..n], n - FailRun(trace[..n]);
      CutsApart(c, front);
      if trace[n].ok && Short(c, FailRun(front)) {
        var list := ShortCuts(c, front);
        forall x | 0 <= x < |list|
          ensures list[x].start + SECOND <= trace[k].at
        {
          CutBefore(c, front, list[x], k);
        }
      }
    }
  }

  /** A cut that has ended started before the run now going on. */
  lemma CutBefore(c: Config, front: seq<Attempt>, m: MicroCut, k: nat)
    requires Apart(front) && m in ShortCuts(c, front) && k == |front| - FailRun(front) < |front|
    ensures m.start + SECOND <= front[k].at
  {
    CutIsRun(c, front, m);
    var i: nat, j: nat :| ShortRun(c, front, i, j) && m == ShortCut(c, front, i, j);
    FailRunIsMaximal(front);
    assert j < k;
  }

  lemma {:induction false} RecordedHolds(cuts: map<int, Cut>, list: seq<MicroCut>)
    requires StartsApart(list) && forall i :: 0 <= i < |list| ==> Seconds(list[i].start) !in cuts
    ensures forall i :: 0 <= i < |list| ==>
              Seconds(list[i].start) in Recorded(cuts, list)
              && Recorded(cuts, list)[Seconds(list[i].start)] == CutRow(list[i])
    ensures forall k :: k in Recorded(cuts, list) ==> k in cuts || exists i :: 0 <= i < |list| && k == Seconds(list[i].start)
  {
    if list != [] {
      var n := |list| - 1;
      RecordedHolds(cuts, list[..n]);
      forall i | 0 <= i < n
        ensures Seconds(list[i].start) < Seconds(list[n].start)
      {
        assert list[i].start + SECOND <= list[n].start;
      }
    }
  }

  /** With attempts a second apart every short cut gets its own row, with its own bounds. */
  lemma EveryCutHasItsRow(c: Config, t: Tables, trace: seq<Attempt>, i: nat, j: nat)
    requires 0 < c.threshold && Apart(trace) && RowTable(t.outages) && ShortRun(c, trace, i, j)
    requires forall k :: 0 <= k < |trace| ==> Seconds(trace[k].at) !in t.cuts
    ensures var m, cuts := ShortCut(c, trace, i, j), FollowAll(c, t, trace).t.cuts;
            Seconds(m.start) in cuts && cuts[Seconds(m.start)] == CutRow(m)
  {
    TablesAreRuns(c, t, trace);
    CutsApart(c, trace);
    var list := ShortCuts(c, trace);
    forall x | 0 <= x < |list|
      ensures Seconds(list[x].start) !in t.cuts
    {
      CutIsRun(c, trace, list[x]);
    }
    RecordedHolds(t.cuts, list);
    RunIsCut(c, trace, i, j);
  }
}
