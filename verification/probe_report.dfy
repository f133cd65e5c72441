/**
 * What the probe reports, in figures: which failures make an outage with the
 * default settings, what the journal tells of them, which short cuts make a
 * burst (internal/probe/probe.go).
 */
module ProbeReports {
  import opened FailureRuns
  import opened Journals
  import opened Probes
  import opened Wrappers

  // -------------------------------------------------------------- settings

  /**
   * What is set is kept. Otherwise an attempt is made every five seconds, and
   * an outage takes the fewest failures in a row, three at least, that last
   * ninety seconds.
   */
  lemma SettingsMeaning(c: Config)
    ensures var r := Normalized(c);
            && r.interval == (if c.interval > 0 then c.interval else 5 * SECOND)
            && (c.threshold > 0 ==> r.threshold == c.threshold)
            && (c.threshold <= 0 ==>
                  && r.threshold >= 3 && r.threshold * r.interval >= 90 * SECOND
                  && (r.threshold == 3 || (r.threshold - 1) * r.interval < 90 * SECOND))
  {
    if c.threshold <= 0 {
      CeilingDivision(90 * SECOND, Normalized(c).interval);
      Product(3, Normalized(c).threshold, Normalized(c).interval);
    }
  }

  /** The least number of times d that makes x. */
  lemma CeilingDivision(x: int, d: int)
    requires d > 0
    ensures var q := (x + d - 1) / d;
            && q * d >= x && (q - 1) * d < x
            && forall n: int | n >= q :: n * d >= x
  {
    var q := (x + d - 1) / d;
    assert q * d <= x + d - 1 < (q + 1) * d;
    MulDistribute(q, 1, d);
    MulDistribute(q, -1, d);
    forall n: int | n >= q
      ensures n * d >= x
    {
      Product(q, n, d);
    }
  }

  /** With attempts an interval apart, the failures of a run last ninety seconds exactly when they reach the threshold. */
  lemma NinetySeconds(c: Config, trace: seq<Attempt>, i: nat, j: nat)
    requires c.threshold <= 0 && Even(Normalized(c), trace) && i < j < |trace|
    ensures j - i >= Normalized(c).threshold <==> j - i >= 3 && trace[j].at - trace[i].at >= 90 * SECOND
  {
    var r := Normalized(c);
    SettingsMeaning(c);
    EvenSpan(r, trace, i, j);
    if j - i >= r.threshold {
      Product(r.threshold, j - i, r.interval);
    } else {
      Product(j - i, r.threshold - 1, r.interval);
    }
  }

  /** An outage from the attempt i to the attempt j. */
  ghost predicate OutageMade(c: Config, trace: seq<Attempt>, i: nat, j: nat)
    requires 0 < c.threshold && i < |trace| && j < |trace|
  {
    exists n: Nature :: Spell(trace[i].at, Some(trace[j].at), n) in EndedSpells(c, trace)
  }

  /** The short cut of the failures from i to j excluded. */
  ghost predicate CutMade(c: Config, trace: seq<Attempt>, i: nat, j: nat)
    requires i < j < |trace|
  {
    i + 1 < j && ShortCut(c, trace, i, j) in ShortCuts(c, trace)
  }

  lemma EvenApart(c: Config, trace: seq<Attempt>, i: nat, j: nat)
    requires c.interval > 0 && Even(c, trace) && i < |trace| && j < |trace|
    ensures trace[i].at == trace[j].at <==> i == j
  {
    if i <= j {
      EvenSpan(c, trace, i, j);
      Product(if i == j then 0 else 1, j - i, c.interval);
    } else {
      EvenSpan(c, trace, j, i);
      Product(1, i - j, c.interval);
    }
  }

  lemma SpellMade(c: Config, trace: seq<Attempt>, i: nat, j: nat)
    requires 0 < c.threshold && c.interval > 0 && Even(c, trace) && EndedRun(trace, i, j)
    ensures OutageMade(c, trace, i, j) <==> j - i >= c.threshold
  {
    if j - i >= c.threshold {
      RunIsSpell(c, trace, i, j);
    }
    if n: Nature :| Spell(trace[i].at, Some(trace[j].at), n) in EndedSpells(c, trace) {
      var x := Spell(trace[i].at, Some(trace[j].at), n);
      SpellIsRun(c, trace, x);
      var k: nat, m: nat :| LongRun(c, trace, k, m) && x == SpellOf(c, trace, k, Some(trace[m].at));
      EvenApart(c, trace, i, k);
      EvenApart(c, trace, j, m);
    }
  }

  lemma RunStart(trace: seq<Attempt>, i: nat, j: nat, k: nat, m: nat)
    requires EndedRun(trace, i, j) && EndedRun(trace, k, m) && i == k
    ensures j == m
  {}

  lemma ShortMade(c: Config, trace: seq<Attempt>, i: nat, j: nat)
    requires c.interval > 0 && Even(c, trace) && EndedRun(trace, i, j)
    ensures CutMade(c, trace, i, j) <==> c.interval <= 30 * SECOND && 2 <= j - i < c.threshold
  {
    if ShortRun(c, trace, i, j) {
      RunIsCut(c, trace, i, j);
    }
    if CutMade(c, trace, i, j) {
      var m := ShortCut(c, trace, i, j);
      CutIsRun(c, trace, m);
      var k: nat, n: nat :| ShortRun(c, trace, k, n) && m == ShortCut(c, trace, k, n);
      EvenApart(c, trace, i, k);
      RunStart(trace, i, j, k, n);
    }
  }

  /**
   * With the default threshold and attempts an interval apart: a run of
   * failures makes an outage exactly when there are three at least and the
   * answer comes back ninety seconds or more after the first; otherwise it
   * makes a short cut exactly when there are two at least and attempts are no
   * more than thirty seconds apart.
   */
  lemma OutageFromNinetySeconds(c: Config, trace: seq<Attempt>, i: nat, j: nat)
    requires c.threshold <= 0 && Even(Normalized(c), trace) && EndedRun(trace, i, j)
    ensures var long := j - i >= 3 && trace[j].at - trace[i].at >= 90 * SECOND;
            && (OutageMade(Normalized(c), trace, i, j) <==> long)
            && (CutMade(Normalized(c), trace, i, j) <==> !long && j - i >= 2 && Normalized(c).interval <= 30 * SECOND)
  {
    SpellMade(Normalized(c), trace, i, j);
    ShortMade(Normalized(c), trace, i, j);
    NinetySeconds(c, trace, i, j);
  }

  // -------------------------------------------------------------- the journal

  /** What the journal tells of outages. */
  function OutageNews(log: seq<Entry>): seq<Entry> {
    if log == [] then []
    else
      var e := log[|log| - 1];
      OutageNews(log[..|log| - 1]) + if e.kind == Outage || e.kind == OutageEnd then [e] else []
  }

  /** What it should tell of one: where it starts, a warning if only the local network is down, and where it ends. */
  function NewsOf(x: Spell): seq<Entry> {
    [Entry(x.start, Outage, if x.nature == Local then Warning else Critical)]
    + if x.end.None? then [] else [Entry(x.end.value, OutageEnd, Good)]
  }

  function NewsOfAll(spells: seq<Spell>): seq<Entry> {
    if spells == [] then [] else NewsOfAll(spells[..|spells| - 1]) + NewsOf(spells[|spells| - 1])
  }

  lemma NewsAppend(log: seq<Entry>, e: Entry)
    ensures OutageNews(log + [e]) == OutageNews(log) + if e.kind == Outage || e.kind == OutageEnd then [e] else []
  {
    assert (log + [e])[..|log|] == log;
  }

  lemma NewsOfAppend(spells: seq<Spell>, x: Spell)
    ensures NewsOfAll(spells + [x]) == NewsOfAll(spells) + NewsOf(x)
  {
    assert (spells + [x])[..|spells|] == spells;
  }

  /** What a step tells, from what the watch says of the run going on. */
  lemma StepNews(c: Config, s: Status, a: Attempt)
    ensures OutageNews(Follow(c, s, a).t.log) ==
            OutageNews(s.t.log)
            + if a.ok && s.w.open.Some? then [Entry(a.at, OutageEnd, Good)]
              else if !a.ok && s.w.failures + 1 == c.threshold && s.w.open.None? then
                [Entry(if s.w.failures == 0 then a.at else s.w.firstFail, Outage, if a.nature == Local then Warning else Critical)]
              else []
  {
    var at := if s.w.failures == 0 then a.at else s.w.firstFail;
    NewsAppend(s.t.log, Entry(a.at, OutageEnd, Good));
    NewsAppend(s.t.log, Entry(at, Outage, LevelOf(a.nature)));
    NewsAppend(s.t.log, Entry(a.at, MicroBurst, Warning));
    assert s.t.log + [] == s.t.log && OutageNews(s.t.log) + [] == OutageNews(s.t.log);
  }

  /** What a trace should tell. */
  function NewsOfTrace(c: Config, trace: seq<Attempt>): seq<Entry>
    requires 0 < c.threshold
  {
    NewsOfAll(EndedSpells(c, trace)) + NewsOfAll(OpenSpell(c, trace))
  }

  /** What one attempt more should tell. */
  function AttemptNews(c: Config, trace: seq<Attempt>, a: Attempt): seq<Entry> {
    var r := FailRun(trace);
    if a.ok && r >= c.threshold then [Entry(a.at, OutageEnd, Good)]
    else if !a.ok && r + 1 == c.threshold then
      [Entry(if r == 0 then a.at else trace[|trace| - r].at, Outage, if a.nature == Local then Warning else Critical)]
    else []
  }

  lemma NewsOfNone()
    ensures NewsOfAll([]) == []
  {}

  lemma NewsOfOne(x: Spell)
    ensures NewsOfAll([x]) == NewsOf(x)
  {
    assert [x][..0] == [];
    assert [] + NewsOf(x) == NewsOf(x);
  }

  /** An outage that ends was told when it started. */
  lemma EndOfSpell(ended: seq<Spell>, x: Spell, at: int)
    requires x.end.None?
    ensures NewsOfAll(ended + [x.(end := Some(at))]) == NewsOfAll(ended) + NewsOfAll([x]) + [Entry(at, OutageEnd, Good)]
  {
    var y := x.(end := Some(at));
    NewsOfAppend(ended, y);
    NewsOfOne(x);
    Nothing([Entry(x.start, Outage, if x.nature == Local then Warning else Critical)]);
    ConcatAssociative(NewsOfAll(ended), NewsOf(x), [Entry(at, OutageEnd, Good)]);
  }

  lemma SuccessNews(c: Config, trace: seq<Attempt>, a: Attempt)
    requires 0 < c.threshold && a.ok
    ensures NewsOfTrace(c, trace + [a]) == NewsOfTrace(c, trace) + AttemptNews(c, trace, a)
  {
    var r, ended := FailRun(trace), EndedSpells(c, trace);
    EndedAppend(c, trace, a);
    OpenAppend(c, trace, a, r);
    NewsOfNone();
    Nothing(NewsOfAll(EndedSpells(c, trace + [a])));
    if r >= c.threshold {
      EndOfSpell(ended, SpellOf(c, trace, |trace| - r, None), a.at);
    } else {
      assert ended + [] == ended;
      Nothing(NewsOfAll(ended));
    }
  }

  lemma FailureNews(c: Config, trace: seq<Attempt>, a: Attempt)
    requires 0 < c.threshold && !a.ok
    ensures NewsOfTrace(c, trace + [a]) == NewsOfTrace(c, trace) + AttemptNews(c, trace, a)
  {
    var r, ended := FailRun(trace), EndedSpells(c, trace);
    EndedAppend(c, trace, a);
    assert ended + [] == ended;
    OpenAppend(c, trace, a, r);
    OpenFromAppend(c, trace, a, r);
    NewsOfNone();
    if r + 1 == c.threshold {
      var at := (trace + [a])[|trace| - r].at;
      NewsOfOne(Spell(at, None, a.nature));
      Nothing(NewsOfAll(ended));
      Nothing([Entry(at, Outage, if a.nature == Local then Warning else Critical)]);
    } else {
      Nothing(NewsOfTrace(c, trace));
    }
  }

  lemma WatchedNews(c: Config, s: Status, trace: seq<Attempt>, a: Attempt)
    requires 0 < c.threshold && Watches(c, s.w, trace)
    ensures OutageNews(Follow(c, s, a).t.log) == OutageNews(s.t.log) + AttemptNews(c, trace, a)
  {
    StepNews(c, s, a);
  }

  /**
   * For every trace the journal tells of each outage, in order, where it
   * starts and where it ends, and of nothing else.
   */
  lemma {:induction false} NewsAreRuns(c: Config, t: Tables, trace: seq<Attempt>)
    requires 0 < c.threshold && Timed(trace) && RowTable(t.outages)
    ensures OutageNews(FollowAll(c, t, trace).t.log) == OutageNews(t.log) + NewsOfTrace(c, trace)
  {
    if trace == [] {
      NewsOfNone();
      Nothing<Entry>([]);
      Nothing(OutageNews(t.log));
    } else {
      var front, a := trace[..|trace| - 1], trace[|trace| - 1];
      assert trace == front + [a];
      NewsAreRuns(c, t, front);
      TablesAreRuns(c, t, front);
      WatchedNews(c, FollowAll(c, t, front), front, a);
      if a.ok {
        SuccessNews(c, front, a);
      } else {
        FailureNews(c, front, a);
      }
      ConcatAssociative(OutageNews(t.log), NewsOfTrace(c, front), AttemptNews(c, front, a));
    }
  }

  // ---------------------------------------------------------------- the bursts

  lemma {:induction false} LastBurstGreatest(log: seq<Entry>)
    ensures match LastBurst(log)
            case None => forall e | e in log :: e.kind != MicroBurst
            case Some(d) => (exists e :: e in log && e.kind == MicroBurst && Seconds(e.at) == d)
                            && forall e | e in log && e.kind == MicroBurst :: Seconds(e.at) <= d
  {
    if log != [] {
      var front := log[..|log| - 1];
      LastBurstGreatest(front);
      assert log == front + [log[|log| - 1]];
    }
  }

  /**
   * A short cut that ends tells of a burst exactly when, itself included, five
   * short cuts started in the hour before its end, and no burst was told in
   * that hour.
   */
  lemma BurstTold(c: Config, s: Status, a: Attempt)
    requires a.ok && s.w.open.None? && c.interval <= 30 * SECOND && 2 <= s.w.failures < c.threshold
    ensures var next := Follow(c, s, a).t;
            var recent := set k | k in next.cuts && Seconds(a.at - 3600 * SECOND) <= k < Seconds(a.at + SECOND);
            next.log == s.t.log +
              if |recent| >= 5 && forall e | e in s.t.log && e.kind == MicroBurst :: a.at - Seconds(e.at) * SECOND >= 3600 * SECOND
              then [Entry(a.at, MicroBurst, Warning)] else []
  {
    LastBurstGreatest(s.t.log);
    var next := Follow(c, s, a).t;
    assert Recent(next.cuts, Seconds(a.at - 3600 * SECOND), Seconds(a.at + SECOND)) ==
           set k | k in next.cuts && Seconds(a.at - 3600 * SECOND) <= k < Seconds(a.at + SECOND);
  }

  // -------------------------------------------------- the row of a short cut

  /** The row of a short cut: its bounds in whole seconds, below what they are, and the cause found at its second failure. */
  lemma CutRowIs(c: Config, trace: seq<Attempt>, i: nat, j: nat)
    requires Timed(trace) && c.interval > 0 && i + 1 < j < |trace|
    ensures var row := CutRow(ShortCut(c, trace, i, j));
            && row.min * SECOND <= trace[j - 1].at - trace[i].at < (row.min + 1) * SECOND
            && row.max * SECOND <= trace[j].at - (if i == 0 then trace[i].at - c.interval else trace[i - 1].at) < (row.max + 1) * SECOND
            && row.nature == trace[i + 1].nature
  {
    BoundsInOrder(c, trace, i, j);
  }
}
