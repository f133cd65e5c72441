/**
 * Errors counted over counters that restart from zero: the increase between
 * two observations (internal/docsis/types.go) and the three streaming sums
 * built on it (internal/store/errors.go, internal/store/timeline.go,
 * internal/events/detect.go).
 */
module Counters {
  import Wrappers

  /** The increase of a cumulative counter; one that went down was reset, its value is the increase. */
  function CounterDelta(prev: int, cur: int): int {
    if cur >= prev then cur - prev else cur
  }

  // ------------------------------------------------------- one counter

  datatype Step = Increase(n: nat) | Reset

  /** The value of a counter after some steps. */
  function Play(v: nat, steps: seq<Step>): nat
    decreases |steps|
  {
    if steps == [] then v
    else match steps[0]
      case Increase(n) => Play(v + n, steps[1..])
      case Reset => Play(0, steps[1..])
  }

  function Increases(steps: seq<Step>): nat {
    if steps == [] then 0 else (if steps[0].Increase? then steps[0].n else 0) + Increases(steps[1..])
  }

  /** What the resets among the steps wiped out. */
  function Erased(v: nat, steps: seq<Step>): nat
    decreases |steps|
  {
    if steps == [] then 0
    else match steps[0]
      case Increase(n) => Erased(v + n, steps[1..])
      case Reset => v + Erased(0, steps[1..])
  }

  lemma {:induction false} PlayBalance(v: nat, steps: seq<Step>)
    ensures Play(v, steps) == v + Increases(steps) - Erased(v, steps)
    ensures Erased(v, steps) == 0 || Erased(v, steps) >= v
    ensures Play(v, steps) < v ==> Erased(v, steps) >= v
    ensures Reset !in steps ==> Erased(v, steps) == 0
    decreases |steps|
  {
    if steps != [] {
      match steps[0]
      case Increase(n) => PlayBalance(v + n, steps[1..]);
      case Reset => PlayBalance(0, steps[1..]);
    }
  }

  /**
   * Between two observations the increase counted never exceeds the real one,
   * and equals it exactly when what was wiped out is nothing, or just the
   * value first observed if the counter is seen to drop.
   */
  lemma DeltaAgainstReal(v: nat, steps: seq<Step>)
    ensures var cur := Play(v, steps);
            && 0 <= CounterDelta(v, cur) <= Increases(steps)
            && (CounterDelta(v, cur) == Increases(steps) <==> Erased(v, steps) == if cur < v then v else 0)
  {
    PlayBalance(v, steps);
  }

  /** The observations made after each stretch of steps, from a first one of v. */
  function Observations(v: nat, stretches: seq<seq<Step>>): seq<int>
    decreases |stretches|
  {
    if stretches == [] then [v]
    else [v] + Observations(Play(v, stretches[0]), stretches[1..])
  }

  function RealIncrease(stretches: seq<seq<Step>>): nat
    decreases |stretches|
  {
    if stretches == [] then 0 else Increases(stretches[0]) + RealIncrease(stretches[1..])
  }

  function DeltaSum(obs: seq<int>): int {
    if |obs| < 2 then 0 else CounterDelta(obs[0], obs[1]) + DeltaSum(obs[1..])
  }

  /** The values lost at each drop that was observed. */
  function LostAtDrops(obs: seq<int>): int {
    if |obs| < 2 then 0 else (if obs[1] < obs[0] then obs[0] else 0) + LostAtDrops(obs[1..])
  }

  /** Over any history, the sum of the increases counted never exceeds the real increase; without reset it equals it. */
  lemma {:induction false} SumAgainstReal(v: nat, stretches: seq<seq<Step>>)
    ensures 0 <= DeltaSum(Observations(v, stretches)) <= RealIncrease(stretches)
    ensures (forall s | s in stretches :: Reset !in s) ==>
              DeltaSum(Observations(v, stretches)) == RealIncrease(stretches)
    decreases |stretches|
  {
    if stretches != [] {
      var cur := Play(v, stretches[0]);
      DeltaAgainstReal(v, stretches[0]);
      PlayBalance(v, stretches[0]);
      SumAgainstReal(cur, stretches[1..]);
      var obs := Observations(v, stretches);
      assert obs[1..] == Observations(cur, stretches[1..]) && obs[1] == cur;
    }
  }

  /** The sum counted is the last observation less the first, plus what was lost at each drop. */
  lemma {:induction false} SumTelescopes(obs: seq<int>)
    requires obs != []
    ensures DeltaSum(obs) == obs[|obs| - 1] - obs[0] + LostAtDrops(obs)
  {
    if |obs| >= 2 {
      SumTelescopes(obs[1..]);
    }
  }

  lemma {:induction false} DeltaSumSnoc(obs: seq<int>, x: int)
    ensures DeltaSum(obs + [x]) == DeltaSum(obs) + if obs == [] then 0 else CounterDelta(obs[|obs| - 1], x)
  {
    if |obs| >= 2 {
      DeltaSumSnoc(obs[1..], x);
      assert (obs + [x])[1..] == obs[1..] + [x];
    } else if |obs| == 1 {
      assert (obs + [x])[1..] == [x];
    }
  }

  // ------------------------------------------------- totals by channel

  datatype Channel = Channel(id: int, corr: int, noncorr: int)

  datatype ErrorCount = ErrorCount(corrected: int, uncorrected: int)

  /** The rows of one channel, in order. */
  function Seen(rows: seq<Channel>, id: int): seq<Channel> {
    if rows == [] then []
    else Seen(rows[..|rows| - 1], id) + if rows[|rows| - 1].id == id then [rows[|rows| - 1]] else []
  }

  function Corr(rows: seq<Channel>): (r: seq<int>)
    ensures |r| == |rows| && forall i :: 0 <= i < |rows| ==> r[i] == rows[i].corr
  {
    seq(|rows|, i requires 0 <= i < |rows| => rows[i].corr)
  }

  function Noncorr(rows: seq<Channel>): (r: seq<int>)
    ensures |r| == |rows| && forall i :: 0 <= i < |rows| ==> r[i] == rows[i].noncorr
  {
    seq(|rows|, i requires 0 <= i < |rows| => rows[i].noncorr)
  }

  function Ids(rows: seq<Channel>): set<int> {
    set c | c in rows :: c.id
  }

  function TotalOf(rows: seq<Channel>): ErrorCount {
    ErrorCount(DeltaSum(Corr(rows)), DeltaSum(Noncorr(rows)))
  }

  /** A channel has a total exactly when it was seen twice: the sums over its own observations. */
  function Totals(rows: seq<Channel>): map<int, ErrorCount> {
    map id | id in Ids(rows) && |Seen(rows, id)| >= 2 :: TotalOf(Seen(rows, id))
  }

  lemma {:induction false} SeenIds(rows: seq<Channel>, id: int)
    ensures Seen(rows, id) != [] <==> id in Ids(rows)
    ensures forall c | c in Seen(rows, id) :: c.id == id && c in rows
  {
    if rows != [] {
      var init, last := rows[..|rows| - 1], rows[|rows| - 1];
      SeenIds(init, id);
      assert rows == init + [last];
    }
  }

  /** The last row of each channel. */
  function Values(rows: seq<Channel>): (m: map<int, Channel>)
    ensures m.Keys == Ids(rows)
  {
    if rows == [] then map[]
    else
      var init, last := rows[..|rows| - 1], rows[|rows| - 1];
      assert rows == init + [last];
      Values(init)[last.id := last]
  }

  lemma {:induction false} ValuesIsLastSeen(rows: seq<Channel>, id: int)
    requires id in Ids(rows)
    ensures Seen(rows, id) != [] && Values(rows)[id] == Seen(rows, id)[|Seen(rows, id)| - 1]
  {
    SeenIds(rows, id);
    var init, last := rows[..|rows| - 1], rows[|rows| - 1];
    if last.id != id {
      SeenIds(init, id);
      ValuesIsLastSeen(init, id);
    }
  }

  lemma TotalSnoc(seen: seq<Channel>, c: Channel)
    requires seen != []
    ensures TotalOf(seen + [c]) == Plus(TotalOf(seen), seen[|seen| - 1], c)
    ensures |seen| == 1 ==> TotalOf(seen) == ErrorCount(0, 0)
  {
    assert Corr(seen + [c]) == Corr(seen) + [c.corr];
    assert Noncorr(seen + [c]) == Noncorr(seen) + [c.noncorr];
    DeltaSumSnoc(Corr(seen), c.corr);
    DeltaSumSnoc(Noncorr(seen), c.noncorr);
  }

  function Plus(e: ErrorCount, p: Channel, c: Channel): ErrorCount {
    ErrorCount(e.corrected + CounterDelta(p.corr, c.corr), e.uncorrected + CounterDelta(p.noncorr, c.noncorr))
  }

  /** The totals once row c, which follows row p of its channel, is counted. */
  function Add(m: map<int, ErrorCount>, p: Channel, c: Channel): map<int, ErrorCount> {
    m[c.id := Plus(if c.id in m then m[c.id] else ErrorCount(0, 0), p, c)]
  }

  lemma SeenSnoc(rows: seq<Channel>, c: Channel, id: int)
    ensures Seen(rows + [c], id) == if c.id == id then Seen(rows, id) + [c] else Seen(rows, id)
    ensures Ids(rows + [c]) == Ids(rows) + {c.id}
  {
    assert (rows + [c])[..|rows|] == rows;
  }

  /** What one more row does to the total of each channel. */
  lemma TotalsSnocAt(rows: seq<Channel>, c: Channel, id: int)
    ensures var before, after := Totals(rows), Totals(rows + [c]);
            if id == c.id && c.id in Ids(rows)
            then id in after && after[id] == Plus(if id in before then before[id] else ErrorCount(0, 0), Values(rows)[id], c)
            else (id in after <==> id in before) && (id in before ==> after[id] == before[id])
  {
    SeenSnoc(rows, c, id);
    SeenIds(rows, id);
    if id == c.id && c.id in Ids(rows) {
      ValuesIsLastSeen(rows, id);
      TotalSnoc(Seen(rows, id), c);
    }
  }

  predicate AgreeAt(m: map<int, ErrorCount>, n: map<int, ErrorCount>, id: int) {
    (id in m <==> id in n) && (id in m ==> m[id] == n[id])
  }

  lemma AgreeEverywhere(m: map<int, ErrorCount>, n: map<int, ErrorCount>)
    requires forall id :: AgreeAt(m, n, id)
    ensures m == n
  {
    forall id
      ensures (id in m <==> id in n) && (id in m ==> m[id] == n[id])
    {
      assert AgreeAt(m, n, id);
    }
  }

  lemma TotalsSnoc(rows: seq<Channel>, c: Channel)
    ensures Totals(rows + [c]) == if c.id in Values(rows) then Add(Totals(rows), Values(rows)[c.id], c) else Totals(rows)
  {
    var expected := if c.id in Values(rows) then Add(Totals(rows), Values(rows)[c.id], c) else Totals(rows);
    forall id
      ensures AgreeAt(Totals(rows + [c]), expected, id)
    {
      TotalsSnocAt(rows, c, id);
    }
    AgreeEverywhere(Totals(rows + [c]), expected);
  }

  /** Sums by channel in one pass over the rows, whatever their order. */
  method ErrorTotals(rows: seq<Channel>) returns (out: map<int, ErrorCount>)
    ensures out == Totals(rows)
  {
    out := map[];
    var prev: map<int, Channel> := map[];
    for i := 0 to |rows|
      invariant out == Totals(rows[..i]) && prev == Values(rows[..i])
    {
      ghost var done := rows[..i];
      assert rows[..i + 1] == done + [rows[i]];
      TotalsSnoc(done, rows[i]);
      ValuesSnoc(done, rows[i]);
      out := CountRow(out, prev, rows[i]);
      prev := prev[rows[i].id := rows[i]];
    }
    assert rows[..|rows|] == rows;
  }

  lemma ValuesSnoc(rows: seq<Channel>, c: Channel)
    ensures Values(rows + [c]) == Values(rows)[c.id := c]
  {
    assert (rows + [c])[..|rows|] == rows;
  }

  /** A channel never seen before has no increase: it stays unknown, not zero. */
  method CountRow(totals: map<int, ErrorCount>, prev: map<int, Channel>, c: Channel) returns (out: map<int, ErrorCount>)
    ensures out == if c.id in prev then Add(totals, prev[c.id], c) else totals
  {
    out := totals;
    if c.id in prev {
      var p := prev[c.id];
      var e := if c.id in out then out[c.id] else ErrorCount(0, 0);
      e := e.(corrected := e.corrected + CounterDelta(p.corr, c.corr));
      e := e.(uncorrected := e.uncorrected + CounterDelta(p.noncorr, c.noncorr));
      out := out[c.id := e];
    }
  }

  /**
   * A channel seen twice or more counts, of each kind of error, the last value
   * less the first, and what was lost each time the value was seen to drop.
   */
  lemma {:induction false} TotalInFigures(rows: seq<Channel>, id: int)
    ensures id in Totals(rows) <==> |Seen(rows, id)| >= 2
    ensures id in Totals(rows) ==>
              var s, total := Seen(rows, id), Totals(rows)[id];
              var n := |s| - 1;
              && total.corrected == s[n].corr - s[0].corr + LostAtDrops(seq(|s|, i requires 0 <= i < |s| => s[i].corr))
              && total.uncorrected == s[n].noncorr - s[0].noncorr + LostAtDrops(seq(|s|, i requires 0 <= i < |s| => s[i].noncorr))
  {
    TotalsHold(rows, id);
    if |Seen(rows, id)| >= 2 {
      TotalOfTelescopes(Seen(rows, id));
    }
  }

  lemma {:induction false} TotalsHold(rows: seq<Channel>, id: int)
    ensures id in Totals(rows) <==> |Seen(rows, id)| >= 2
    ensures id in Totals(rows) ==> Totals(rows)[id] == TotalOf(Seen(rows, id))
  {
    SeenIds(rows, id);
  }

  lemma {:induction false} TotalOfTelescopes(s: seq<Channel>)
    requires s != []
    ensures var n := |s| - 1;
            && TotalOf(s).corrected == s[n].corr - s[0].corr + LostAtDrops(seq(|s|, i requires 0 <= i < |s| => s[i].corr))
            && TotalOf(s).uncorrected == s[n].noncorr - s[0].noncorr + LostAtDrops(seq(|s|, i requires 0 <= i < |s| => s[i].noncorr))
  {
    var corr, noncorr := Corr(s), Noncorr(s);
    SumTelescopes(corr);
    SumTelescopes(noncorr);
    assert corr == seq(|s|, i requires 0 <= i < |s| => s[i].corr);
    assert noncorr == seq(|s|, i requires 0 <= i < |s| => s[i].noncorr);
  }

  /** The totals do not depend on how the rows of different channels are interleaved. */
  lemma InterleavingDoesNotMatter(rows: seq<Channel>, others: seq<Channel>)
    requires forall id :: Seen(rows, id) == Seen(others, id)
    ensures Totals(rows) == Totals(others)
  {
    forall id
      ensures id in Ids(rows) <==> id in Ids(others)
    {
      SeenIds(rows, id);
      SeenIds(others, id);
    }
  }

  // --------------------------------------------- totals over all channels

  lemma HasKey(m: map<int, ErrorCount>)
    ensures m == map[] || exists k :: k in m
  {
    if forall k :: k !in m {
      assert m == map[];
    }
  }

  /** The uncorrected errors of all channels together. */
  ghost function Uncorrected(m: map<int, ErrorCount>): int
    decreases |m|
  {
    if m == map[] then 0
    else
      HasKey(m);
      var k :| k in m;
      assert m.Keys == (m - {k}).Keys + {k};
      m[k].uncorrected + Uncorrected(m - {k})
  }

  /** Any channel may be counted first. */
  lemma {:induction false} UncorrectedWithout(m: map<int, ErrorCount>, id: int)
    requires id in m
    ensures Uncorrected(m) == m[id].uncorrected + Uncorrected(m - {id})
    decreases |m|
  {
    var k :| k in m && Uncorrected(m) == m[k].uncorrected + Uncorrected(m - {k});
    if k != id {
      assert m.Keys == (m - {k}).Keys + {k} && m.Keys == (m - {id}).Keys + {id};
      UncorrectedWithout(m - {k}, id);
      UncorrectedWithout(m - {id}, k);
      assert m - {k} - {id} == m - {id} - {k};
    }
  }

  lemma UncorrectedUpdate(m: map<int, ErrorCount>, id: int, e: ErrorCount)
    ensures Uncorrected(m[id := e]) == Uncorrected(m) + e.uncorrected - if id in m then m[id].uncorrected else 0
  {
    UncorrectedWithout(m[id := e], id);
    if id in m {
      UncorrectedWithout(m, id);
      assert m[id := e] - {id} == m - {id};
    } else {
      assert m[id := e] - {id} == m;
    }
  }

  /** The increase of the rows ds against the values of before, for the channels it holds. */
  function Against(before: map<int, Channel>, ds: seq<Channel>): int {
    if ds == [] then 0
    else
      var c := ds[|ds| - 1];
      Against(before, ds[..|ds| - 1]) + if c.id in before then CounterDelta(before[c.id].noncorr, c.noncorr) else 0
  }

  /** Each row against the last row of its channel. */
  function RowSum(rows: seq<Channel>): int {
    if rows == [] then 0
    else
      var init, c := rows[..|rows| - 1], rows[|rows| - 1];
      RowSum(init) + if c.id in Values(init) then CounterDelta(Values(init)[c.id].noncorr, c.noncorr) else 0
  }

  lemma {:induction false} RowSumIsTotal(rows: seq<Channel>)
    ensures Uncorrected(Totals(rows)) == RowSum(rows)
  {
    if rows == [] {
      assert Totals(rows) == map[];
    } else {
      var init, c := rows[..|rows| - 1], rows[|rows| - 1];
      RowSumIsTotal(init);
      assert rows == init + [c];
      TotalsSnoc(init, c);
      if c.id in Values(init) {
        UncorrectedUpdate(Totals(init), c.id, Totals(rows)[c.id]);
      }
    }
  }

  // ------------------------------------------------------------ readings

  /** The downstream channels of a reading. */
  type Reading = seq<Channel>

  predicate UniqueIds(ds: Reading) {
    forall i, j :: 0 <= i < j < |ds| ==> ds[i].id != ds[j].id
  }

  predicate WellFormed(readings: seq<Reading>) {
    forall ds | ds in readings :: UniqueIds(ds)
  }

  /** The rows of the readings, one reading after the other. */
  function Rows(readings: seq<Reading>): seq<Channel> {
    if readings == [] then [] else Rows(readings[..|readings| - 1]) + readings[|readings| - 1]
  }

  /** The last reading that has channels: the only one the rows give to compare with. */
  function Previous(readings: seq<Reading>): Reading {
    if readings == [] then []
    else if readings[|readings| - 1] != [] then readings[|readings| - 1]
    else Previous(readings[..|readings| - 1])
  }

  /** What the journal counts between two readings. */
  method UncorrectedDelta(prev: Reading, cur: Reading) returns (n: int)
    ensures n == Against(Values(prev), cur)
  {
    var before: map<int, Channel> := map[];
    for i := 0 to |prev|
      invariant before == Values(prev[..i])
    {
      assert prev[..i + 1][..i] == prev[..i];
      before := before[prev[i].id := prev[i]];
    }
    assert prev[..|prev|] == prev;
    n := 0;
    for i := 0 to |cur|
      invariant n == Against(Values(prev), cur[..i])
    {
      assert cur[..i + 1][..i] == cur[..i];
      if cur[i].id in before {
        n := n + CounterDelta(before[cur[i].id].noncorr, cur[i].noncorr);
      }
    }
    assert cur[..|cur|] == cur;
  }

  datatype LinePoint = LinePoint(uncorrected: int, known: bool)

  /**
   * The increase of the rows of a reading, for the channels of the one before;
   * a channel listed again is compared with its row above.
   */
  function Running(before: Reading, ds: Reading): int {
    if ds == [] then 0
    else
      var init, c := ds[..|ds| - 1], ds[|ds| - 1];
      Running(before, init)
      + if c.id in Ids(before) then CounterDelta((Values(before) + Values(init))[c.id].noncorr, c.noncorr) else 0
  }

  /** When no channel is listed twice, that is against the reading before. */
  lemma {:induction false} RunningIsAgainst(before: Reading, ds: Reading)
    requires UniqueIds(ds)
    ensures Running(before, ds) == Against(Values(before), ds)
  {
    if ds != [] {
      RunningIsAgainst(before, ds[..|ds| - 1]);
      NotYet(ds, |ds| - 1);
    }
  }

  function PointOf(before: Reading, ds: Reading): LinePoint {
    LinePoint(Running(before, ds), exists c :: c in ds && c.id in Ids(before))
  }

  /** The points of the readings, each against the last one before it that has channels. */
  function Points(readings: seq<Reading>): seq<LinePoint> {
    if readings == [] then []
    else
      var init := readings[..|readings| - 1];
      Points(init) + [PointOf(Previous(init), readings[|readings| - 1])]
  }

  lemma {:induction false} PointsAt(readings: seq<Reading>, k: nat)
    requires k < |readings|
    ensures |Points(readings)| == |readings|
    ensures Points(readings)[k] == PointOf(Previous(readings[..k]), readings[k])
  {
    var n := |readings| - 1;
    var init := readings[..n];
    PointsLength(readings);
    PointsLength(init);
    if k < n {
      PointsAt(init, k);
      assert init[..k] == readings[..k];
    }
  }

  lemma {:induction false} PointsLength(readings: seq<Reading>)
    ensures |Points(readings)| == |readings|
  {
    if readings != [] {
      PointsLength(readings[..|readings| - 1]);
    }
  }

  datatype LineState = LineState(prev: map<int, Channel>, prevReading: int, seenBefore: set<int>, current: set<int>)

  /** The state agrees with the last reading that had channels. */
  predicate Follows(s: LineState, before: Reading) {
    && s.current == Ids(before)
    && forall id | id in s.current :: id in s.prev && s.prev[id] == Values(before)[id]
  }

  /**
   * One point per reading from the first shown one, in one pass over the rows
   * of all readings: what a channel lost since the previous reading, for the
   * channels that were in it.
   */
  method LinePoints(readings: seq<Reading>, firstShown: nat) returns (out: seq<LinePoint>)
    requires firstShown <= |readings|
    ensures |Points(readings)| == |readings| && out == Points(readings)[firstShown..]
  {
    out := seq(|readings| - firstShown, i => LinePoint(0, false));
    var s := LineState(map[], -1, {}, {});
    for r := 0 to |readings|
      invariant |out| == |readings| - firstShown
      invariant forall k :: 0 <= k < |out| ==>
                  out[k] == if k + firstShown < r then PointOf(Previous(readings[..k + firstShown]), readings[k + firstShown])
                            else LinePoint(0, false)
      invariant s.prevReading < r && Follows(s, Previous(readings[..r]))
    {
      ghost var before := Previous(readings[..r]);
      assert readings[..r + 1][..r] == readings[..r];
      var point;
      s, point := TakeReading(s, r, readings[r], before);
      if r >= firstShown {
        out := out[r - firstShown := point];
      }
    }
    if readings != [] {
      PointsAt(readings, 0);
    }
    forall k | 0 <= k < |out|
      ensures out[k] == Points(readings)[firstShown + k]
    {
      PointsAt(readings, firstShown + k);
    }
  }

  /** The state once row c is read: a new reading makes the current channels the previous ones. */
  function Enter(s: LineState, reading: int): LineState {
    if reading != s.prevReading then s.(seenBefore := s.current, current := {}, prevReading := reading) else s
  }

  function TakeRow(s: LineState, c: Channel): LineState {
    s.(current := s.current + {c.id}, prev := s.prev[c.id := c])
  }

  /** In the middle of a reading, the channels not yet met keep the values of the previous one. */
  predicate Midway(s: LineState, reading: int, before: Reading, done: seq<Channel>) {
    && s.prevReading == reading && s.seenBefore == Ids(before)
    && Follows(s, done)
    && forall id | id in s.seenBefore :: id in s.prev && s.prev[id] == (Values(before) + Values(done))[id]
  }

  lemma MidwayStep(s: LineState, reading: int, before: Reading, done: seq<Channel>, c: Channel)
    requires Midway(s, reading, before, done)
    ensures Midway(TakeRow(s, c), reading, before, done + [c])
  {
    ValuesSnoc(done, c);
  }

  lemma PointStep(before: Reading, done: seq<Channel>, c: Channel)
    ensures var p := PointOf(before, done);
            PointOf(before, done + [c]) ==
              if c.id !in Ids(before) then p
              else LinePoint(p.uncorrected + CounterDelta((Values(before) + Values(done))[c.id].noncorr, c.noncorr), true)
  {
    assert (done + [c])[..|done|] == done;
    if c.id in Ids(before) {
      assert c in done + [c];
    }
  }

  /** The rows of one reading. */
  method TakeReading(start: LineState, reading: int, ds: Reading, ghost before: Reading) returns (s: LineState, point: LinePoint)
    requires Follows(start, before) && start.prevReading != reading
    ensures point == PointOf(before, ds)
    ensures if ds == [] then s == start else s.prevReading == reading && Follows(s, ds)
  {
    s := start;
    point := LinePoint(0, false);
    for j := 0 to |ds|
      invariant point == PointOf(before, ds[..j])
      invariant if j == 0 then s == start else Midway(s, reading, before, ds[..j])
    {
      var c := ds[j];
      ghost var done := ds[..j];
      assert ds[..j + 1] == done + [c];
      s := Enter(s, reading);
      assert Midway(s, reading, before, done);
      PointStep(before, done, c);
      MidwayStep(s, reading, before, done, c);
      if c.id in s.seenBefore {
        point := LinePoint(point.uncorrected + CounterDelta(s.prev[c.id].noncorr, c.noncorr), true);
      }
      s := TakeRow(s, c);
    }
    assert ds[..|ds|] == ds;
  }

  lemma NotYet(ds: Reading, j: nat)
    requires UniqueIds(ds) && j < |ds|
    ensures ds[j].id !in Ids(ds[..j])
  {}

  predicate NonNegative(rows: seq<Channel>) {
    forall c | c in rows :: c.noncorr >= 0
  }

  /** The counter of a channel is at zero, or as it was before. */
  predicate Still(before: map<int, Channel>, c: Channel) {
    c.id in before ==> c.noncorr == 0 || c.noncorr == before[c.id].noncorr
  }

  /** Counters at or above zero give no error only when each is still. */
  lemma {:induction false} NothingAgainst(before: map<int, Channel>, ds: seq<Channel>)
    requires NonNegative(ds) && forall id | id in before :: before[id].noncorr >= 0
    ensures Against(before, ds) >= 0
    ensures Against(before, ds) == 0 <==> forall c | c in ds :: Still(before, c)
  {
    if ds != [] {
      var init, last := ds[..|ds| - 1], ds[|ds| - 1];
      NothingAgainst(before, init);
      assert forall c :: c in ds <==> c in init || c == last by { assert ds == init + [last]; }
      assert last in ds;
    }
  }

  /**
   * A point of the timeline is what the journal counts against the reading
   * just before if and only if that one has channels or, since the last one
   * that has, no counter shared with it moved but to zero: the rows reach
   * further back than the journal.
   */
  lemma PointAgainstJournal(readings: seq<Reading>, k: nat)
    requires 0 < k < |readings| && UniqueIds(readings[k])
    requires forall ds | ds in readings :: NonNegative(ds)
    ensures |Points(readings)| == |readings|
    ensures Points(readings)[k].uncorrected == Against(Values(readings[k - 1]), readings[k])
       <==> readings[k - 1] != [] || forall c | c in readings[k] :: Still(Values(Previous(readings[..k])), c)
  {
    PointsAt(readings, k);
    RunningIsAgainst(Previous(readings[..k]), readings[k]);
    assert readings[..k][..k - 1] == readings[..k - 1];
    if readings[k - 1] == [] {
      AgainstNothing(readings[k]);
      PreviousIsOne(readings[..k]);
      assert forall ds | ds in readings[..k] :: ds in readings;
      ValuesNonNegative(Previous(readings[..k]));
      NothingAgainst(Values(Previous(readings[..k])), readings[k]);
    }
  }

  lemma {:induction false} PreviousIsOne(readings: seq<Reading>)
    ensures Previous(readings) == [] || Previous(readings) in readings
  {
    if readings != [] && readings[|readings| - 1] == [] {
      PreviousIsOne(readings[..|readings| - 1]);
    }
  }

  lemma {:induction false} ValuesNonNegative(rows: seq<Channel>)
    requires NonNegative(rows)
    ensures forall id | id in Values(rows) :: Values(rows)[id].noncorr >= 0
  {
    if rows != [] {
      assert rows[|rows| - 1] in rows;
      assert forall c | c in rows[..|rows| - 1] :: c in rows;
      ValuesNonNegative(rows[..|rows| - 1]);
    }
  }

  /** Five errors, a reading without channels, nine errors: the timeline counts four, the journal none. */
  const GAP := [[Channel(7, 0, 5)], [], [Channel(7, 0, 9)]]

  lemma GapCountsApart()
    ensures |Points(GAP)| == 3
    ensures Points(GAP)[2].uncorrected == 4 && Against(Values(GAP[1]), GAP[2]) == 0
  {
    var five, nine := Channel(7, 0, 5), Channel(7, 0, 9);
    PointsAt(GAP, 2);
    assert GAP[..2] == [[five], []] && GAP[..2][..1] == [[five]];
    assert Previous(GAP[..2]) == [five];
    assert [five][..0] == [] && [nine][..0] == [];
    RunningIsAgainst([five], [nine]);
  }

  lemma {:induction false} AgainstNothing(ds: seq<Channel>)
    ensures Against(map[], ds) == 0
  {
    if ds != [] {
      AgainstNothing(ds[..|ds| - 1]);
    }
  }

  // ---------------------------------------------- timeline and totals

  lemma {:induction false} ValuesConcat(rows: seq<Channel>, ds: seq<Channel>)
    ensures Values(rows + ds) == Values(rows) + Values(ds)
  {
    if ds == [] {
      assert rows + ds == rows;
    } else {
      var init, c := ds[..|ds| - 1], ds[|ds| - 1];
      ValuesConcat(rows, init);
      assert rows + ds == (rows + init) + [c] && ds == init + [c];
      ValuesSnoc(rows + init, c);
      ValuesSnoc(init, c);
      MergeUpdate(Values(rows), Values(init), c.id, c);
    }
  }

  lemma MergeUpdate<K, V>(m: map<K, V>, n: map<K, V>, k: K, v: V)
    ensures (m + n)[k := v] == m + n[k := v]
  {}

  lemma RowSumSnoc(rows: seq<Channel>, c: Channel)
    ensures RowSum(rows + [c]) ==
            RowSum(rows) + if c.id in Values(rows) then CounterDelta(Values(rows)[c.id].noncorr, c.noncorr) else 0
  {
    assert (rows + [c])[..|rows|] == rows;
  }

  lemma {:induction false} RowSumConcat(rows: seq<Channel>, ds: Reading)
    requires UniqueIds(ds)
    ensures RowSum(rows + ds) == RowSum(rows) + Against(Values(rows), ds)
  {
    if ds == [] {
      assert rows + ds == rows;
    } else {
      var init, c := ds[..|ds| - 1], ds[|ds| - 1];
      RowSumConcat(rows, init);
      NotYet(ds, |ds| - 1);
      RowSumNext(rows, init, c);
      assert ds == init + [c];
      Wrappers.ConcatAssociative(rows, init, [c]);
    }
  }

  lemma RowSumNext(rows: seq<Channel>, init: seq<Channel>, c: Channel)
    requires c.id !in Ids(init)
    ensures RowSum((rows + init) + [c]) ==
            RowSum(rows + init) + if c.id in Values(rows) then CounterDelta(Values(rows)[c.id].noncorr, c.noncorr) else 0
  {
    RowSumSnoc(rows + init, c);
    ValuesConcat(rows, init);
  }

  /** The last values of all rows agree with those of the last reading that has channels. */
  lemma {:induction false} LatestValues(readings: seq<Reading>)
    ensures forall id | id in Ids(Previous(readings)) ::
              id in Values(Rows(readings)) && Values(Rows(readings))[id] == Values(Previous(readings))[id]
  {
    if readings != [] {
      var init, ds := readings[..|readings| - 1], readings[|readings| - 1];
      ValuesConcat(Rows(init), ds);
      if ds == [] {
        LatestValues(init);
        assert Rows(readings) == Rows(init);
      }
    }
  }

  lemma {:induction false} AgainstSplit(all: map<int, Channel>, part: map<int, Channel>, ds: seq<Channel>)
    requires forall id | id in part :: id in all && all[id] == part[id]
    ensures Against(all, ds) == Against(part, ds) + Against(all - part.Keys, ds)
  {
    if ds != [] {
      AgainstSplit(all, part, ds[..|ds| - 1]);
    }
  }

  function PointSum(readings: seq<Reading>): int {
    if readings == [] then 0
    else
      var init := readings[..|readings| - 1];
      PointSum(init) + PointOf(Previous(init), readings[|readings| - 1]).uncorrected
  }

  function SumOfPoints(points: seq<LinePoint>): int {
    if points == [] then 0 else SumOfPoints(points[..|points| - 1]) + points[|points| - 1].uncorrected
  }

  lemma {:induction false} PointSumIsSum(readings: seq<Reading>)
    ensures SumOfPoints(Points(readings)) == PointSum(readings)
  {
    if readings != [] {
      var init := readings[..|readings| - 1];
      PointSumIsSum(init);
      assert Points(readings)[..|Points(init)|] == Points(init);
    }
  }

  /** The first point counts nothing: without it the points shown have the same sum. */
  lemma {:induction false} ShownSum(points: seq<LinePoint>, firstShown: nat)
    requires firstShown <= 1 && firstShown <= |points|
    requires points != [] ==> points[0].uncorrected == 0
    ensures SumOfPoints(points[firstShown..]) == SumOfPoints(points)
  {
    if firstShown == |points| {
      assert points[firstShown..] == [];
      assert firstShown == 1 ==> points[..0] == [];
    } else {
      var n := |points| - 1;
      var shown := points[firstShown..];
      assert shown[..|shown| - 1] == points[..n][firstShown..];
      ShownSum(points[..n], firstShown);
    }
  }

  /** The errors of the timeline over the readings are those of the points shown, from the second one at least. */
  lemma ShownPoints(readings: seq<Reading>, firstShown: nat)
    requires firstShown <= 1 && firstShown <= |readings|
    ensures |Points(readings)| == |readings|
    ensures SumOfPoints(Points(readings)[firstShown..]) == PointSum(readings)
  {
    PointsLength(readings);
    PointSumIsSum(readings);
    if readings != [] {
      PointsAt(readings, 0);
      NothingBefore(readings[0]);
    }
    ShownSum(Points(readings), firstShown);
  }

  lemma {:induction false} NothingBefore(ds: Reading)
    ensures Running([], ds) == 0
  {
    if ds != [] {
      NothingBefore(ds[..|ds| - 1]);
    }
  }

  /** What a reading adds for the channels seen before, but not in the previous reading. */
  function Returns(init: seq<Reading>, ds: Reading): int {
    Against(Values(Rows(init)) - Ids(Previous(init)), ds)
  }

  function ReturnSum(readings: seq<Reading>): int {
    if readings == [] then 0
    else
      var init := readings[..|readings| - 1];
      ReturnSum(init) + Returns(init, readings[|readings| - 1])
  }

  lemma {:induction false} RowSumSplits(readings: seq<Reading>)
    requires WellFormed(readings)
    ensures RowSum(Rows(readings)) == PointSum(readings) + ReturnSum(readings)
  {
    if readings != [] {
      var init, ds := readings[..|readings| - 1], readings[|readings| - 1];
      RowSumSplits(init);
      RunningIsAgainst(Previous(init), ds);
      RowSumConcat(Rows(init), ds);
      LatestValues(init);
      AgainstSplit(Values(Rows(init)), Values(Previous(init)), ds);
    }
  }

  lemma {:induction false} AgainstNonNegative(before: map<int, Channel>, ds: seq<Channel>)
    requires NonNegative(ds)
    ensures Against(before, ds) >= 0
    ensures (forall c | c in ds :: c.id !in before) ==> Against(before, ds) == 0
  {
    if ds != [] {
      AgainstNonNegative(before, ds[..|ds| - 1]);
    }
  }

  /** Every channel of a reading is new, or was in the last reading that had channels. */
  predicate NoneReturns(readings: seq<Reading>) {
    readings != [] ==>
      var init := readings[..|readings| - 1];
      && NoneReturns(init)
      && forall c | c in readings[|readings| - 1] :: c.id in Ids(Rows(init)) ==> c.id in Ids(Previous(init))
  }

  lemma {:induction false} ReturnSumBounds(readings: seq<Reading>)
    requires forall ds | ds in readings :: NonNegative(ds)
    ensures ReturnSum(readings) >= 0
    ensures NoneReturns(readings) ==> ReturnSum(readings) == 0
  {
    if readings != [] {
      var init, ds := readings[..|readings| - 1], readings[|readings| - 1];
      ReturnSumBounds(init);
      AgainstNonNegative(Values(Rows(init)) - Ids(Previous(init)), ds);
    }
  }

  /**
   * Over a window, the totals by channel exceed the timeline by exactly what
   * is counted for channels that left and came back; they are equal when none
   * does. rows may be in any order that keeps the order of each channel.
   */
  lemma TotalsAgainstTimeline(readings: seq<Reading>, rows: seq<Channel>, firstShown: nat)
    requires WellFormed(readings) && forall ds | ds in readings :: NonNegative(ds)
    requires forall id :: Seen(rows, id) == Seen(Rows(readings), id)
    requires firstShown <= 1 && firstShown <= |readings|
    ensures |Points(readings)| == |readings|
    ensures var shown := SumOfPoints(Points(readings)[firstShown..]);
            && Uncorrected(Totals(rows)) == shown + ReturnSum(readings)
            && ReturnSum(readings) >= 0
            && (NoneReturns(readings) ==> Uncorrected(Totals(rows)) == shown)
  {
    ShownPoints(readings, firstShown);
    InterleavingDoesNotMatter(rows, Rows(readings));
    RowSumIsTotal(Rows(readings));
    RowSumSplits(readings);
    ReturnSumBounds(readings);
  }
}
