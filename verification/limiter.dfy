/** The delay imposed on an address after failed logins (internal/auth/limiter.go). Times are in nanoseconds. */
module Limiters {
  import opened Wrappers

  const MINUTE: int := 60 * SECOND
  const FREE_ATTEMPTS: nat := 3
  const BASE_DELAY: int := 5 * SECOND
  const MAX_DELAY: int := 15 * MINUTE
  const FORGET_AFTER: int := 60 * MINUTE

  /** until is None as long as no delay was ever set: the zero time, before any other. */
  datatype Entry = Entry(count: nat, until: Option<int>, seen: int)

  // ----------------------------------------------------------------- delay

  function Pow2(n: nat): (r: nat)
    ensures r >= 1
  {
    if n == 0 then 1 else 2 * Pow2(n - 1)
  }

  /** A left shift of a signed 64-bit integer: what leaves the register is lost. */
  function Shl64(x: int, n: nat): int64 {
    if n >= 64 then 0 else Wrap64(x * Pow2(n))
  }

  function Delay(n: nat): int {
    var d := Shl64(BASE_DELAY, n);
    if d > MAX_DELAY || d <= 0 then MAX_DELAY else d
  }

  /** The delay meant: five seconds doubled n times, at most fifteen minutes. */
  function Meant(n: nat): int {
    if BASE_DELAY * Pow2(n) <= MAX_DELAY then BASE_DELAY * Pow2(n) else MAX_DELAY
  }

  lemma {:induction false} Pow2Sum(m: nat, n: nat)
    ensures Pow2(m + n) == Pow2(m) * Pow2(n)
  {
    if m > 0 {
      Pow2Sum(m - 1, n);
    }
  }

  lemma {:induction false} Pow2Monotone(m: nat, n: nat)
    requires m <= n
    ensures Pow2(m) <= Pow2(n)
  {
    if m < n {
      Pow2Monotone(m, n - 1);
    }
  }

  const TWO_40: int := 0x100_0000_0000

  /** A multiple of 2^40 stays one when it overflows. */
  lemma WrapMultiple(m: int)
    ensures Wrap64(m * TWO_40) % TWO_40 == 0
  {
    var a := m + 0x80_0000;
    var q, r := a / 0x100_0000, a % 0x100_0000;
    assert m * TWO_40 + TWO_63 == q * TWO_64 + r * TWO_40;
    assert 0 <= r * TWO_40 < TWO_64;
    assert (q * TWO_64 + r * TWO_40) % TWO_64 == r * TWO_40;
    assert Wrap64(m * TWO_40) == (r - 0x80_0000) * TWO_40;
  }

  lemma Pow2Values()
    ensures Pow2(7) == 128 && Pow2(8) == 256 && Pow2(30) == 0x4000_0000 && Pow2(31) == 0x8000_0000
  {
    assert Pow2(4) == 16;
    Pow2Sum(4, 4);
    Pow2Sum(8, 8);
    Pow2Sum(16, 8);
    Pow2Sum(24, 4);
  }

  /** From 2^31 on, what is left of the shifted delay is a multiple of 2^40: zero, or out of bounds. */
  lemma OverflowIsOutOfBounds(p: nat)
    ensures Wrap64(BASE_DELAY * (0x8000_0000 * p)) <= 0 || Wrap64(BASE_DELAY * (0x8000_0000 * p)) > MAX_DELAY
  {
    assert BASE_DELAY * (0x8000_0000 * p) == (9_765_625 * p) * TWO_40;
    WrapMultiple(9_765_625 * p);
  }

  /** However many bits overflow, the delay set is the delay meant. */
  lemma DelayIsMeant(n: nat)
    ensures Delay(n) == Meant(n)
  {
    if n <= 30 {
      FitsUpTo30(n);
    } else {
      MeantBeyond30(n);
      DelayBeyond30(n);
    }
  }

  lemma MeantBeyond30(n: nat)
    requires n > 30
    ensures Meant(n) == MAX_DELAY
  {
    Pow2Values();
    Pow2Monotone(8, n);
  }

  lemma DelayBeyond30(n: nat)
    requires n > 30
    ensures Delay(n) == MAX_DELAY
  {
    if n < 64 {
      var p := Pow2(n - 31);
      assert Pow2(n) == 0x8000_0000 * p by {
        Pow2Values();
        Pow2Sum(31, n - 31);
      }
      OverflowIsOutOfBounds(p);
    }
  }

  lemma FitsUpTo30(n: nat)
    requires n <= 30
    ensures Shl64(BASE_DELAY, n) == BASE_DELAY * Pow2(n)
  {
    Pow2Values();
    Pow2Monotone(n, 30);
  }

  // -------------------------------------------------------------- one step

  /** An address neither seen within the hour nor still waiting. */
  predicate Old(e: Entry, now: int) {
    e.seen < now - FORGET_AFTER && (e.until.None? || e.until.value < now)
  }

  function Forget(m: map<string, Entry>, now: int): map<string, Entry> {
    map k | k in m && !Old(m[k], now) :: m[k]
  }

  /** One more failure for an address whose entry is e. */
  function Count(e: Option<Entry>, now: int): Entry {
    var before := if e.Some? then e.value else Entry(0, None, now);
    var n := before.count + 1;
    Entry(n, if n < FREE_ATTEMPTS then before.until else Some(now + Meant(n - FREE_ATTEMPTS)), now)
  }

  function Find(m: map<string, Entry>, key: string): Option<Entry> {
    if key in m then Some(m[key]) else None
  }

  function AfterFail(m: map<string, Entry>, key: string, now: int): map<string, Entry> {
    Forget(m, now)[key := Count(Find(Forget(m, now), key), now)]
  }

  function WaitOf(e: Option<Entry>, now: int): int {
    if e.Some? && e.value.until.Some? && e.value.until.value > now then e.value.until.value - now else 0
  }

  class Limiter {
    var failures: map<string, Entry>

    constructor ()
      ensures failures == map[]
    {
      failures := map[];
    }

    method Wait(key: string, now: int) returns (d: int)
      ensures d == WaitOf(Find(failures, key), now)
    {
      if key !in failures {
        return 0;
      }
      var e := failures[key];
      if e.until.None? {
        return 0;
      }
      d := e.until.value - now;
      if d <= 0 {
        return 0;
      }
    }

    method Fail(key: string, now: int)
      modifies this
      ensures failures == AfterFail(old(failures), key, now)
    {
      ForgetOld(now);
      var e := Entry(0, None, now);
      if key in failures {
        e := failures[key];
      }
      e := e.(count := e.count + 1, seen := now);
      if e.count >= FREE_ATTEMPTS {
        DelayIsMeant(e.count - FREE_ATTEMPTS);
        var delay := Shl64(BASE_DELAY, e.count - FREE_ATTEMPTS);
        if delay > MAX_DELAY || delay <= 0 {
          delay := MAX_DELAY;
        }
        e := e.(until := Some(now + delay));
      }
      failures := failures[key := e];
    }

    method Succeed(key: string)
      modifies this
      ensures failures == old(failures) - {key}
    {
      failures := failures - {key};
    }

    method ForgetOld(now: int)
      modifies this
      ensures failures == Forget(old(failures), now)
    {
      var keys := failures.Keys;
      while keys != {}
        invariant keys <= failures.Keys
        invariant failures == map k | k in old(failures) && (k in keys || !Old(old(failures)[k], now)) :: old(failures)[k]
        decreases |keys|
      {
        var k :| k in keys;
        keys := keys - {k};
        if Old(failures[k], now) {
          failures := failures - {k};
        }
      }
    }
  }

  // -------------------------------------------------------------- all runs

  datatype Op = Fail(key: string, at: int) | Succeed(key: string)

  function Apply(m: map<string, Entry>, op: Op): map<string, Entry> {
    match op
    case Fail(key, at) => AfterFail(m, key, at)
    case Succeed(key) => m - {key}
  }

  function Run(ops: seq<Op>): map<string, Entry> {
    if ops == [] then map[] else Apply(Run(ops[..|ops| - 1]), ops[|ops| - 1])
  }

  /** The clock never goes back, and now is not before the last failure. */
  predicate InOrder(ops: seq<Op>, now: int) {
    ops != [] ==>
      var last := ops[|ops| - 1];
      if last.Fail? then last.at <= now && InOrder(ops[..|ops| - 1], last.at) else InOrder(ops[..|ops| - 1], now)
  }

  /** The failures of one address since its last success, whatever happens to the others. */
  function FailuresOf(ops: seq<Op>, key: string): seq<int> {
    if ops == [] then []
    else
      var before := FailuresOf(ops[..|ops| - 1], key);
      match ops[|ops| - 1]
      case Fail(k, at) => if k == key then before + [at] else before
      case Succeed(k) => if k == key then [] else before
  }

  /** How many failures end the list with no hour of rest between two of them. */
  function Streak(times: seq<int>): nat {
    if times == [] then 0
    else
      var n := |times| - 1;
      1 + (if n > 0 && times[n - 1] >= times[n] - FORGET_AFTER then Streak(times[..n]) else 0)
  }

  /** The delay still to wait, from the failures of one address alone. */
  function ExpectedWait(times: seq<int>, now: int): int {
    if Streak(times) < FREE_ATTEMPTS then 0
    else
      var left := times[|times| - 1] + Meant(Streak(times) - FREE_ATTEMPTS) - now;
      if left > 0 then left else 0
  }

  /** What is remembered of an address agrees with its failures; what is forgotten no longer matters. */
  predicate Remembers(e: Option<Entry>, times: seq<int>, now: int) {
    match e
    case None => times == [] || times[|times| - 1] < now - FORGET_AFTER
    case Some(Entry(count, until, seen)) =>
      && times != [] && seen == times[|times| - 1] <= now
      && count == Streak(times)
      && until == if count < FREE_ATTEMPTS then None else Some(seen + Meant(count - FREE_ATTEMPTS))
  }

  /** Over every run, each entry follows from the failures of its own address. */
  lemma {:induction false} RunRemembers(ops: seq<Op>, key: string, now: int)
    requires InOrder(ops, now)
    ensures Remembers(Find(Run(ops), key), FailuresOf(ops, key), now)
  {
    if ops != [] {
      var before, last := ops[..|ops| - 1], ops[|ops| - 1];
      var times := FailuresOf(before, key);
      match last
      case Succeed(k) =>
        RunRemembers(before, key, now);
      case Fail(k, at) =>
        RunRemembers(before, key, at);
        var e := Find(Run(before), key);
        if e.Some? {
          assert Old(e.value, at) <==> e.value.seen < at - FORGET_AFTER;
        }
        if k == key {
          assert (times + [at])[..|times|] == times;
        }
    }
  }

  /**
   * Over every run of failures and successes with a clock that does not go
   * back, the wait of an address is five seconds doubled for each failure of
   * its streak beyond the third, at most fifteen minutes, counted from the
   * last one. Other addresses, and what is forgotten on the way, never matter.
   */
  lemma WaitOfRun(ops: seq<Op>, key: string, now: int)
    requires InOrder(ops, now)
    ensures WaitOf(Find(Run(ops), key), now) == ExpectedWait(FailuresOf(ops, key), now)
  {
    RunRemembers(ops, key, now);
    var times := FailuresOf(ops, key);
    if Find(Run(ops), key).None? && times != [] {
      assert Meant(if Streak(times) < FREE_ATTEMPTS then 0 else Streak(times) - FREE_ATTEMPTS) <= MAX_DELAY;
    }
  }

  /** After a failure, every remembered address was seen within the last hour. */
  lemma MemoryIsBounded(ops: seq<Op>, key: string, now: int, k: string)
    requires InOrder(ops + [Fail(key, now)], now)
    requires k in Run(ops + [Fail(key, now)])
    ensures now - 3600 * SECOND <= Run(ops + [Fail(key, now)])[k].seen <= now
  {
    assert (ops + [Fail(key, now)])[..|ops|] == ops;
    RunRemembers(ops, k, now);
    if k in Run(ops) {
      assert Old((Run(ops)[k]), now) <==> (Run(ops)[k]).seen < now - FORGET_AFTER;
    }
  }

  // ---------------------------------------------------------------- in figures

  /** The failures that count: the last ones, none more than an hour after the one before. */
  lemma {:induction false} StreakIs(times: seq<int>)
    ensures var n := |times| - Streak(times);
            && 0 <= n && (times != [] ==> n < |times|)
            && (forall i :: n < i < |times| ==> times[i] - times[i - 1] <= 3600 * SECOND)
            && (0 < n < |times| ==> times[n] - times[n - 1] > 3600 * SECOND)
  {
    if times != [] {
      var front := times[..|times| - 1];
      StreakIs(front);
      assert forall i :: 0 <= i < |front| ==> front[i] == times[i];
    }
  }

  /**
   * One or two failures in a row impose nothing; from the third on the address
   * waits five seconds, then twice as long each time, up to fifteen minutes,
   * from its last failure.
   */
  lemma {:induction false} WaitInFigures(ops: seq<Op>, key: string, now: int)
    requires InOrder(ops, now)
    ensures var times := FailuresOf(ops, key);
            var wait, c := WaitOf(Find(Run(ops), key), now), Streak(times);
            && (c <= 2 ==> wait == 0)
            && (3 <= c <= 10 ==>
                  var left := times[|times| - 1] + 5 * SECOND * Pow2(c - 3) - now;
                  wait == if left > 0 then left else 0)
            && (c >= 11 ==>
                  var left := times[|times| - 1] + 900 * SECOND - now;
                  wait == if left > 0 then left else 0)
  {
    WaitOfRun(ops, key, now);
    var c := Streak(FailuresOf(ops, key));
    if c >= 3 {
      MeantInFigures(c - 3);
    }
  }

  lemma MeantInFigures(n: nat)
    ensures Meant(n) == if n <= 7 then 5 * SECOND * Pow2(n) else 900 * SECOND
  {
    Pow2Values();
    if n <= 7 {
      Pow2Monotone(n, 7);
    } else {
      Pow2Monotone(8, n);
    }
  }
}
