/**
 * Up to which numbers the order of versions is one (internal/update/update.go):
 * longer runs of digits are compared as text.
 */
module VersionBounds {
  import opened Orders
  import opened Versions
  import opened Wrappers

  /** A version that can be read, the numbers of its suffix being m at most. */
  predicate InBounds(t: string, m: int) {
    Parse(t).Some? && RunsAtMost(Parse(t).value.pre, m)
  }

  /** Over these versions "newer" is a strict weak order. */
  ghost predicate OrderedUpTo(m: int) {
    forall a, b, c | InBounds(a, m) && InBounds(b, m) && InBounds(c, m) ::
      && !NewerSpec(a, a)
      && (NewerSpec(a, b) ==> !NewerSpec(b, a))
      && (NewerSpec(a, b) && NewerSpec(b, c) ==> NewerSpec(a, c))
      && (!NewerSpec(a, b) && !NewerSpec(b, c) ==> !NewerSpec(a, c))
  }

  lemma {:induction false} RunsBelow(s: string, m: int, n: int)
    requires RunsAtMost(s, m) && m <= n
    ensures RunsAtMost(s, n)
    decreases |s|
  {
    if s != "" {
      RunsBelow(s[ChunkLen(s)..], m, n);
    }
  }

  lemma FitsBelow(t: string, m: int)
    requires InBounds(t, m) && m <= MAX_INT
    ensures Comparable(t)
  {
    RunsBelow(Parse(t).value.pre, m, MAX_INT);
  }

  // --------------------------------------------------------- numbers as text

  /** a followed by k zeros. */
  function Scaled(a: nat, k: nat): nat {
    if k == 0 then a else 10 * Scaled(a, k - 1)
  }

  /** The text of a number starts with that of its leading digits. */
  lemma {:induction false} LeadingDigits(a: nat, k: nat, n: nat)
    requires a > 0 && Scaled(a, k) <= n < Scaled(a + 1, k)
    ensures Itoa(a) <= Itoa(n)
  {
    if k > 0 {
      ScaledAtLeast(a, k);
      LeadingDigits(a, k - 1, n / 10);
      assert Itoa(n) == Itoa(n / 10) + [DigitChar(n % 10)];
    }
  }

  lemma {:induction false} ScaledAtLeast(a: nat, k: nat)
    requires a > 0
    ensures Scaled(a, k) >= a && (k > 0 ==> Scaled(a, k) >= 10)
  {
    if k > 0 {
      ScaledAtLeast(a, k - 1);
    }
  }

  // ------------------------------------------------------------ candidates

  function Candidate(n: nat): Version {
    Version(1, 0, 0, "rc" + Itoa(n))
  }

  function CandidateText(n: nat): string {
    "1.0.0-rc" + Itoa(n)
  }

  lemma CandidateSuffix(digits: string)
    requires digits != "" && AllDigits(digits)
    ensures ValidPre("rc" + digits)
  {
    var p := "rc" + digits;
    forall i | 2 <= i < |p|
      ensures Digit(p[i])
    {
      assert p[i] == digits[i - 2];
    }
  }

  lemma Joined(x: string, y: string, xy: string, d: string)
    requires x + y == xy
    ensures x + (y + d) == xy + d
  {}

  lemma CandidateShown(n: nat)
    ensures WellFormed(Candidate(n)) && Show(Candidate(n)) == CandidateText(n)
  {
    var d := Itoa(n);
    CandidateSuffix(d);
    assert Itoa(1) == "1" && Itoa(0) == "0";
    Joined("-", "rc", "-rc", d);
    Joined("0", "-rc", "0-rc", d);
    Joined(".", "0-rc", ".0-rc", d);
    Joined("0", ".0-rc", "0.0-rc", d);
    Joined(".", "0.0-rc", ".0.0-rc", d);
    Joined("1", ".0.0-rc", "1.0.0-rc", d);
  }

  lemma CandidateRead(n: nat)
    ensures Parse(CandidateText(n)) == Some(Candidate(n))
  {
    CandidateShown(n);
    ShowRoundTrip(Candidate(n));
  }

  lemma {:induction false} RunLen(s: string)
    requires s != "" && AllDigits(s)
    ensures ChunkLen(s) == |s|
  {
    if |s| > 1 {
      assert s[1..][0] == s[1];
      RunLen(s[1..]);
    }
  }

  lemma ChunkOfRc(x: string)
    requires x != "" && AllDigits(x)
    ensures var s := "rc" + x;
            ChunkLen(s) == 2 && s[..2] == "rc" && s[2..] == x && !Digit(s[0])
  {
    var s := "rc" + x;
    assert s[1..][0] == 'c' && s[1..][1] == x[0];
    assert Digit(x[0]) && !Digit('r') && !Digit('c');
  }

  lemma RunsOfDigits(x: string, m: int)
    requires x != "" && AllDigits(x) && Value(x) <= m
    ensures RunsAtMost("rc" + x, m)
  {
    ChunkOfRc(x);
    RunLen(x);
    assert x[..|x|] == x && x[|x|..] == "";
    assert RunsAtMost(x, m);
  }

  lemma CompareAfterRc(x: string, y: string)
    requires x != "" && AllDigits(x) && y != "" && AllDigits(y)
    ensures Compare("rc" + x, "rc" + y) == CompareChunks(x, y)
  {
    ChunkOfRc(x);
    ChunkOfRc(y);
    RunLen(x);
    RunLen(y);
    assert x[..|x|] == x && y[..|y|] == y;
    assert Compare(x, y) == CompareChunks(x, y);
    assert CompareChunks("rc", "rc") == 0;
  }

  lemma AfterAsChunks(m: nat, n: nat)
    requires CompareChunks(Itoa(m), Itoa(n)) > 0
    ensures After(Candidate(m), Candidate(n))
  {
    var x, y := Itoa(m), Itoa(n);
    CompareAfterRc(x, y);
    assert x != y;
    assert ("rc" + x)[2..] == x && ("rc" + y)[2..] == y;
  }

  /** Two candidates compare as the chunks of their numbers. */
  lemma NewerAsChunks(m: nat, n: nat)
    requires CompareChunks(Itoa(m), Itoa(n)) > 0
    ensures NewerSpec(CandidateText(m), CandidateText(n))
  {
    CandidateRead(m);
    CandidateRead(n);
    AfterAsChunks(m, n);
  }

  lemma CandidateInBounds(n: nat, m: int)
    requires n <= m
    ensures InBounds(CandidateText(n), m)
  {
    CandidateRead(n);
    RunsOfDigits(Itoa(n), m);
  }

  // ------------------------------------------------------------- the bound

  /** Numbers that fit compare as numbers, others as text. */
  lemma ChunksOfNumbers(m: nat, n: nat)
    ensures m <= MAX_INT && n <= MAX_INT && m > n ==> CompareChunks(Itoa(m), Itoa(n)) > 0
    ensures (m > MAX_INT || n > MAX_INT) && Lex(CharLess, Itoa(n), Itoa(m)) ==> CompareChunks(Itoa(m), Itoa(n)) > 0
  {
    TextOrder(Itoa(n), Itoa(m));
  }

  lemma TextOrder(a: string, b: string)
    ensures Lex(CharLess, a, b) ==> a != b && !Lex(CharLess, b, a)
  {
    LexTotal(CharLess, a, b);
  }

  lemma SmallTexts()
    ensures Itoa(92) == "92" && Itoa(93) == "93" && Itoa(100) == "100"
  {
    assert Itoa(10) == "10";
  }

  /** The first number that does not fit starts like 92: as text it is between 100 and 93. */
  lemma FirstTooLong()
    ensures CompareChunks(Itoa(100), Itoa(93)) > 0
    ensures CompareChunks(Itoa(MAX_INT + 1), Itoa(100)) > 0
    ensures CompareChunks(Itoa(93), Itoa(MAX_INT + 1)) > 0
  {
    SmallTexts();
    LongStarts();
    LongBetween(Itoa(MAX_INT + 1));
    ChunksOfNumbers(100, 93);
    ChunksOfNumbers(MAX_INT + 1, 100);
    ChunksOfNumbers(93, MAX_INT + 1);
  }

  lemma LongBetween(long: string)
    requires "92" <= long
    ensures Lex(CharLess, "100", long) && Lex(CharLess, long, "93")
  {
    assert long[0] == '9' && long[1] == '2';
    assert long[1..][0] == '2' && "93"[1..][0] == '3';
  }

  lemma LongStarts()
    ensures Itoa(92) <= Itoa(MAX_INT + 1)
  {
    assert Scaled(92, 5) == 92_00000 && Scaled(93, 5) == 93_00000;
    assert Scaled(92, 10) == 92_0000000000 && Scaled(93, 10) == 93_0000000000;
    assert Scaled(92, 14) == 92_00000000000000 && Scaled(93, 14) == 93_00000000000000;
    assert Scaled(92, 17) == 92_00000000000000000 && Scaled(93, 17) == 93_00000000000000000;
    LeadingDigits(92, 17, MAX_INT + 1);
  }

  /**
   * Three versions in a circle, each newer than the one before:
   * 1.0.0-rc93, 1.0.0-rc100 and 1.0.0-rc9223372036854775808, whose number is
   * the first that does not fit in an int.
   */
  lemma CycleAtBound()
    ensures NewerSpec(CandidateText(100), CandidateText(93))
    ensures NewerSpec(CandidateText(MAX_INT + 1), CandidateText(100))
    ensures NewerSpec(CandidateText(93), CandidateText(MAX_INT + 1))
  {
    FirstTooLong();
    NewerAsChunks(100, 93);
    NewerAsChunks(MAX_INT + 1, 100);
    NewerAsChunks(93, MAX_INT + 1);
  }

  /**
   * Over the versions whose numbers are m at most, "newer" is a strict weak
   * order if and only if m fits in an int.
   */
  lemma OrderedUpToInt(m: nat)
    ensures OrderedUpTo(m) <==> m <= MAX_INT
  {
    if m <= MAX_INT {
      forall a, b, c | InBounds(a, m) && InBounds(b, m) && InBounds(c, m)
        ensures && !NewerSpec(a, a)
                && (NewerSpec(a, b) ==> !NewerSpec(b, a))
                && (NewerSpec(a, b) && NewerSpec(b, c) ==> NewerSpec(a, c))
                && (!NewerSpec(a, b) && !NewerSpec(b, c) ==> !NewerSpec(a, c))
      {
        FitsBelow(a, m);
        FitsBelow(b, m);
        FitsBelow(c, m);
        NewerIsStrictWeakOrder(a, b, c);
      }
    } else {
      CycleAtBound();
      CandidateInBounds(93, m);
      CandidateInBounds(100, m);
      CandidateInBounds(MAX_INT + 1, m);
      CycleBreaks(CandidateText(93), CandidateText(100), CandidateText(MAX_INT + 1), m);
    }
  }

  lemma CycleBreaks(a: string, b: string, c: string, m: int)
    requires InBounds(a, m) && InBounds(b, m) && InBounds(c, m)
    requires NewerSpec(b, a) && NewerSpec(c, b) && NewerSpec(a, c)
    ensures !OrderedUpTo(m)
  {}
}
