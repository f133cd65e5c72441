/** The order of published versions and the choice of the latest (internal/update/update.go). */
module Versions {
  import opened Orders
  import opened Wrappers

  const MAX_INT: int := 0x7fff_ffff_ffff_ffff

  datatype Version = Version(major: nat, minor: nat, patch: nat, pre: string)

  // ---------------------------------------------------------------- numbers

  predicate Digit(c: char) {
    '0' <= c <= '9'
  }

  predicate AllDigits(s: string) {
    forall c | c in s :: Digit(c)
  }

  function Value(s: string): nat
    requires AllDigits(s)
  {
    if s == "" then 0
    else
      assert Digit(s[|s| - 1]);
      Value(s[..|s| - 1]) * 10 + (s[|s| - 1] as int - '0' as int)
  }

  function DigitChar(n: nat): (c: char)
    requires n < 10
    ensures Digit(c) && c as int - '0' as int == n
  {
    ('0' as int + n) as char
  }

  function Itoa(n: nat): (s: string)
    ensures s != "" && AllDigits(s) && Value(s) == n
  {
    if n < 10 then
      assert [DigitChar(n)][..0] == "";
      [DigitChar(n)]
    else
      var s := Itoa(n / 10) + [DigitChar(n % 10)];
      assert s[..|s| - 1] == Itoa(n / 10);
      s
  }

  /** How many digits s starts with. */
  function DigitRun(s: string): (n: nat)
    ensures n <= |s| && AllDigits(s[..n]) && (n < |s| ==> !Digit(s[n]))
  {
    if s == "" || !Digit(s[0]) then 0
    else
      var n := 1 + DigitRun(s[1..]);
      assert s[..n] == [s[0]] + s[1..][..n - 1];
      n
  }

  lemma {:induction false} DigitRunStops(s: string, rest: string)
    requires AllDigits(s) && (rest == "" || !Digit(rest[0]))
    ensures DigitRun(s + rest) == |s|
  {
    if s == "" {
      assert s + rest == rest;
    } else {
      assert (s + rest)[1..] == s[1..] + rest;
      DigitRunStops(s[1..], rest);
    }
  }

  datatype Number = Number(n: nat, rest: string)

  /** A leading number; one that does not fit in an int is read as the largest. */
  function ParseNumber(s: string): Option<Number> {
    var k := DigitRun(s);
    if k == 0 then None
    else Some(Number(if Value(s[..k]) > MAX_INT then MAX_INT else Value(s[..k]), s[k..]))
  }

  lemma NumberRoundTrip(n: nat, rest: string)
    requires n <= MAX_INT && (rest == "" || !Digit(rest[0]))
    ensures ParseNumber(Itoa(n) + rest) == Some(Number(n, rest))
  {
    var s := Itoa(n);
    DigitRunStops(s, rest);
    assert (s + rest)[..|s|] == s && (s + rest)[|s|..] == rest;
  }

  // --------------------------------------------------------------- versions

  predicate Alnum(c: char) {
    Digit(c) || 'A' <= c <= 'Z' || 'a' <= c <= 'z'
  }

  /** Alphanumeric words separated by single dots. */
  predicate ValidPre(p: string) {
    && p != ""
    && (forall i :: 0 <= i < |p| ==> Alnum(p[i]) || p[i] == '.')
    && (forall i :: 0 <= i < |p| && p[i] == '.' ==> 0 < i < |p| - 1 && Alnum(p[i + 1]))
  }

  predicate WellFormed(v: Version) {
    v.major <= MAX_INT && v.minor <= MAX_INT && v.patch <= MAX_INT && (v.pre == "" || ValidPre(v.pre))
  }

  function AfterDot(s: string): Option<Number> {
    if s == "" || s[0] != '.' then None else ParseNumber(s[1..])
  }

  function ParsePre(s: string): Option<string> {
    if s == "" then Some("")
    else if s[0] == '-' && ValidPre(s[1..]) then Some(s[1..])
    else None
  }

  function ParsePatch(major: nat, minor: nat, s: string): Option<Version> {
    match AfterDot(s)
    case None => None
    case Some(Number(patch, rest)) =>
      match ParsePre(rest)
      case None => None
      case Some(pre) => Some(Version(major, minor, patch, pre))
  }

  function ParseMinor(major: nat, s: string): Option<Version> {
    match AfterDot(s)
    case None => None
    case Some(Number(minor, rest)) => ParsePatch(major, minor, rest)
  }

  /** Three numbers and an optional suffix, after an optional v. */
  function Parse(s: string): (r: Option<Version>)
    ensures r.Some? ==> WellFormed(r.value)
  {
    match ParseNumber(if s != "" && s[0] == 'v' then s[1..] else s)
    case None => None
    case Some(Number(major, rest)) => ParseMinor(major, rest)
  }

  function ShowPre(pre: string): string {
    if pre == "" then "" else "-" + pre
  }

  function ShowPatch(patch: nat, pre: string): string {
    "." + (Itoa(patch) + ShowPre(pre))
  }

  function ShowMinor(minor: nat, patch: nat, pre: string): string {
    "." + (Itoa(minor) + ShowPatch(patch, pre))
  }

  function Show(v: Version): string {
    Itoa(v.major) + ShowMinor(v.minor, v.patch, v.pre)
  }

  lemma AfterDotOf(n: nat, rest: string)
    requires n <= MAX_INT && (rest == "" || !Digit(rest[0]))
    ensures AfterDot("." + (Itoa(n) + rest)) == Some(Number(n, rest))
  {
    assert ("." + (Itoa(n) + rest))[1..] == Itoa(n) + rest;
    NumberRoundTrip(n, rest);
  }

  lemma PatchRoundTrip(major: nat, minor: nat, patch: nat, pre: string)
    requires patch <= MAX_INT && (pre == "" || ValidPre(pre))
    ensures ParsePatch(major, minor, ShowPatch(patch, pre)) == Some(Version(major, minor, patch, pre))
  {
    AfterDotOf(patch, ShowPre(pre));
    assert pre != "" ==> ShowPre(pre)[1..] == pre;
  }

  /** Any version that can be read is read back from its text. */
  lemma ShowRoundTrip(v: Version)
    requires WellFormed(v)
    ensures Parse(Show(v)) == Some(v)
  {
    PatchRoundTrip(v.major, v.minor, v.patch, v.pre);
    AfterDotOf(v.minor, ShowPatch(v.patch, v.pre));
    var rest := ShowMinor(v.minor, v.patch, v.pre);
    NumberRoundTrip(v.major, rest);
    assert Digit((Itoa(v.major) + rest)[0]);
  }

  // ------------------------------------------------------------ pre-releases

  /** How many characters of s are digits, or not digits, like the first. */
  function ChunkLen(s: string): (n: nat)
    requires s != ""
    ensures 0 < n <= |s|
    ensures forall i :: 0 <= i < n ==> (Digit(s[i]) <==> Digit(s[0]))
  {
    if |s| == 1 || Digit(s[1]) != Digit(s[0]) then 1 else 1 + ChunkLen(s[1..])
  }

  method Chunk(s: string) returns (head: string, rest: string)
    requires s != ""
    ensures head == s[..ChunkLen(s)] && rest == s[ChunkLen(s)..]
  {
    var digit := Digit(s[0]);
    var i := 1;
    while i < |s| && Digit(s[i]) == digit
      invariant 1 <= i <= |s| && Digit(s[i - 1]) == digit
      invariant ChunkLen(s) == i - 1 + ChunkLen(s[i - 1..])
    {
      assert s[i - 1..][1..] == s[i..];
      i := i + 1;
    }
    return s[..i], s[i..];
  }

  /** An integer, unless there is something else than digits or it does not fit. */
  function Atoi(s: string): Option<int> {
    if s == "" || !AllDigits(s) || Value(s) > MAX_INT then None else Some(Value(s))
  }

  predicate CharLess(a: char, b: char) {
    a < b
  }

  /** The order of the verdict of two chunks: negative, zero or positive. */
  function CompareChunks(a: string, b: string): int {
    if Atoi(a).Some? && Atoi(b).Some? then
      if Atoi(a).value < Atoi(b).value then -1 else if Atoi(a).value > Atoi(b).value then 1 else 0
    else if a == b then 0
    else if Lex(CharLess, a, b) then -1
    else 1
  }

  function Compare(a: string, b: string): int
    decreases |a|
  {
    if a == "" || b == "" then |a| - |b|
    else
      var c := CompareChunks(a[..ChunkLen(a)], b[..ChunkLen(b)]);
      if c != 0 then c else Compare(a[ChunkLen(a)..], b[ChunkLen(b)..])
  }

  /** Compares two pre-release suffixes, the numbers as numbers. */
  method Natural(x: string, y: string) returns (r: int)
    ensures r == Compare(x, y)
  {
    var a, b := x, y;
    while a != "" && b != ""
      invariant Compare(a, b) == Compare(x, y)
      decreases |a|
    {
      var ca, ra := Chunk(a);
      var cb, rb := Chunk(b);
      var na, nb := Atoi(ca), Atoi(cb);
      if na.Some? && nb.Some? && na != nb {
        return if na.value < nb.value then -1 else 1;
      } else if (na.None? || nb.None?) && ca != cb {
        return if Lex(CharLess, ca, cb) then -1 else 1;
      }
      a, b := ra, rb;
    }
    return |a| - |b|;
  }

  /** Every run of digits is m at most. */
  predicate RunsAtMost(s: string, m: int)
    decreases |s|
  {
    s != "" ==>
      var head := s[..ChunkLen(s)];
      (Digit(s[0]) ==> Value(head) <= m) && RunsAtMost(s[ChunkLen(s)..], m)
  }

  /** Every run of digits fits in an int. */
  predicate RunsFit(s: string) {
    RunsAtMost(s, MAX_INT)
  }

  // ------------------------------------------------------------- their order

  /** What matters of a chunk. */
  datatype Key = Num(n: int) | Text(s: string)

  function KeyOf(s: string): Key {
    if Atoi(s).Some? then Num(Atoi(s).value) else Text(s)
  }

  /** Numbers come before texts that start above '9', after the others. */
  predicate KeyLess(a: Key, b: Key) {
    match (a, b)
    case (Num(m), Num(n)) => m < n
    case (Num(m), Text(t)) => t != "" && t[0] > '9'
    case (Text(s), Num(n)) => s == "" || s[0] <= '9'
    case (Text(s), Text(t)) => Lex(CharLess, s, t)
  }

  lemma KeysOrdered()
    ensures StrictTotal(KeyLess)
  {
    assert StrictTotal(CharLess);
    forall x: Key, y: Key
      ensures x == y || KeyLess(x, y) || KeyLess(y, x)
      ensures KeyLess(x, y) ==> x != y && !KeyLess(y, x)
    {
      if x.Text? && y.Text? {
        LexTotal(CharLess, x.s, y.s);
      }
    }
    forall x: Key, y: Key, z: Key | KeyLess(x, y) && KeyLess(y, z)
      ensures KeyLess(x, z)
    {
      if x.Text? && y.Text? && z.Text? {
        LexTransitive(CharLess, x.s, y.s, z.s);
      }
    }
  }

  function Keys(s: string): seq<Key>
    decreases |s|
  {
    if s == "" then [] else [KeyOf(s[..ChunkLen(s)])] + Keys(s[ChunkLen(s)..])
  }

  /** Comparing two chunks whose numbers fit is comparing their keys. */
  lemma ChunksByKey(a: string, b: string)
    requires a != "" && b != ""
    requires Digit(a[0]) ==> AllDigits(a) && Value(a) <= MAX_INT
    requires Digit(b[0]) ==> AllDigits(b) && Value(b) <= MAX_INT
    ensures CompareChunks(a, b) < 0 <==> KeyLess(KeyOf(a), KeyOf(b))
    ensures CompareChunks(a, b) == 0 <==> KeyOf(a) == KeyOf(b)
  {
    assert Digit(a[0]) <==> Atoi(a).Some?;
    assert Digit(b[0]) <==> Atoi(b).Some?;
    assert StrictTotal(CharLess);
    LexTotal(CharLess, a, b);
  }

  /** When all numbers fit, suffixes compare as the lists of their keys. */
  lemma {:induction false} CompareByKeys(a: string, b: string)
    requires RunsFit(a) && RunsFit(b)
    ensures Compare(a, b) < 0 <==> Lex(KeyLess, Keys(a), Keys(b))
    ensures Compare(a, b) == 0 <==> Keys(a) == Keys(b)
    decreases |a|
  {
    if a != "" && b != "" {
      var i, j := ChunkLen(a), ChunkLen(b);
      ChunksByKey(a[..i], b[..j]);
      CompareByKeys(a[i..], b[j..]);
      var ka, kb := Keys(a), Keys(b);
      assert ka[1..] == Keys(a[i..]) && kb[1..] == Keys(b[j..]);
      assert ka == [ka[0]] + ka[1..] && kb == [kb[0]] + kb[1..];
      KeysOrdered();
    }
  }

  // ------------------------------------------------------------------- newer

  /** Whether version a comes after version b: a test version comes before its final one. */
  function After(a: Version, b: Version): bool {
    if a.major != b.major then a.major > b.major
    else if a.minor != b.minor then a.minor > b.minor
    else if a.patch != b.patch then a.patch > b.patch
    else SuffixAfter(a.pre, b.pre)
  }

  /** The same of two suffixes: none at all comes last. */
  function SuffixAfter(a: string, b: string): bool {
    if a == b then false
    else if a == "" then true
    else if b == "" then false
    else Compare(a, b) > 0
  }

  /** A version that cannot be read is never compared. */
  function NewerSpec(a: string, b: string): bool {
    Parse(a).Some? && Parse(b).Some? && After(Parse(a).value, Parse(b).value)
  }

  method Newer(a: string, b: string) returns (r: bool)
    ensures r == NewerSpec(a, b)
  {
    var va, vb := Parse(a), Parse(b);
    if va.None? || vb.None? {
      return false;
    }
    var x, y := va.value, vb.value;
    var core := CompareCore([x.major, x.minor, x.patch], [y.major, y.minor, y.patch]);
    if core != 0 {
      return core > 0;
    }
    if x.pre == y.pre {
      return false;
    } else if x.pre == "" {
      return true;
    } else if y.pre == "" {
      return false;
    }
    var c := Natural(x.pre, y.pre);
    return c > 0;
  }

  /** The first number that differs decides. */
  method CompareCore(x: seq<int>, y: seq<int>) returns (c: int)
    requires |x| == |y| == 3
    ensures c == if x[0] != y[0] then x[0] - y[0] else if x[1] != y[1] then x[1] - y[1] else x[2] - y[2]
  {
    for i := 0 to 3
      invariant forall j :: 0 <= j < i ==> x[j] == y[j]
    {
      if x[i] != y[i] {
        return x[i] - y[i];
      }
    }
    return 0;
  }

  predicate Comparable(s: string) {
    Parse(s).Some? && RunsFit(Parse(s).value.pre)
  }

  /** The rank of a suffix: final or not, then its keys. */
  function SuffixRank(pre: string): seq<Key> {
    [Num(if pre == "" then 1 else 0)] + Keys(pre)
  }

  /** The rank of a version: its three numbers, then its suffix. */
  function Rank(v: Version): seq<Key> {
    [Num(v.major), Num(v.minor), Num(v.patch)] + SuffixRank(v.pre)
  }

  lemma LexCons<T(!new)>(less: (T, T) -> bool, x: T, a: seq<T>, y: T, b: seq<T>)
    ensures Lex(less, [x] + a, [y] + b) <==> less(x, y) || (x == y && Lex(less, a, b))
  {
    assert ([x] + a)[1..] == a && ([y] + b)[1..] == b;
  }

  lemma SuffixByRank(a: string, b: string)
    requires RunsFit(a) && RunsFit(b)
    ensures SuffixAfter(a, b) <==> Lex(KeyLess, SuffixRank(b), SuffixRank(a))
  {
    LexCons(KeyLess, SuffixRank(b)[0], Keys(b), SuffixRank(a)[0], Keys(a));
    CompareByKeys(b, a);
    CompareByKeys(a, b);
    KeysOrdered();
    LexTotal(KeyLess, Keys(a), Keys(b));
  }

  /** Coming after is having the greater rank. */
  lemma AfterByRank(a: Version, b: Version)
    requires RunsFit(a.pre) && RunsFit(b.pre)
    ensures After(a, b) <==> Lex(KeyLess, Rank(b), Rank(a))
  {
    var a3, b3 := SuffixRank(a.pre), SuffixRank(b.pre);
    var a2, b2 := [Num(a.patch)] + a3, [Num(b.patch)] + b3;
    var a1, b1 := [Num(a.minor)] + a2, [Num(b.minor)] + b2;
    assert Rank(a) == [Num(a.major)] + a1 && Rank(b) == [Num(b.major)] + b1;
    LexCons(KeyLess, Num(b.major), b1, Num(a.major), a1);
    LexCons(KeyLess, Num(b.minor), b2, Num(a.minor), a2);
    LexCons(KeyLess, Num(b.patch), b3, Num(a.patch), a3);
    SuffixByRank(a.pre, b.pre);
  }

  /** Over versions whose numbers fit in an int, "newer" is a strict weak order. */
  lemma NewerIsStrictWeakOrder(a: string, b: string, c: string)
    requires Comparable(a) && Comparable(b) && Comparable(c)
    ensures !NewerSpec(a, a)
    ensures NewerSpec(a, b) ==> !NewerSpec(b, a)
    ensures NewerSpec(a, b) && NewerSpec(b, c) ==> NewerSpec(a, c)
    ensures !NewerSpec(a, b) && !NewerSpec(b, c) ==> !NewerSpec(a, c)
  {
    var va, vb, vc := Parse(a).value, Parse(b).value, Parse(c).value;
    AfterByRank(va, vb);
    AfterByRank(vb, va);
    AfterByRank(vb, vc);
    AfterByRank(vc, vb);
    AfterByRank(va, vc);
    RanksOrdered(Rank(va), Rank(vb), Rank(vc));
  }

  lemma RanksOrdered(x: seq<Key>, y: seq<Key>, z: seq<Key>)
    ensures Lex(KeyLess, x, y) ==> !Lex(KeyLess, y, x)
    ensures Lex(KeyLess, y, x) && Lex(KeyLess, z, y) ==> Lex(KeyLess, z, x)
    ensures !Lex(KeyLess, y, x) && !Lex(KeyLess, z, y) ==> !Lex(KeyLess, z, x)
  {
    KeysOrdered();
    LexTotal(KeyLess, x, y);
    LexTotal(KeyLess, y, z);
    LexTotal(KeyLess, x, z);
    if Lex(KeyLess, y, x) && Lex(KeyLess, z, y) {
      LexTransitive(KeyLess, z, y, x);
    }
    if Lex(KeyLess, x, y) && Lex(KeyLess, y, z) {
      LexTransitive(KeyLess, x, y, z);
    }
  }

  /** A final version is newer than each of its pre-releases. */
  lemma FinalIsNewest(v: Version)
    requires WellFormed(v) && v.pre != ""
    ensures NewerSpec(Show(v.(pre := "")), Show(v)) && !NewerSpec(Show(v), Show(v.(pre := "")))
  {
    ShowRoundTrip(v);
    ShowRoundTrip(v.(pre := ""));
  }

  // -------------------------------------------------------------- the choice

  datatype Entry = Entry(tag: string, draft: bool)

  /** The version an entry offers: that of its tag, if it is published and can be read. */
  function Offer(e: Entry): (r: Option<Version>)
    ensures r.Some? ==> WellFormed(r.value)
  {
    if e.draft then None else Parse(e.tag)
  }

  function Offers(list: seq<Entry>): seq<Option<Version>> {
    seq(|list|, i requires 0 <= i < |list| => Offer(list[i]))
  }

  /** The versions offered. */
  function Listed(offers: seq<Option<Version>>): set<Version> {
    set o | o in offers && o.Some? :: o.value
  }

  /** v is one of seen, and none of them comes after it. */
  ghost predicate Greatest<V>(after: (V, V) -> bool, v: V, seen: set<V>) {
    v in seen && forall w | w in seen :: !after(w, v)
  }

  /** Not coming after is transitive over the versions whose numbers fit. */
  ghost predicate WeakOrder<V(!new)>(after: (V, V) -> bool, fits: V -> bool) {
    && (forall x :: !after(x, x))
    && (forall x, y | fits(x) && fits(y) && after(x, y) :: !after(y, x))
    && (forall x, y, z | fits(x) && fits(y) && fits(z) && !after(x, y) && !after(y, z) :: !after(x, z))
  }

  /** The greater of the greatest so far and one more is the greatest of all. */
  lemma GreatestStep<V(!new)>(after: (V, V) -> bool, fits: V -> bool, v: V, best: V, seen: set<V>)
    requires WeakOrder(after, fits)
    requires Greatest(after, best, seen)
    requires fits(v) && forall w | w in seen :: fits(w)
    ensures Greatest(after, if after(v, best) then v else best, seen + {v})
  {
    if after(v, best) {
      forall w | w in seen
        ensures !after(w, v)
      {
        assert !after(w, best) && !after(best, v);
      }
    }
  }

  predicate Fits(v: Version) {
    RunsFit(v.pre)
  }

  /** What best is: the text of one of the versions seen, none of which comes after it provided their numbers fit. */
  ghost predicate Chosen(best: string, seen: set<Version>) {
    if best == "" then seen == {} else exists v :: v in seen && ChosenAs(best, v, seen)
  }

  ghost predicate ChosenAs(best: string, v: Version, seen: set<Version>) {
    && best == Show(v)
    && WellFormed(v)
    && v in seen
    && ((forall w | w in seen :: Fits(w)) ==> Greatest(After, v, seen))
  }

  lemma VersionsWeaklyOrdered()
    ensures WeakOrder(After, Fits)
  {
    forall x: Version, y: Version | Fits(x) && Fits(y) && After(x, y)
      ensures !After(y, x)
    {
      AfterByRank(x, y);
      AfterByRank(y, x);
      RanksOrdered(Rank(y), Rank(x), Rank(y));
    }
    forall x: Version, y: Version, z: Version | Fits(x) && Fits(y) && Fits(z) && !After(x, y) && !After(y, z)
      ensures !After(x, z)
    {
      AfterByRank(x, y);
      AfterByRank(y, z);
      AfterByRank(x, z);
      RanksOrdered(Rank(x), Rank(y), Rank(z));
    }
  }

  lemma ChosenStep(text: string, v: Version, best: string, b: Version, seen: set<Version>)
    requires text == Show(v) && WellFormed(v) && ChosenAs(best, b, seen)
    ensures if After(v, b) then ChosenAs(text, v, seen + {v}) else ChosenAs(best, b, seen + {v})
  {
    VersionsWeaklyOrdered();
    if forall w | w in seen + {v} :: Fits(w) {
      assert forall w | w in seen :: w in seen + {v};
      assert v in seen + {v};
      GreatestStep(After, Fits, v, b, seen);
    }
  }

  function With(o: Option<Version>, seen: set<Version>): set<Version> {
    if o.None? then seen else seen + {o.value}
  }

  lemma ListedStep(offers: seq<Option<Version>>, i: nat)
    requires i < |offers|
    ensures Listed(offers[..i + 1]) == With(offers[i], Listed(offers[..i]))
  {
    assert offers[..i + 1] == offers[..i] + [offers[i]];
  }

  lemma ShowNotEmpty(v: Version)
    ensures Show(v) != ""
  {
    assert Show(v)[0] == Itoa(v.major)[0];
  }

  lemma FirstChosen(text: string, v: Version)
    requires text == Show(v) && WellFormed(v) && text != ""
    ensures Chosen(text, {v})
  {
    assert !After(v, v);
    assert Greatest(After, v, {v});
    assert ChosenAs(text, v, {v});
  }

  lemma NextChosen(text: string, v: Version, best: string, seen: set<Version>)
    requires text == Show(v) && WellFormed(v) && text != "" && best != "" && Chosen(best, seen)
    ensures Chosen(if NewerSpec(text, best) then text else best, seen + {v})
  {
    var b :| b in seen && ChosenAs(best, b, seen);
    ShowRoundTrip(v);
    ShowRoundTrip(b);
    ChosenStep(text, v, best, b, seen);
    assert b in seen + {v} && v in seen + {v};
  }

  /** Keeps the best of what was chosen so far and one more version. */
  method Better(v: Version, best: string, ghost seen: set<Version>) returns (r: string)
    requires WellFormed(v) && Chosen(best, seen)
    ensures Chosen(r, seen + {v})
  {
    ShowNotEmpty(v);
    var text := Show(v);
    if best == "" {
      FirstChosen(text, v);
      assert seen + {v} == {v};
      return text;
    }
    r := Keep(text, v, best, seen);
  }

  /** The newer of two versions. */
  method Keep(text: string, ghost v: Version, best: string, ghost seen: set<Version>) returns (r: string)
    requires text == Show(v) && WellFormed(v) && text != "" && best != "" && Chosen(best, seen)
    ensures Chosen(r, seen + {v})
  {
    NextChosen(text, v, best, seen);
    var newer := Newer(text, best);
    r := if newer then text else best;
  }

  /**
   * The version chosen among those published: one of them, after which none
   * comes provided their numbers fit; nothing when none can be read.
   */
  method Latest(list: seq<Entry>) returns (best: string)
    ensures Chosen(best, Listed(Offers(list)))
  {
    best := Fold(Offers(list));
  }

  method Fold(offers: seq<Option<Version>>) returns (best: string)
    requires forall o | o in offers && o.Some? :: WellFormed(o.value)
    ensures Chosen(best, Listed(offers))
  {
    best := "";
    ghost var seen: set<Version> := {};
    for i := 0 to |offers|
      invariant seen == Listed(offers[..i])
      invariant Chosen(best, seen)
    {
      if offers[i].Some? {
        best := Better(offers[i].value, best, seen);
      }
      ListedStep(offers, i);
      seen := With(offers[i], seen);
    }
    assert offers[..|offers|] == offers;
  }

  lemma OfferOf(list: seq<Entry>, e: Entry)
    requires e in list && !e.draft
    ensures Parse(e.tag) in Offers(list)
  {
    var i :| 0 <= i < |list| && list[i] == e;
    assert Offers(list)[i] == Parse(e.tag);
  }

  lemma OfferListed(list: seq<Entry>, e: Entry)
    requires e in list && !e.draft
    ensures Parse(e.tag).Some? ==> Parse(e.tag).value in Listed(Offers(list))
  {
    OfferOf(list, e);
  }

  /** The version chosen is that of a tag that is published, not a draft; none is chosen only if no such tag can be read. */
  lemma ChosenIsPublished(list: seq<Entry>, best: string)
    requires Chosen(best, Listed(Offers(list)))
    ensures best == "" ==> forall e | e in list && !e.draft :: Parse(e.tag).None?
    ensures best != "" ==> exists e :: e in list && !e.draft && Parse(e.tag).Some? && best == Show(Parse(e.tag).value)
  {
    if best == "" {
      forall e | e in list && !e.draft
        ensures Parse(e.tag).None?
      {
        OfferListed(list, e);
      }
    } else {
      var v :| v in Listed(Offers(list)) && ChosenAs(best, v, Listed(Offers(list)));
      var o :| o in Offers(list) && o == Some(v);
      var i :| 0 <= i < |Offers(list)| && Offers(list)[i] == o;
      assert list[i] in list && !list[i].draft && Parse(list[i].tag) == Some(v);
    }
  }

  /** Provided the numbers of those listed fit in an int, none is newer than the version chosen. */
  lemma NoneNewer(list: seq<Entry>, best: string, e: Entry)
    requires Chosen(best, Listed(Offers(list))) && best != ""
    requires forall w | w in Listed(Offers(list)) :: Fits(w)
    requires e in list && !e.draft
    ensures !NewerSpec(e.tag, best)
  {
    var seen := Listed(Offers(list));
    var v :| v in seen && ChosenAs(best, v, seen);
    OfferOf(list, e);
    ShowRoundTrip(v);
    NotAfter(Parse(e.tag), v, Offers(list));
  }

  lemma NotAfter(o: Option<Version>, v: Version, offers: seq<Option<Version>>)
    requires o in offers && Greatest(After, v, Listed(offers))
    ensures o.Some? ==> !After(o.value, v)
  {
    assert o.Some? ==> o.value in Listed(offers);
  }
}
