/** The texts that are versions, and which of two is the newer (internal/update/update.go). */
module VersionTexts {
  import opened Orders
  import opened Versions
  import opened Wrappers

  // ------------------------------------------------------------- the grammar

  /** One letter or digit at least. */
  predicate Word(s: string) {
    s != "" && forall c | c in s :: '0' <= c <= '9' || 'A' <= c <= 'Z' || 'a' <= c <= 'z'
  }

  /** Words separated by dots. */
  predicate Words(s: string)
    decreases |s|
  {
    Word(s) || exists k :: 0 < k < |s| && s[k] == '.' && Word(s[..k]) && Words(s[k + 1..])
  }

  lemma WordIsValid(s: string)
    requires Word(s)
    ensures ValidPre(s)
  {
    forall i | 0 <= i < |s|
      ensures Alnum(s[i])
    {
      assert s[i] in s;
    }
  }

  lemma {:induction false} WordsAreValid(s: string)
    requires Words(s)
    ensures ValidPre(s)
    decreases |s|
  {
    if Word(s) {
      WordIsValid(s);
    } else {
      var k :| 0 < k < |s| && s[k] == '.' && Word(s[..k]) && Words(s[k + 1..]);
      WordsAreValid(s[k + 1..]);
      ValidJoined(s, k);
    }
  }

  lemma ValidJoined(s: string, k: nat)
    requires 0 < k < |s| && s[k] == '.' && Word(s[..k]) && ValidPre(s[k + 1..])
    ensures ValidPre(s)
  {
    var head, tail := s[..k], s[k + 1..];
    WordIsValid(head);
    forall i | 0 <= i < |s|
      ensures Alnum(s[i]) || s[i] == '.'
      ensures s[i] == '.' ==> 0 < i < |s| - 1 && Alnum(s[i + 1])
    {
      if i < k {
        assert s[i] == head[i] && head[i] in head;
      } else if i == k {
        assert s[k + 1] == tail[0] && Alnum(tail[0]);
      } else {
        var j := i - k - 1;
        assert s[i] == tail[j];
        if tail[j] == '.' {
          assert s[i + 1] == tail[j + 1];
        }
      }
    }
  }

  /** Where the first dot is, the length when there is none. */
  function FirstDot(s: string): (k: nat)
    ensures k <= |s| && (k < |s| ==> s[k] == '.') && forall i :: 0 <= i < k ==> s[i] != '.'
  {
    if s == "" || s[0] == '.' then 0 else 1 + FirstDot(s[1..])
  }

  lemma {:induction false} ValidIsWords(s: string)
    requires ValidPre(s)
    ensures Words(s)
    decreases |s|
  {
    var k := FirstDot(s);
    if k == |s| {
      forall c | c in s
        ensures Alnum(c)
      {
        var i :| 0 <= i < |s| && s[i] == c;
      }
      assert Word(s);
    } else {
      var head, tail := s[..k], s[k + 1..];
      forall c | c in head
        ensures Alnum(c)
      {
        var i :| 0 <= i < k && s[i] == c;
      }
      forall i | 0 <= i < |tail|
        ensures tail[i] == s[k + 1 + i]
      {}
      assert tail[0] == s[k + 1];
      ValidIsWords(tail);
      assert Word(s[..k]) && Words(s[k + 1..]);
    }
  }

  predicate Number(s: string) {
    s != "" && AllDigits(s)
  }

  /** A number as it is kept: the largest integer when it does not fit. */
  function Kept(s: string): nat
    requires Number(s)
  {
    if Value(s) > 0x7fff_ffff_ffff_ffff then 0x7fff_ffff_ffff_ffff else Value(s)
  }

  predicate Suffix(s: string) {
    s == "" || (s[0] == '-' && Words(s[1..]))
  }

  function Pre(suffix: string): string {
    if suffix == "" then "" else suffix[1..]
  }

  /** An optional v, three numbers separated by dots, and a suffix of dotted words if any. */
  predicate Reads(s: string, lead: string, a: string, b: string, c: string, suffix: string) {
    && (lead == "" || lead == "v")
    && Number(a) && Number(b) && Number(c)
    && Suffix(suffix)
    && s == lead + (a + ("." + (b + ("." + (c + suffix)))))
  }

  lemma ReadNumber(digits: string, rest: string)
    requires Number(digits) && (rest == "" || !Digit(rest[0]))
    ensures ParseNumber(digits + rest) == Some(Versions.Number(Kept(digits), rest))
  {
    DigitRunStops(digits, rest);
    assert (digits + rest)[..|digits|] == digits && (digits + rest)[|digits|..] == rest;
  }

  lemma ReadDotNumber(digits: string, rest: string)
    requires Number(digits) && (rest == "" || !Digit(rest[0]))
    ensures AfterDot("." + (digits + rest)) == Some(Versions.Number(Kept(digits), rest))
  {
    assert ("." + (digits + rest))[1..] == digits + rest;
    ReadNumber(digits, rest);
  }

  lemma ReadSuffix(suffix: string)
    requires Suffix(suffix)
    ensures ParsePre(suffix) == Some(Pre(suffix))
  {
    if suffix != "" {
      WordsAreValid(suffix[1..]);
    }
  }

  lemma PatchRead(major: nat, minor: nat, c: string, suffix: string)
    requires Number(c) && Suffix(suffix)
    ensures ParsePatch(major, minor, "." + (c + suffix)) == Some(Version(major, minor, Kept(c), Pre(suffix)))
  {
    ReadSuffix(suffix);
    ReadDotNumber(c, suffix);
  }

  lemma MinorRead(major: nat, b: string, c: string, suffix: string)
    requires Number(b) && Number(c) && Suffix(suffix)
    ensures ParseMinor(major, "." + (b + ("." + (c + suffix)))) == Some(Version(major, Kept(b), Kept(c), Pre(suffix)))
  {
    PatchRead(major, Kept(b), c, suffix);
    ReadDotNumber(b, "." + (c + suffix));
  }

  /** The text after the optional v. */
  function Bare(s: string): string {
    if s != "" && s[0] == 'v' then s[1..] else s
  }

  lemma BareIs(lead: string, a: string, rest: string)
    requires (lead == "" || lead == "v") && Number(a)
    ensures Bare(lead + (a + rest)) == a + rest
  {
    assert a[0] in a && Digit(a[0]);
    var s := lead + (a + rest);
    if lead == "" {
      assert s == a + rest && s[0] == a[0];
    } else {
      assert s[0] == 'v' && s[1..] == a + rest;
    }
  }

  lemma ReadsIsParsed(s: string, lead: string, a: string, b: string, c: string, suffix: string)
    requires Reads(s, lead, a, b, c, suffix)
    ensures Parse(s) == Some(Version(Kept(a), Kept(b), Kept(c), Pre(suffix)))
  {
    var rest := "." + (b + ("." + (c + suffix)));
    MinorRead(Kept(a), b, c, suffix);
    ReadNumber(a, rest);
    BareIs(lead, a, rest);
  }

  lemma NumberFound(s: string) returns (digits: string, rest: string)
    requires ParseNumber(s).Some?
    ensures Number(digits) && s == digits + rest && ParseNumber(s).value.rest == rest
  {
    digits, rest := s[..DigitRun(s)], s[DigitRun(s)..];
  }

  lemma DotNumberFound(s: string) returns (digits: string, rest: string)
    requires AfterDot(s).Some?
    ensures Number(digits) && s == "." + (digits + rest) && AfterDot(s).value.rest == rest
  {
    digits, rest := NumberFound(s[1..]);
    assert s == "." + s[1..];
  }

  lemma PatchFound(major: nat, minor: nat, s: string) returns (c: string, suffix: string)
    requires ParsePatch(major, minor, s).Some?
    ensures Number(c) && Suffix(suffix) && s == "." + (c + suffix)
  {
    c, suffix := DotNumberFound(s);
    if suffix != "" {
      ValidIsWords(suffix[1..]);
    }
  }

  lemma MinorFound(major: nat, s: string) returns (b: string, c: string, suffix: string)
    requires ParseMinor(major, s).Some?
    ensures Number(b) && Number(c) && Suffix(suffix) && s == "." + (b + ("." + (c + suffix)))
  {
    var rest;
    b, rest := DotNumberFound(s);
    c, suffix := PatchFound(major, AfterDot(s).value.n, rest);
  }

  lemma ParsedReads(s: string) returns (lead: string, a: string, b: string, c: string, suffix: string)
    requires Parse(s).Some?
    ensures Reads(s, lead, a, b, c, suffix)
  {
    lead := if s != "" && s[0] == 'v' then "v" else "";
    assert s == lead + Bare(s);
    var rest;
    a, rest := NumberFound(Bare(s));
    b, c, suffix := MinorFound(ParseNumber(Bare(s)).value.n, rest);
  }

  /**
   * A text is read as a version exactly when it is, after an optional v, three
   * numbers and a suffix of dotted words if any: the version of these numbers,
   * the largest integer standing for those that do not fit, and of this suffix.
   */
  lemma ParseIff(s: string, v: Version)
    ensures Parse(s) == Some(v) <==>
              exists lead, a, b, c, suffix :: Reads(s, lead, a, b, c, suffix)
                && v == Version(Kept(a), Kept(b), Kept(c), Pre(suffix))
  {
    if Parse(s) == Some(v) {
      var lead, a, b, c, suffix := ParsedReads(s);
      ReadsIsParsed(s, lead, a, b, c, suffix);
    }
    forall lead, a, b, c, suffix | Reads(s, lead, a, b, c, suffix)
      ensures Parse(s) == Some(Version(Kept(a), Kept(b), Kept(c), Pre(suffix)))
    {
      ReadsIsParsed(s, lead, a, b, c, suffix);
    }
  }

  /** The tag of a published version, with its v, is that version. */
  lemma TagIsRead(v: Version)
    requires WellFormed(v)
    ensures Parse("v" + Show(v)) == Some(v)
  {
    ShowRoundTrip(v);
    assert ("v" + Show(v))[1..] == Show(v);
    assert Show(v)[0] == Itoa(v.major)[0] && Itoa(v.major)[0] in Itoa(v.major);
  }

  // ---------------------------------------------------------------- the newer

  /**
   * The first number that differs decides; with the same three the final
   * version is the newer; two suffixes compare by their chunks.
   */
  lemma NewerInFigures(v: Version, w: Version)
    requires WellFormed(v) && WellFormed(w)
    ensures var newer := NewerSpec(Show(v), Show(w));
            && (v.major > w.major ==> newer)
            && (v.major < w.major ==> !newer)
            && (v.major == w.major && v.minor > w.minor ==> newer)
            && (v.major == w.major && v.minor < w.minor ==> !newer)
            && (v.major == w.major && v.minor == w.minor && v.patch > w.patch ==> newer)
            && (v.major == w.major && v.minor == w.minor && v.patch < w.patch ==> !newer)
            && (v.(pre := "") == w.(pre := "") && v.pre == "" ==> (newer <==> w.pre != ""))
            && (v.(pre := "") == w.(pre := "") && v.pre != "" && w.pre == "" ==> !newer)
  {
    NewerIsAfter(v, w);
  }

  lemma NewerIsAfter(v: Version, w: Version)
    requires WellFormed(v) && WellFormed(w)
    ensures NewerSpec(Show(v), Show(w)) <==> After(v, w)
  {
    ShowRoundTrip(v);
    ShowRoundTrip(w);
  }

  /** The run of digits, or of other characters, at the head of a text. */
  lemma {:induction false} ChunkIs(x: string, rest: string)
    requires x != "" && (forall c | c in x :: Digit(c) <==> Digit(x[0]))
    requires rest != "" ==> (Digit(rest[0]) <==> !Digit(x[0]))
    ensures ChunkLen(x + rest) == |x|
    ensures (x + rest)[..|x|] == x && (x + rest)[|x|..] == rest
  {
    var s := x + rest;
    if |x| > 1 {
      assert s[1..] == x[1..] + rest && x[1] in x;
      assert forall c | c in x[1..] :: c in x;
      ChunkIs(x[1..], rest);
    }
  }

  predicate Chunked(x: string, rest: string) {
    && x != "" && (forall c | c in x :: Digit(c) <==> Digit(x[0]))
    && (rest != "" ==> (Digit(rest[0]) <==> !Digit(x[0])))
  }

  lemma CompareAfter(x: string, y: string, z: string)
    requires Chunked(x, y) && Chunked(x, z)
    ensures Compare(x + y, x + z) == Compare(y, z)
  {
    ChunkIs(x, y);
    ChunkIs(x, z);
    assert CompareChunks(x, x) == 0;
  }

  lemma CompareHeads(a: string, y: string, b: string, z: string)
    requires Chunked(a, y) && Chunked(b, z) && CompareChunks(a, b) != 0
    ensures Compare(a + y, b + z) == CompareChunks(a, b)
  {
    ChunkIs(a, y);
    ChunkIs(b, z);
  }

  lemma NumberChunked(n: nat, rest: string)
    requires rest != "" ==> !Digit(rest[0])
    ensures Chunked(Itoa(n), rest) && Digit((Itoa(n) + rest)[0])
  {
    assert Itoa(n)[0] in Itoa(n);
  }

  lemma NumbersCompare(m: nat, n: nat, y: string, z: string)
    requires (y != "" ==> !Digit(y[0])) && (z != "" ==> !Digit(z[0]))
    requires n < m <= 0x7fff_ffff_ffff_ffff
    ensures Compare(Itoa(m) + y, Itoa(n) + z) > 0 && Compare(Itoa(n) + z, Itoa(m) + y) < 0
  {
    NumberChunked(m, y);
    NumberChunked(n, z);
    NumbersAsChunks(m, n);
    CompareHeads(Itoa(m), y, Itoa(n), z);
    CompareHeads(Itoa(n), z, Itoa(m), y);
  }

  lemma NumbersAsChunks(m: nat, n: nat)
    requires n < m <= 0x7fff_ffff_ffff_ffff
    ensures CompareChunks(Itoa(m), Itoa(n)) == 1 && CompareChunks(Itoa(n), Itoa(m)) == -1
  {}

  /**
   * After the same words, the numbers of two suffixes compare as numbers, and
   * what follows them does not matter: rc10 is newer than rc9.
   */
  lemma SuffixNumbers(words: string, m: nat, n: nat, y: string, z: string)
    requires words != "" && forall c | c in words :: !Digit(c)
    requires (y != "" ==> !Digit(y[0])) && (z != "" ==> !Digit(z[0]))
    requires n < m <= 0x7fff_ffff_ffff_ffff
    ensures Compare(words + (Itoa(m) + y), words + (Itoa(n) + z)) > 0
    ensures Compare(words + (Itoa(n) + z), words + (Itoa(m) + y)) < 0
  {
    assert words[0] in words;
    NumberChunked(m, y);
    NumberChunked(n, z);
    CompareAfter(words, Itoa(m) + y, Itoa(n) + z);
    CompareAfter(words, Itoa(n) + z, Itoa(m) + y);
    NumbersCompare(m, n, y, z);
  }

  /** Different words compare letter by letter, whatever numbers follow: beta is newer than alpha. */
  lemma SuffixWords(v: string, w: string, y: string, z: string)
    requires v != "" && w != "" && (forall c | c in v :: !Digit(c)) && (forall c | c in w :: !Digit(c))
    requires (y != "" ==> Digit(y[0])) && (z != "" ==> Digit(z[0]))
    requires Lex((a: char, b: char) => a < b, v, w)
    ensures Compare(v + y, w + z) < 0 && Compare(w + z, v + y) > 0
  {
    assert v[0] in v && w[0] in w;
    SameLex((a: char, b: char) => a < b, CharLess, v, w);
    LexTotal(CharLess, v, w);
    CompareHeads(v, y, w, z);
    CompareHeads(w, z, v, y);
  }

  lemma {:induction false} SameLex(f: (char, char) -> bool, g: (char, char) -> bool, v: string, w: string)
    requires forall a: char, b: char :: f(a, b) <==> g(a, b)
    ensures Lex(f, v, w) <==> Lex(g, v, w)
  {
    if v != "" && w != "" {
      SameLex(f, g, v[1..], w[1..]);
    }
  }

  /** When one suffix goes on where the other stops, at the end of a run, it is the newer: rc1 after rc. */
  lemma SuffixLonger(x: string, y: string)
    requires y != "" && Chunked(x, y)
    ensures Compare(x + y, x) > 0 && Compare(x, x + y) < 0
  {
    assert x + "" == x;
    CompareAfter(x, y, "");
    CompareAfter(x, "", y);
  }
}
