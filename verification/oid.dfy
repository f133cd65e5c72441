/** Object identifiers: their order, their branches and their encoding (internal/snmp/snmp.go). */
module Oids {
  import opened Wrappers
  import opened Orders

  type Oid = seq<uint32>

  /** An identifier of at least two arcs: the only ones that can be parsed or written. */
  type Name = o: Oid | |o| >= 2 witness [0, 0]

  // ----------------------------------------------------------------- order

  predicate ArcLess(x: uint32, y: uint32) {
    x < y
  }

  /** A branch comes before what it holds. */
  predicate Less(a: Oid, b: Oid) {
    Lex(ArcLess, a, b)
  }

  predicate HasPrefix(o: Oid, p: Oid) {
    |p| <= |o| && o[..|p|] == p
  }

  /** Compares arc by arc, then by length: negative, zero or positive as a is before, at or after b. */
  method Compare(a: Oid, b: Oid) returns (r: int)
    ensures r < 0 <==> Less(a, b)
    ensures r > 0 <==> Less(b, a)
    ensures r == 0 <==> a == b
  {
    var i := 0;
    while i < |a| && i < |b|
      invariant 0 <= i <= |a| && i <= |b|
      invariant a[..i] == b[..i]
    {
      if a[i] != b[i] {
        LessAfterCommon(a, b, i);
        LessAfterCommon(b, a, i);
        return if a[i] < b[i] then -1 else 1;
      }
      i := i + 1;
    }
    LessAfterCommon(a, b, i);
    LessAfterCommon(b, a, i);
    assert a == a[..i] + a[i..] && b == b[..i] + b[i..];
    return |a| - |b|;
  }

  method InBranch(o: Oid, p: Oid) returns (r: bool)
    ensures r == HasPrefix(o, p)
  {
    if |o| < |p| {
      return false;
    }
    for i := 0 to |p|
      invariant o[..i] == p[..i]
    {
      if o[i] != p[i] {
        assert o[..|p|][i] == o[i];
        return false;
      }
    }
    return true;
  }

  lemma {:induction false} LessAfterCommon(a: Oid, b: Oid, i: nat)
    requires i <= |a| && i <= |b| && a[..i] == b[..i]
    ensures Less(a, b) <==> Less(a[i..], b[i..])
  {
    if i > 0 {
      assert a[0] == a[..i][0] && b[0] == b[..i][0];
      assert a[1..][..i - 1] == a[..i][1..] && b[1..][..i - 1] == b[..i][1..];
      LessAfterCommon(a[1..], b[1..], i - 1);
      assert a[1..][i - 1..] == a[i..] && b[1..][i - 1..] == b[i..];
    } else {
      assert a[i..] == a && b[i..] == b;
    }
  }

  /** The order is total and strict. */
  lemma LessTotal(a: Oid, b: Oid)
    ensures (if Less(a, b) then 1 else 0) + (if Less(b, a) then 1 else 0) + (if a == b then 1 else 0) == 1
  {
    LexTotal(ArcLess, a, b);
    LexTotal(ArcLess, b, a);
  }

  lemma LessTransitive(a: Oid, b: Oid, c: Oid)
    requires Less(a, b) && Less(b, c)
    ensures Less(a, c)
  {
    LexTransitive(ArcLess, a, b, c);
  }

  /** A branch is contiguous: what lies between two of its objects belongs to it. */
  lemma {:induction false} BranchContiguous(a: Oid, b: Oid, c: Oid, p: Oid)
    requires Less(a, b) && Less(b, c)
    requires HasPrefix(a, p) && HasPrefix(c, p)
    ensures HasPrefix(b, p)
  {
    if p != [] {
      assert a[0] == a[..|p|][0] == p[0] && c[0] == c[..|p|][0] == p[0];
      assert a[1..][..|p| - 1] == a[..|p|][1..] && c[1..][..|p| - 1] == c[..|p|][1..];
      BranchContiguous(a[1..], b[1..], c[1..], p[1..]);
      assert b[..|p|] == [b[0]] + b[1..][..|p| - 1];
    }
  }

  /** The root of a branch precedes everything else in it. */
  lemma {:induction false} RootFirst(o: Oid, p: Oid)
    requires HasPrefix(o, p)
    ensures o == p || Less(p, o)
  {
    if p != [] {
      assert o[0] == o[..|p|][0];
      assert o[1..][..|p| - 1] == o[..|p|][1..];
      RootFirst(o[1..], p[1..]);
      assert o == [o[0]] + o[1..] && p == [p[0]] + p[1..];
    }
  }

  // -------------------------------------------------------------- encoding

  datatype OidError = Empty | CutShort

  /** The base-128 digits of n, highest first; all but the last carry the continuation bit. */
  function Arc(n: nat): (b: seq<byte>)
    ensures b != [] && b[|b| - 1] == n % 128
  {
    Leading(n / 128) + [n % 128]
  }

  function Leading(n: nat): seq<byte> {
    if n == 0 then [] else Leading(n / 128) + [n % 128 + 128]
  }

  function Arcs(o: Oid): seq<byte> {
    Flatten((n: uint32) => Arc(n), o)
  }

  /** The first two arcs in 32-bit arithmetic, cut to one byte. */
  function FirstOctet(x: uint32, y: uint32): (c: byte)
    ensures c == ((x as int) * 40 + y) % 256
  {
    ((x as int) * 40 + y) % TWO_32 % 256
  }

  /** The content octets of an identifier: two arcs in the first byte, section 8.19 of ITU-T X.690. */
  function OidContent(o: Name): (b: seq<byte>)
    ensures b != []
  {
    [FirstOctet(o[0], o[1])] + Arcs(o[2..])
  }

  function FirstArcs(c: byte): Oid {
    if c >= 80 then [2, c - 80] else [c / 40, c % 40]
  }

  /** The seven bits of a further octet, on 32 bits. */
  function Push(n: uint32, c: byte): uint32 {
    ((n as int) * 128 + c % 128) % TWO_32
  }

  lemma PushDigit(n: uint32)
    ensures Push(n / 128, n % 128 + 128) == n
    ensures Push(n / 128, n % 128) == n
  {
    assert (n % 128 + 128) % 128 == n % 128;
  }

  /** The arcs held in b, n being the part already read of the first one. */
  function ReadArcs(b: seq<byte>, n: uint32): Result<Oid, OidError> {
    if b == [] then Ok([])
    else
      var m := Push(n, b[0]);
      if b[0] < 128 then
        match ReadArcs(b[1..], 0)
        case Ok(o) => Ok([m] + o)
        case Err(e) => Err(e)
      else if |b| == 1 then Err(CutShort)
      else ReadArcs(b[1..], m)
  }

  function ReadOid(b: seq<byte>): Result<Name, OidError> {
    if b == [] then Err(Empty)
    else match ReadArcs(b[1..], 0)
      case Ok(o) => Ok(FirstArcs(b[0]) + o)
      case Err(e) => Err(e)
  }

  /** The first two arcs fit in the first byte, and come back from it. */
  predicate Encodable(o: Name) {
    (o[0] <= 1 && o[1] < 40) || (o[0] == 2 && o[1] <= 175)
  }

  method EncodeOid(o: Name) returns (out: seq<byte>)
    ensures out == OidContent(o)
  {
    out := [FirstOctet(o[0], o[1])];
    var rest := o[2..];
    for k := 0 to |rest|
      invariant out + Arcs(rest[k..]) == OidContent(o)
    {
      FlattenAt((n: uint32) => Arc(n), rest, k);
      ConcatAssociative(out, Arc(rest[k]), Arcs(rest[k + 1..]));
      out := AppendArc(out, rest[k]);
    }
  }

  /** The digits of an arc, lowest first. */
  method Septets(arc: uint32) returns (tmp: seq<byte>)
    ensures Reverse(tmp) == Arc(arc)
  {
    tmp := [arc % 128];
    var n: nat := arc / 128;
    while n > 0
      invariant Leading(n) + Reverse(tmp) == Arc(arc)
    {
      ReverseSnoc(tmp, n % 128 + 128);
      ConcatAssociative(Leading(n / 128), [n % 128 + 128], Reverse(tmp));
      tmp := tmp + [n % 128 + 128];
      n := n / 128;
    }
  }

  /** Appends the digits of an arc, turned round. */
  method AppendArc(out: seq<byte>, arc: uint32) returns (r: seq<byte>)
    ensures r == out + Arc(arc)
  {
    var tmp := Septets(arc);
    r := out;
    assert tmp[..|tmp|] == tmp;
    var i := |tmp| - 1;
    while i >= 0
      invariant -1 <= i < |tmp|
      invariant r + Reverse(tmp[..i + 1]) == out + Arc(arc)
    {
      assert tmp[..i + 1] == tmp[..i] + [tmp[i]];
      ReverseSnoc(tmp[..i], tmp[i]);
      ConcatAssociative(r, [tmp[i]], Reverse(tmp[..i]));
      r := r + [tmp[i]];
      i := i - 1;
    }
  }

  lemma ReverseSnoc(s: seq<byte>, c: byte)
    ensures Reverse(s + [c]) == [c] + Reverse(s)
  {
    assert (s + [c])[..|s|] == s;
  }

  function Reverse(s: seq<byte>): (r: seq<byte>)
    ensures |r| == |s| && forall i :: 0 <= i < |s| ==> r[i] == s[|s| - 1 - i]
  {
    if s == [] then [] else [s[|s| - 1]] + Reverse(s[..|s| - 1])
  }

  method DecodeOid(b: seq<byte>) returns (r: Result<Name, OidError>)
    ensures r == ReadOid(b)
  {
    if |b| == 0 {
      return Err(Empty);
    }
    var out: Name := [b[0] / 40, b[0] % 40];
    if b[0] >= 80 {
      out := [2, b[0] - 80];
    }
    var n: uint32 := 0;
    ghost var tail := b[1..];
    for i := 0 to |b| - 1
      invariant match ReadArcs(tail[i..], n)
                case Ok(o) => ReadOid(b) == Ok(out + o)
                case Err(e) => ReadOid(b) == Err(e)
    {
      var c := b[i + 1];
      assert tail[i..][0] == c && tail[i..][1..] == tail[i + 1..];
      n := Push(n, c);
      if c < 128 {
        ghost var after := ReadArcs(tail[i + 1..], 0);
        assert after.Ok? ==> out + ([n] + after.value) == out + [n] + after.value;
        out := out + [n];
        n := 0;
      } else if i == |b| - 2 {
        return Err(CutShort);
      }
    }
    assert tail[|b| - 1..] == [] && out + [] == out;
    return Ok(out);
  }

  /** The value of bytes of seven bits, highest first. */
  function Base128(b: seq<byte>): nat {
    if b == [] then 0 else Base128(b[..|b| - 1]) * 128 + b[|b| - 1] % 128
  }

  lemma PushWraps(x: nat, c: byte)
    ensures Push(x % TWO_32, c) == (x * 128 + c % 128) % 0x1_0000_0000
  {
    var q, r := x / TWO_32, x % TWO_32;
    assert x * 128 + c % 128 == (r * 128 + c % 128) + (128 * q) * TWO_32;
    ModAdd(r * 128 + c % 128, 128 * q);
  }

  lemma ModAdd(x: nat, k: nat)
    ensures (x + k * TWO_32) % TWO_32 == x % TWO_32
  {
    DivModUnique(x + k * TWO_32, x / TWO_32 + k, x % TWO_32, TWO_32);
  }

  lemma {:induction false} ReadFrom(before: seq<byte>, b: seq<byte>, rest: seq<byte>)
    requires b != [] && b[|b| - 1] < 128 && forall i :: 0 <= i < |b| - 1 ==> b[i] >= 128
    ensures ReadArcs(b + rest, Base128(before) % TWO_32) ==
            match ReadArcs(rest, 0)
            case Ok(o) => Ok([Base128(before + b) % 0x1_0000_0000] + o)
            case Err(e) => Err(e)
    decreases |b|
  {
    var s := b + rest;
    PushWraps(Base128(before), b[0]);
    assert (before + [b[0]])[..|before|] == before;
    assert s[1..] == b[1..] + rest;
    if |b| == 1 {
      assert b == [b[0]] && b[1..] + rest == rest;
    } else {
      assert (before + [b[0]]) + b[1..] == before + b;
      ReadFrom(before + [b[0]], b[1..], rest);
    }
  }

  /** An arc in any form, zeros first or too large, is the value of its bytes on 32 bits. */
  lemma AnyArcRead(b: seq<byte>, rest: seq<byte>)
    requires b != [] && b[|b| - 1] < 128 && forall i :: 0 <= i < |b| - 1 ==> b[i] >= 128
    ensures ReadArcs(b + rest, 0) ==
            match ReadArcs(rest, 0)
            case Ok(o) => Ok([Base128(b) % 0x1_0000_0000] + o)
            case Err(e) => Err(e)
  {
    assert [] + b == b;
    ReadFrom([], b, rest);
  }

  lemma ReadContinuation(n: uint32, rest: seq<byte>)
    requires rest != []
    ensures ReadArcs([n % 128 + 128] + rest, n / 128) == ReadArcs(rest, n)
  {
    assert ([n % 128 + 128] + rest)[1..] == rest;
    PushDigit(n);
  }

  lemma {:induction false} ReadLeading(n: uint32, rest: seq<byte>)
    requires rest != []
    ensures ReadArcs(Leading(n) + rest, 0) == ReadArcs(rest, n)
  {
    if n == 0 {
      assert Leading(n) + rest == rest;
    } else {
      var tail := [n % 128 + 128] + rest;
      assert Leading(n) + rest == Leading(n / 128) + tail;
      ReadLeading(n / 128, tail);
      ReadContinuation(n, rest);
    }
  }

  lemma {:induction false} ReadArcsOfArcs(o: Oid)
    ensures ReadArcs(Arcs(o), 0) == Ok(o)
  {
    if o != [] {
      var tail := [o[0] % 128] + Arcs(o[1..]);
      assert Arcs(o) == Leading(o[0] / 128) + tail;
      ReadLeading(o[0] / 128, tail);
      assert tail[1..] == Arcs(o[1..]);
      PushDigit(o[0]);
      ReadArcsOfArcs(o[1..]);
      assert [o[0]] + o[1..] == o;
    }
  }

  lemma FirstByte(x: uint32, y: uint32)
    ensures FirstArcs(FirstOctet(x, y)) == [x, y] <==> (x <= 1 && y < 40) || (x == 2 && y <= 175)
  {
    var c := FirstOctet(x, y);
    if c >= 80 {
      assert FirstArcs(c) == [2, c - 80];
    } else if c >= 40 {
      assert FirstArcs(c) == [1, c - 40];
    } else {
      assert FirstArcs(c) == [0, c];
    }
  }

  /** An identifier is read back exactly when its first two arcs fit in one byte. */
  lemma OidRoundTrip(o: Name)
    ensures ReadOid(OidContent(o)) == Ok(o) <==> Encodable(o)
  {
    var c := FirstOctet(o[0], o[1]);
    var tail := o[2..];
    assert OidContent(o)[1..] == Arcs(tail);
    ReadArcsOfArcs(tail);
    FirstByte(o[0], o[1]);
    assert o == [o[0], o[1]] + tail;
    assert (FirstArcs(c) + tail)[..2] == FirstArcs(c) && o[..2] == [o[0], o[1]];
  }

  /** How many arcs end in b. */
  function Ends(b: seq<byte>): nat {
    if b == [] then 0 else Ends(b[..|b| - 1]) + if b[|b| - 1] < 128 then 1 else 0
  }

  lemma {:induction false} EndsCons(c: byte, b: seq<byte>)
    ensures Ends([c] + b) == (if c < 128 then 1 else 0) + Ends(b)
  {
    if b == [] {
      assert [c] + b == [c] && [c][..0] == [];
    } else {
      assert ([c] + b)[..|b|] == [c] + b[..|b| - 1];
      EndsCons(c, b[..|b| - 1]);
    }
  }

  lemma {:induction false} ArcsAreEnds(b: seq<byte>, n: uint32)
    requires ReadArcs(b, n).Ok?
    ensures |ReadArcs(b, n).value| == Ends(b)
  {
    if b != [] {
      ArcsAreEnds(b[1..], if b[0] < 128 then 0 else Push(n, b[0]));
      EndsCons(b[0], b[1..]);
      assert [b[0]] + b[1..] == b;
    }
  }

  lemma {:induction false} EndsGrow(b: seq<byte>, m: nat)
    requires m <= |b|
    ensures Ends(b[..m]) <= Ends(b)
  {
    if m < |b| {
      var front := b[..|b| - 1];
      EndsGrow(front, m);
      assert front[..m] == b[..m];
    } else {
      assert b[..m] == b;
    }
  }

  lemma {:induction false} LastOfArcs(o: Oid)
    ensures Arcs(o) == [] <==> o == []
    ensures o != [] ==> Arcs(o)[|Arcs(o)| - 1] < 128
  {
    if o != [] {
      LastOfArcs(o[1..]);
      assert o[1..] == [] ==> Arcs(o) == Arc(o[0]) + [];
    }
  }

  /** Cut anywhere, the bytes of an identifier are not read as the same. */
  lemma CutOid(o: Name, m: nat)
    requires m < |OidContent(o)|
    ensures ReadOid(OidContent(o)[..m]) != Ok(o)
  {
    var arcs := Arcs(o[2..]);
    if m > 0 && ReadOid(OidContent(o)[..m]).Ok? {
      LastOfArcs(o[2..]);
      ReadArcsOfArcs(o[2..]);
      ArcsAreEnds(arcs, 0);
      var front := arcs[..|arcs| - 1];
      EndsGrow(front, m - 1);
      assert front[..m - 1] == arcs[..m - 1] == OidContent(o)[..m][1..];
      ArcsAreEnds(arcs[..m - 1], 0);
    }
  }

  /** Whatever is read is an identifier that can be written back. */
  lemma ReadOidEncodable(b: seq<byte>)
    requires ReadOid(b).Ok?
    ensures Encodable(ReadOid(b).value)
  {}
}
