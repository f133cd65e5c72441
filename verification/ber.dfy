/**
 * The basic encoding rules used by SNMP: integers in two's complement and
 * elements made of a tag, a length and a content (internal/snmp/snmp.go).
 */
module Ber {
  import opened Wrappers

  const TAG_INTEGER: byte := 0x02

  // ---------------------------------------------------------------- values

  function Pow256(n: nat): (r: nat)
    ensures r >= 1
  {
    if n == 0 then 1 else 256 * Pow256(n - 1)
  }

  /** The value of a big-endian unsigned integer. */
  function UintValue(b: seq<byte>): nat {
    if b == [] then 0 else UintValue(b[..|b| - 1]) * 256 + b[|b| - 1]
  }

  /** The value of a big-endian two's complement integer, section 8.3.3 of ITU-T X.690. */
  function SignedValue(b: seq<byte>): int {
    if b == [] then 0
    else if b[0] >= 128 then UintValue(b) - Pow256(|b|)
    else UintValue(b)
  }

  /** b is the shortest content octets for v: what section 8.3.2 of ITU-T X.690 demands. */
  ghost predicate ShortestSigned(b: seq<byte>, v: int) {
    && b != []
    && SignedValue(b) == v
    && forall c: seq<byte> | c != [] && SignedValue(c) == v :: |b| <= |c|
  }

  /** The n low-order bytes of u. */
  function BigEndian(u: nat, n: nat): (b: seq<byte>)
    ensures |b| == n
  {
    if n == 0 then [] else BigEndian(u / 256, n - 1) + [u % 256]
  }

  lemma {:induction false} UintValueBound(b: seq<byte>)
    ensures UintValue(b) < Pow256(|b|)
  {
    if b != [] {
      UintValueBound(b[..|b| - 1]);
    }
  }

  lemma {:induction false} UintValueCons(c: byte, b: seq<byte>)
    ensures UintValue([c] + b) == c * Pow256(|b|) + UintValue(b)
  {
    if b == [] {
      assert [c] + b == [c];
      assert [c][..0] == [];
    } else {
      var init, last := b[..|b| - 1], b[|b| - 1];
      UintValueCons(c, init);
      assert ([c] + b)[..|b|] == [c] + init;
      assert Pow256(|b|) == 256 * Pow256(|init|);
    }
  }

  lemma {:induction false} BigEndianValue(u: nat, n: nat)
    requires u < Pow256(n)
    ensures UintValue(BigEndian(u, n)) == u
  {
    if n > 0 {
      BigEndianValue(u / 256, n - 1);
      assert BigEndian(u, n)[..n - 1] == BigEndian(u / 256, n - 1);
    }
  }

  lemma LastByte(b: seq<byte>)
    requires b != []
    ensures UintValue(b) % 256 == b[|b| - 1] && UintValue(b) / 256 == UintValue(b[..|b| - 1])
  {
    DivMod256(UintValue(b[..|b| - 1]), b[|b| - 1]);
  }

  lemma DivMod256(q: nat, r: byte)
    ensures (q * 256 + r) % 256 == r && (q * 256 + r) / 256 == q
  {}

  /** A value has one big-endian form of each length. */
  lemma {:induction false} UintValueInjective(a: seq<byte>, b: seq<byte>)
    requires |a| == |b| && UintValue(a) == UintValue(b)
    ensures a == b
  {
    if a != [] {
      LastByte(a);
      LastByte(b);
      UintValueInjective(a[..|a| - 1], b[..|b| - 1]);
      assert a == a[..|a| - 1] + [a[|a| - 1]] && b == b[..|b| - 1] + [b[|b| - 1]];
    }
  }

  /** A byte read as a signed 8-bit integer. */
  function SignedByte(c: byte): (r: int)
    ensures -128 <= r < 128
  {
    if c >= 128 then c - 256 else c
  }

  /** The leading byte carries the sign and the highest weight. */
  lemma SignedCons(top: byte, tail: seq<byte>)
    ensures SignedValue([top] + tail) == SignedByte(top) * Pow256(|tail|) + UintValue(tail)
  {
    UintValueCons(top, tail);
    MulDistribute(top, -256, Pow256(|tail|));
    assert Pow256(|[top] + tail|) == 256 * Pow256(|tail|);
  }

  lemma SignedSplit(b: seq<byte>)
    requires b != []
    ensures SignedValue(b) == SignedByte(b[0]) * Pow256(|b| - 1) + UintValue(b[1..])
    ensures UintValue(b[1..]) < Pow256(|b| - 1)
  {
    UintValueBound(b[1..]);
    assert SignedValue(b) == SignedByte(b[0]) * Pow256(|b| - 1) + UintValue(b[1..]) by {
      SignedCons(b[0], b[1..]);
      assert [b[0]] + b[1..] == b;
    }
  }

  /** n bytes in two's complement hold only integers of [-256^n/2, 256^n/2). */
  lemma SignedRange(b: seq<byte>)
    requires b != []
    ensures -(Pow256(|b|) as int) <= 2 * SignedValue(b) < Pow256(|b|)
  {
    SignedSplit(b);
    var p := Pow256(|b| - 1);
    MulMonotone(-128, SignedByte(b[0]), p);
    MulMonotone(SignedByte(b[0]), 127, p);
  }

  lemma {:induction false} Pow256Monotone(m: nat, n: nat)
    requires m <= n
    ensures Pow256(m) <= Pow256(n)
  {
    if m < n {
      Pow256Monotone(m, n - 1);
    }
  }

  /** The first nine bits of b are all equal: its first byte is superfluous. */
  predicate Redundant(b: seq<byte>) {
    |b| > 1 && ((b[0] == 0 && b[1] < 128) || (b[0] == 0xff && b[1] >= 128))
  }

  lemma DroppingKeepsValue(b: seq<byte>)
    requires Redundant(b)
    ensures SignedValue(b[1..]) == SignedValue(b)
  {
    assert b == [b[0]] + b[1..];
    UintValueCons(b[0], b[1..]);
    assert Pow256(|b|) == 256 * Pow256(|b| - 1);
  }

  lemma NineBits(t: int, c: byte, p: nat, u: nat)
    requires u < p
    requires -128 <= t < 128 && !(t == 0 && c < 128) && !(t == -1 && c >= 128)
    ensures var v := t * (256 * p) + c * p + u; 2 * v >= 256 * p || 2 * v < -256 * p
  {
    var v := t * (256 * p) + c * p + u;
    assert t * (256 * p) == (256 * t) * p;
    MulDistribute(256 * t, c, p);
    if 256 * t + c >= 128 {
      MulMonotone(128, 256 * t + c, p);
    } else {
      MulMonotone(256 * t + c, -129, p);
    }
  }

  /** Without a superfluous byte, the value does not fit in one byte less. */
  lemma IrreducibleRange(b: seq<byte>)
    requires |b| > 1 && !Redundant(b)
    ensures 2 * SignedValue(b) >= Pow256(|b| - 1) || 2 * SignedValue(b) < -(Pow256(|b| - 1) as int)
  {
    SignedSplit(b);
    UintValueBound(b[1..][1..]);
    var tail := b[1..];
    UintValueCons(b[1], tail[1..]);
    assert [b[1]] + tail[1..] == tail;
    NineBits(SignedByte(b[0]), b[1], Pow256(|b| - 2), UintValue(tail[1..]));
  }

  lemma IrreducibleIsShortest(b: seq<byte>)
    requires b != [] && !Redundant(b)
    ensures ShortestSigned(b, SignedValue(b))
  {
    forall c: seq<byte> | c != [] && SignedValue(c) == SignedValue(b)
      ensures |b| <= |c|
    {
      if |c| < |b| {
        SignedRange(c);
        Pow256Monotone(|c|, |b| - 1);
        IrreducibleRange(b);
        assert false;
      }
    }
  }

  /** The shortest form is unique, so it may be called a function of the value. */
  lemma ShortestUnique(a: seq<byte>, b: seq<byte>, v: int)
    requires ShortestSigned(a, v) && ShortestSigned(b, v)
    ensures a == b
  {
    assert |a| <= |b| && |b| <= |a|;
    UintValueBound(a);
    UintValueBound(b);
    UintValueInjective(a, b);
  }

  /** What an integer too long for 64 bits leaves: the one of that width that differs by a multiple of 2^64. */
  lemma WrapsModulo(x: int)
    ensures -0x8000_0000_0000_0000 <= Wrap64(x) < 0x8000_0000_0000_0000
    ensures exists k :: x - Wrap64(x) == k * 0x1_0000_0000_0000_0000
  {
    var k := (x + TWO_63) / TWO_64;
    assert x - Wrap64(x) == k * TWO_64;
  }

  // -------------------------------------------------------------- integers

  /** What is left of b once its superfluous leading bytes are dropped. */
  function Trim(b: seq<byte>): (r: seq<byte>)
    ensures SignedValue(r) == SignedValue(b)
    ensures !Redundant(r)
    ensures b != [] ==> r != []
  {
    if Redundant(b) then
      DroppingKeepsValue(b);
      Trim(b[1..])
    else b
  }

  /** The content octets written for a signed integer. */
  function IntContent(v: int64): seq<byte> {
    Trim(BigEndian(v % TWO_64, 8))
  }

  /** The big-endian digits of u in base 256, without leading zeros. */
  function Digits(u: nat): (b: seq<byte>)
    ensures b == [] <==> u == 0
    ensures b != [] ==> b[0] != 0
    ensures UintValue(b) == u
  {
    if u == 0 then []
    else
      var b := Digits(u / 256) + [u % 256];
      assert b[..|b| - 1] == Digits(u / 256);
      b
  }

  /** The content octets written for an unsigned integer: a zero byte keeps it positive. */
  function UintContent(u: nat): seq<byte> {
    var d := Digits(u);
    if d == [] || d[0] >= 128 then [0] + d else d
  }

  lemma WidthOfInt64()
    ensures Pow256(8) == TWO_64
  {
    assert Pow256(1) == 256 && Pow256(2) == 0x1_0000 && Pow256(3) == 0x100_0000;
    assert Pow256(4) == TWO_32 && Pow256(5) == 256 * TWO_32;
    assert Pow256(6) == 0x1_0000 * TWO_32 && Pow256(7) == 0x100_0000 * TWO_32;
  }

  /** A signed integer is written on the fewest octets of two's complement. */
  lemma IntContentShortest(v: int64)
    ensures ShortestSigned(IntContent(v), v)
    ensures |IntContent(v)| <= 8
  {
    var u := v % TWO_64;
    var b := BigEndian(u, 8);
    WidthOfInt64();
    BigEndianValue(u, 8);
    SignedRange(b);
    IrreducibleIsShortest(IntContent(v));
  }

  /** An unsigned integer is written on the fewest octets of two's complement. */
  lemma UintContentShortest(u: nat)
    ensures ShortestSigned(UintContent(u), u)
    ensures UintValue(UintContent(u)) == u
  {
    var d := Digits(u);
    if d == [] || d[0] >= 128 {
      UintValueCons(0, d);
      if d != [] {
        assert ([0] + d)[1] == d[0];
      }
    }
    IrreducibleIsShortest(UintContent(u));
  }

  /** Nine octets hold every unsigned 64-bit integer with its sign. */
  lemma UintContentSize(u: uint64)
    ensures |UintContent(u)| <= 9
  {
    var b := BigEndian(u, 8);
    WidthOfInt64();
    BigEndianValue(u, 8);
    UintValueCons(0, b);
    assert SignedValue([0] + b) == u;
    UintContentShortest(u);
  }

  /** Wrapping before a shift by eight bits or after it is the same. */
  lemma WrapShift(x: int, c: byte)
    ensures Wrap64(Wrap64(x) * 256 + c) == Wrap64(x * 256 + c)
  {
    var k := (x + TWO_63) / TWO_64;
    assert Wrap64(x) == x - k * TWO_64;
    var y := x * 256 + c + TWO_63;
    assert Wrap64(x) * 256 + c + TWO_63 == y - (256 * k) * TWO_64;
    ModShift(y, -(256 * k), TWO_64);
  }

  lemma ModShift(x: int, k: int, m: int)
    requires m > 0
    ensures (x + k * m) % m == x % m
  {
    var q, r := x / m, x % m;
    MulDistribute(q, k, m);
    DivModUnique(x + k * m, q + k, r, m);
  }

  lemma UintValueSnoc(b: seq<byte>, i: nat)
    requires i < |b|
    ensures UintValue(b[..i + 1]) == UintValue(b[..i]) * 256 + b[i]
  {
    assert b[..i + 1][..i] == b[..i];
  }

  /** The value of the first i bytes of a two's complement integer. */
  function SignedHead(b: seq<byte>, negative: bool, i: nat): int
    requires i <= |b|
  {
    UintValue(b[..i]) - if negative then Pow256(i) else 0
  }

  lemma SignedHeadNext(b: seq<byte>, negative: bool, i: nat)
    requires i < |b|
    ensures Wrap64(Wrap64(SignedHead(b, negative, i)) * 256 + b[i]) == Wrap64(SignedHead(b, negative, i + 1))
  {
    WrapShift(SignedHead(b, negative, i), b[i]);
    UintValueSnoc(b, i);
    assert Pow256(i + 1) == 256 * Pow256(i);
  }

  /** Reads a signed integer; beyond eight octets only the low 64 bits are kept. */
  method DecodeInt(b: seq<byte>) returns (v: int)
    ensures v == Wrap64(SignedValue(b))
  {
    if |b| == 0 {
      return 0;
    }
    v := 0;
    if b[0] >= 128 {
      v := -1;
    }
    for i := 0 to |b|
      invariant v == Wrap64(SignedHead(b, b[0] >= 128, i))
    {
      SignedHeadNext(b, b[0] >= 128, i);
      v := Wrap64(v * 256 + b[i]);
    }
    assert b[..|b|] == b;
  }

  /** Reads an unsigned integer, on 64 bits. */
  method DecodeUint(b: seq<byte>) returns (v: int)
    ensures v == Low64(UintValue(b))
  {
    v := 0;
    for i := 0 to |b|
      invariant v == Low64(UintValue(b[..i]))
    {
      var u := UintValue(b[..i]);
      UintValueSnoc(b, i);
      assert u * 256 + b[i] == v * 256 + b[i] + (256 * (u / TWO_64)) * TWO_64;
      ModShift(v * 256 + b[i], 256 * (u / TWO_64), TWO_64);
      v := Low64(v * 256 + b[i]);
    }
    assert b[..|b|] == b;
  }

  /** Writes a signed integer: eight bytes, less the superfluous leading ones. */
  method EncodeInt(v: int64) returns (out: seq<byte>)
    ensures out == Tlv(TAG_INTEGER, IntContent(v))
  {
    var b := BigEndian(v % TWO_64, 8);
    while |b| > 1 && ((b[0] == 0 && b[1] < 128) || (b[0] == 0xff && b[1] >= 128))
      invariant b != [] && Trim(b) == IntContent(v)
      decreases |b|
    {
      b := b[1..];
    }
    out := Tlv(TAG_INTEGER, b);
  }

  /** The content octets of an unsigned integer, lowest byte first. */
  method EncodeUint(u: uint64) returns (b: seq<byte>)
    ensures b == UintContent(u)
  {
    b := [];
    var n: nat := u;
    while n > 0
      invariant Digits(u) == Digits(n) + b
    {
      b := [n % 256] + b;
      n := n / 256;
    }
    if |b| == 0 || b[0] >= 128 {
      b := [0] + b;
    }
  }

  // -------------------------------------------------------------- elements

  datatype Split = Split(content: seq<byte>, rest: seq<byte>)

  datatype LengthError = UnexpectedTag | BadLength | Truncated

  /** The bytes of an element that precede its content. */
  function Head(tag: byte, n: nat): seq<byte> {
    if n < 0x80 then [tag, n]
    else if n <= 0xff then [tag, 0x81, n]
    else [tag, 0x82, n / 256 % 256, n % 256]
  }

  /** A tag, a length in short form or on one or two octets, and the content. */
  function Tlv(tag: byte, content: seq<byte>): (r: seq<byte>)
    ensures |r| >= 2 && r[0] == tag
  {
    Head(tag, |content|) + content
  }

  /** The content of the leading element of b, of the given tag, and what follows it. */
  function Element(b: seq<byte>, tag: byte): Result<Split, LengthError> {
    if |b| < 2 || b[0] != tag then Err(UnexpectedTag)
    else if b[1] < 0x80 then Cut(b, 2, b[1])
    else
      var k := b[1] - 0x80;
      if k == 0 || k > 3 || |b| < 2 + k then Err(BadLength)
      else Cut(b, 2 + k, UintValue(b[2..2 + k]))
  }

  function Cut(b: seq<byte>, head: nat, n: nat): Result<Split, LengthError> {
    if |b| < head + n then Err(Truncated)
    else Ok(Split(b[head..head + n], b[head + n..]))
  }

  method ReadElement(b: seq<byte>, tag: byte) returns (r: Result<Split, LengthError>)
    ensures r == Element(b, tag)
  {
    if |b| < 2 || b[0] != tag {
      return Err(UnexpectedTag);
    }
    var n: nat, head := b[1], 2;
    if n >= 0x80 {
      var k := n - 0x80;
      if k == 0 || k > 3 || |b| < 2 + k {
        return Err(BadLength);
      }
      n := 0;
      var octets := b[2..2 + k];
      for i := 0 to k
        invariant n == UintValue(octets[..i])
      {
        UintValueSnoc(octets, i);
        n := n * 256 + octets[i];
      }
      assert octets[..k] == octets;
      head := 2 + k;
    }
    if |b| < head + n {
      return Err(Truncated);
    }
    return Ok(Split(b[head..head + n], b[head + n..]));
  }

  /** The length announced for a content of n bytes: beyond 65535, two octets wrap around. */
  function Announced(n: nat): (m: nat)
    ensures m <= n && (m == n <==> n <= 65535)
  {
    if n <= 65535 then n else n % 65536
  }

  /** The head of an element makes the content end at the length announced. */
  lemma HeadCuts(tag: byte, n: nat, tail: seq<byte>)
    ensures var head := Head(tag, n);
            Element(head + tail, tag) == Cut(head + tail, |head|, Announced(n))
  {
    if n < 0x80 {
      ShortForm(tag, n, tail);
    } else if n <= 0xff {
      OneOctetForm(tag, n, tail);
    } else {
      TwoOctetForm(tag, n / 256 % 256, n % 256, tail);
      TwoOctets(n);
    }
  }

  lemma TwoOctets(n: nat)
    ensures n > 0xff ==> (n / 256 % 256) * 256 + n % 256 == Announced(n)
  {}

  /** An element followed by anything is read up to the length it announces. */
  lemma ElementRead(tag: byte, content: seq<byte>, rest: seq<byte>)
    ensures var m := Announced(|content|);
            Element(Tlv(tag, content) + rest, tag) == Ok(Split(content[..m], content[m..] + rest))
  {
    TlvHead(tag, content, rest);
    HeadCuts(tag, |content|, content + rest);
    CutAt(Head(tag, |content|), content, rest, Announced(|content|));
  }

  /**
   * An element followed by anything is read back exactly when its content
   * holds on 65535 bytes.
   */
  lemma ElementOfTlv(tag: byte, content: seq<byte>, rest: seq<byte>)
    ensures Element(Tlv(tag, content) + rest, tag) == Ok(Split(content, rest)) <==> |content| <= 65535
  {
    ElementRead(tag, content, rest);
    if |content| <= 65535 {
      assert content[..|content|] == content && content[|content|..] + rest == rest;
    }
  }

  /** An element cut before its end is refused, or its length was already short. */
  lemma ElementOfCut(tag: byte, content: seq<byte>, k: nat)
    requires k < |Tlv(tag, content)|
    ensures match Element(Tlv(tag, content)[..k], tag)
            case Err(_) => true
            case Ok(s) => |content| > 65535 && s.content == content[..Announced(|content|)]
  {
    var head := Head(tag, |content|);
    var b := Tlv(tag, content)[..k];
    if k < |head| {
      CutHead(tag, |content|, k);
      assert b == head[..k];
    } else {
      var tail := content[..k - |head|];
      assert b == head + tail;
      HeadCuts(tag, |content|, tail);
      if |head| + Announced(|content|) <= k {
        assert b[|head|..|head| + Announced(|content|)] == content[..Announced(|content|)];
      }
    }
  }

  lemma CutHead(tag: byte, n: nat, k: nat)
    requires k < |Head(tag, n)|
    ensures Element(Head(tag, n)[..k], tag).Err?
  {}

  lemma TlvHead(tag: byte, content: seq<byte>, rest: seq<byte>)
    ensures Tlv(tag, content) + rest == Head(tag, |content|) + (content + rest)
  {}

  lemma ShortForm(tag: byte, n: byte, tail: seq<byte>)
    requires n < 0x80
    ensures Element([tag, n] + tail, tag) == Cut([tag, n] + tail, 2, n)
  {}

  lemma OneOctetForm(tag: byte, n: byte, tail: seq<byte>)
    ensures Element([tag, 0x81, n] + tail, tag) == Cut([tag, 0x81, n] + tail, 3, n)
  {
    var b := [tag, 0x81, n] + tail;
    assert b[2..3] == [n];
    UintOne(b[2..3]);
  }

  lemma TwoOctetForm(tag: byte, hi: byte, lo: byte, tail: seq<byte>)
    ensures Element([tag, 0x82, hi, lo] + tail, tag) == Cut([tag, 0x82, hi, lo] + tail, 4, (hi as int) * 256 + lo)
  {
    var b := [tag, 0x82, hi, lo] + tail;
    assert b[2..4] == [hi, lo];
    UintTwo(b[2..4]);
  }

  lemma CutAt(head: seq<byte>, content: seq<byte>, rest: seq<byte>, n: nat)
    requires n <= |content|
    ensures Cut(head + (content + rest), |head|, n) == Ok(Split(content[..n], content[n..] + rest))
  {
    var b := head + (content + rest);
    assert b[|head|..|head| + n] == content[..n] && b[|head| + n..] == content[n..] + rest;
  }

  lemma UintOne(b: seq<byte>)
    requires |b| == 1
    ensures UintValue(b) == b[0]
  {}

  lemma UintTwo(b: seq<byte>)
    requires |b| == 2
    ensures UintValue(b) == (b[0] as int) * 256 + b[1]
  {
    UintOne(b[..1]);
  }

  /** Whatever is accepted comes from the input: tag, length octets, content, rest, in order. */
  lemma ElementConsumes(b: seq<byte>, tag: byte)
    requires Element(b, tag).Ok?
    ensures var s := Element(b, tag).value;
            var start := |b| - |s.rest| - |s.content|;
            && b[0] == tag && 2 <= start <= 5
            && s.content == b[start..start + |s.content|]
            && s.rest == b[start + |s.content|..]
            && |s.content| == (if start == 2 then b[1] else UintValue(b[2..start]))
            && (start > 2 ==> b[1] == 0x80 + start - 2)
  {}
}
