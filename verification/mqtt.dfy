/** MQTT 3.1.1 packets: framing, publications and the connection request (internal/mqtt). */
module Mqtt {
  import opened Wrappers

  const MAX_BODY: nat := 268_435_455

  datatype Packet = Packet(header: byte, body: seq<byte>)

  datatype Message = Message(topic: seq<byte>, payload: seq<byte>, retain: bool)

  // -------------------------------------------------------------- framing

  /** The remaining length, seven bits a byte, lowest first: section 2.2.3 of MQTT 3.1.1. */
  function Remaining(n: nat): (b: seq<byte>)
    ensures b != []
  {
    if n < 128 then [n] else [n % 128 + 128] + Remaining(n / 128)
  }

  function Frame(p: Packet): seq<byte> {
    [p.header] + (Remaining(|p.body|) + p.body)
  }

  datatype ReadError = Eof | BadLength

  datatype Length = Length(n: nat, rest: seq<byte>)

  /** A length on at most allowed bytes. */
  function ReadLength(s: seq<byte>, allowed: nat): Result<Length, ReadError>
    decreases |s|
  {
    if s == [] then Err(Eof)
    else if s[0] < 128 then Ok(Length(s[0], s[1..]))
    else if allowed <= 1 then Err(BadLength)
    else
      match ReadLength(s[1..], allowed - 1)
      case Ok(Length(n, rest)) => Ok(Length(s[0] - 128 + 128 * n, rest))
      case Err(e) => Err(e)
  }

  datatype Taken = Taken(packet: Packet, rest: seq<byte>)

  function TakePacket(s: seq<byte>, allowed: nat): Result<Taken, ReadError> {
    if s == [] then Err(Eof)
    else
      match ReadLength(s[1..], allowed)
      case Err(e) => Err(e)
      case Ok(Length(n, rest)) =>
        if |rest| < n then Err(Eof) else Ok(Taken(Packet(s[0], rest[..n]), rest[n..]))
  }

  const LENGTH_BYTES: nat := 4

  /** The packets read one after the other, until the first failure. */
  function ReadAll(s: seq<byte>): seq<Packet>
    decreases |s|
  {
    match TakePacket(s, LENGTH_BYTES)
    case Err(_) => []
    case Ok(Taken(p, rest)) => LengthConsumes(s[1..], LENGTH_BYTES); [p] + ReadAll(rest)
  }

  lemma {:induction false} LengthConsumes(s: seq<byte>, allowed: nat)
    ensures match ReadLength(s, allowed) case Ok(Length(n, rest)) => |rest| < |s| case Err(_) => true
    decreases |s|
  {
    if s != [] && allowed > 1 {
      LengthConsumes(s[1..], allowed - 1);
    }
  }

  /** The bytes a client has left to read. */
  class Reader {
    var input: seq<byte>

    constructor (s: seq<byte>)
      ensures input == s
    {
      input := s;
    }

    method ReadByte() returns (r: Option<byte>)
      modifies this
      ensures if old(input) == [] then r == None && input == [] else r == Some(old(input)[0]) && input == old(input)[1..]
    {
      if input == [] {
        return None;
      }
      r := Some(input[0]);
      input := input[1..];
    }

    /** Reads n bytes; short of them, everything left is consumed. */
    method ReadFull(n: nat) returns (r: Option<seq<byte>>)
      modifies this
      ensures if |old(input)| < n then r == None && input == []
              else r == Some(old(input)[..n]) && input == old(input)[n..]
    {
      if |input| < n {
        input := [];
        return None;
      }
      r := Some(input[..n]);
      input := input[n..];
    }

    /** Reads a length, on four bytes at most. */
    method NextLength() returns (r: Result<nat, ReadError>)
      modifies this
      ensures match ReadLength(old(input), LENGTH_BYTES)
              case Ok(Length(n, rest)) => r == Ok(n) && input == rest
              case Err(e) => r == Err(e)
    {
      ghost var whole := ReadLength(input, LENGTH_BYTES);
      var n: nat, mult: nat, i := 0, 1, 0;
      assert Progress(whole, whole, 0, 1);
      while true
        invariant 0 <= i <= 3
        invariant Progress(whole, ReadLength(input, LENGTH_BYTES - i), n, mult)
        decreases 4 - i
      {
        var b := ReadByte();
        if b.None? {
          return Err(Eof);
        }
        ghost var tail := ReadLength(input, 3 - i);
        if b.value < 128 {
          LastStep(whole, input, n, mult, b.value);
          n := n + b.value * mult;
          return Ok(n);
        }
        if i == 3 {
          return Err(BadLength);
        }
        ProgressStep(whole, tail, n, mult, b.value - 128);
        n := n + (b.value - 128) * mult;
        mult := mult * 128;
        i := i + 1;
      }
    }

    /** Reads a whole packet. */
    method Next() returns (r: Result<Packet, ReadError>)
      modifies this
      ensures match TakePacket(old(input), LENGTH_BYTES)
              case Ok(Taken(p, rest)) => r == Ok(p) && input == rest
              case Err(e) => r == Err(e)
    {
      var header := ReadByte();
      if header.None? {
        return Err(Eof);
      }
      var n := NextLength();
      if n.Err? {
        return Err(n.error);
      }
      var rest := ReadFull(n.value);
      if rest.None? {
        return Err(Eof);
      }
      return Ok(Packet(header.value, rest.value));
    }
  }

  function Weighted(n: nat, mult: nat, m: nat): nat {
    n + mult * m
  }

  /** With n read so far, the weight of the next byte being mult, whole is what tail will make of it. */
  ghost predicate Progress(whole: Result<Length, ReadError>, tail: Result<Length, ReadError>, n: nat, mult: nat) {
    match tail
    case Err(e) => whole == Err(e)
    case Ok(Length(m, rest)) => whole == Ok(Length(Weighted(n, mult, m), rest))
  }

  lemma LastStep(whole: Result<Length, ReadError>, rest: seq<byte>, n: nat, mult: nat, digit: nat)
    requires Progress(whole, Ok(Length(digit, rest)), n, mult)
    ensures whole == Ok(Length(n + digit * mult, rest))
  {
    assert mult * digit == digit * mult;
  }

  lemma ProgressStep(whole: Result<Length, ReadError>, tail: Result<Length, ReadError>, n: nat, mult: nat, digit: nat)
    requires match tail
             case Err(e) => whole == Err(e)
             case Ok(Length(m, rest)) => Progress(whole, Ok(Length(digit + 128 * m, rest)), n, mult)
    ensures Progress(whole, tail, n + digit * mult, mult * 128)
  {
    if tail.Ok? {
      assert n + mult * (digit + 128 * tail.value.n) == n + digit * mult + mult * 128 * tail.value.n;
    }
  }

  method EncodeRemaining(length: nat) returns (out: seq<byte>)
    ensures out == Remaining(length)
  {
    out := [];
    var n := length;
    while true
      invariant out + Remaining(n) == Remaining(length)
      decreases n
    {
      var b := n % 128;
      var m := n / 128;
      if m > 0 {
        b := b + 128;
      }
      ConcatAssociative(out, [b], Remaining(m));
      out := out + [b];
      n := m;
      if n == 0 {
        return;
      }
    }
  }

  /** Any length of at most 268435455 is read back, whatever follows; no other is. */
  lemma {:induction false} LengthRoundTrip(n: nat, rest: seq<byte>, allowed: nat)
    requires allowed >= 1
    ensures ReadLength(Remaining(n) + rest, allowed) == if n < Pow128(allowed) then Ok(Length(n, rest)) else Err(BadLength)
    decreases allowed
  {
    var s := Remaining(n) + rest;
    if n < 128 {
      assert s[1..] == rest;
      Pow128Positive(allowed - 1);
    } else {
      assert s[1..] == Remaining(n / 128) + rest;
      if allowed > 1 {
        LengthRoundTrip(n / 128, rest, allowed - 1);
      }
    }
  }

  /** Bytes that carry on, but for the last. */
  predicate Septets(b: seq<byte>) {
    b != [] && b[|b| - 1] < 128 && forall i :: 0 <= i < |b| - 1 ==> b[i] >= 128
  }

  function SeptetsValue(b: seq<byte>): nat {
    if b == [] then 0 else b[0] % 128 + 128 * SeptetsValue(b[1..])
  }

  /** A length in any form, zeros added or not, is the value of its bytes when they are not too many. */
  lemma {:induction false} AnyLengthRead(b: seq<byte>, rest: seq<byte>, allowed: nat)
    requires Septets(b) && allowed >= 1
    ensures ReadLength(b + rest, allowed) == if |b| <= allowed then Ok(Length(SeptetsValue(b), rest)) else Err(BadLength)
  {
    var s := b + rest;
    if |b| == 1 {
      assert s[1..] == rest && b[1..] == [];
    } else {
      assert s[1..] == b[1..] + rest;
      if allowed > 1 {
        AnyLengthRead(b[1..], rest, allowed - 1);
      }
    }
  }

  function Pow128(n: nat): nat {
    if n == 0 then 1 else 128 * Pow128(n - 1)
  }

  lemma {:induction false} Pow128Positive(n: nat)
    ensures Pow128(n) >= 1
  {
    if n > 0 {
      Pow128Positive(n - 1);
    }
  }

  /** No shorter form of a length exists. */
  lemma {:induction false} RemainingShortest(s: seq<byte>, allowed: nat, n: nat)
    requires ReadLength(s, allowed) == Ok(Length(n, []))
    ensures |Remaining(n)| <= |s|
    decreases |s|
  {
    if s[0] >= 128 {
      var m := ReadLength(s[1..], allowed - 1).value.n;
      RemainingShortest(s[1..], allowed - 1, m);
      if n >= 128 {
        assert n / 128 == m;
      }
    }
  }

  /** A frame followed by anything gives back its packet exactly when its body is not too long. */
  lemma FrameRoundTrip(p: Packet, rest: seq<byte>)
    ensures TakePacket(Frame(p) + rest, LENGTH_BYTES) == Ok(Taken(p, rest)) <==> |p.body| <= MAX_BODY
  {
    var s := Frame(p) + rest;
    assert s[1..] == Remaining(|p.body|) + (p.body + rest);
    LengthRoundTrip(|p.body|, p.body + rest, LENGTH_BYTES);
    assert Pow128(2) == 16384 && Pow128(LENGTH_BYTES) == MAX_BODY + 1;
  }

  /** Cut anywhere, a frame gives nothing. */
  lemma CutFrame(p: Packet, k: nat)
    requires |p.body| <= MAX_BODY && k < |Frame(p)|
    ensures TakePacket(Frame(p)[..k], LENGTH_BYTES) == Err(Eof)
  {
    if k > 0 {
      var s := Frame(p)[..k];
      var len := Remaining(|p.body|);
      assert Pow128(2) == 16384 && Pow128(LENGTH_BYTES) == MAX_BODY + 1;
      if k <= |len| {
        assert s[1..] == len[..k - 1];
        CutLength(|p.body|, k - 1, LENGTH_BYTES);
      } else {
        var part := p.body[..k - 1 - |len|];
        assert s[1..] == len + part;
        LengthRoundTrip(|p.body|, part, LENGTH_BYTES);
      }
    }
  }

  lemma {:induction false} CutLength(n: nat, k: nat, allowed: nat)
    requires k < |Remaining(n)| && n < Pow128(allowed) && allowed >= 1
    ensures ReadLength(Remaining(n)[..k], allowed) == Err(Eof)
  {
    if k > 0 {
      assert Remaining(n)[..k][1..] == Remaining(n / 128)[..k - 1];
      CutLength(n / 128, k - 1, allowed - 1);
    }
  }

  predicate Sendable(ps: seq<Packet>) {
    forall p | p in ps :: |p.body| <= MAX_BODY
  }

  function Stream(ps: seq<Packet>): seq<byte> {
    Flatten(Frame, ps)
  }

  /**
   * Packets written one after the other are read back exactly as they were;
   * if the stream stops in the middle of one more, that one is not delivered
   * and the others are.
   */
  lemma {:induction false} StreamRoundTrip(ps: seq<Packet>, last: Packet, k: nat)
    requires Sendable(ps) && |last.body| <= MAX_BODY && k < |Frame(last)|
    ensures ReadAll(Stream(ps) + Frame(last)[..k]) == ps
  {
    var cut := Frame(last)[..k];
    if ps == [] {
      CutFrame(last, k);
      assert Stream(ps) + cut == cut;
    } else {
      assert ps == [ps[0]] + ps[1..];
      FlattenCons(Frame, ps[0], ps[1..]);
      ConcatAssociative(Frame(ps[0]), Stream(ps[1..]), cut);
      FrameRoundTrip(ps[0], Stream(ps[1..]) + cut);
      StreamRoundTrip(ps[1..], last, k);
    }
  }

  /** Where the client reads a packet, the broker, which does not bound the length, reads the same. */
  lemma BrokerReadsTheSame(s: seq<byte>)
    requires TakePacket(s, LENGTH_BYTES).Ok?
    ensures TakePacket(s, |s| + LENGTH_BYTES) == TakePacket(s, LENGTH_BYTES)
  {
    MoreAllowed(s[1..], LENGTH_BYTES, |s| + LENGTH_BYTES);
  }

  lemma {:induction false} MoreAllowed(s: seq<byte>, a: nat, b: nat)
    requires a <= b && ReadLength(s, a).Ok?
    ensures ReadLength(s, b) == ReadLength(s, a)
    decreases |s|
  {
    if s[0] >= 128 {
      MoreAllowed(s[1..], a - 1, b - 1);
    }
  }

  // --------------------------------------------------------------- strings

  /** A string and its length on two bytes. */
  function Field(s: seq<byte>): seq<byte> {
    [|s| / 256 % 256, |s| % 256] + s
  }

  datatype Cut = Cut(s: seq<byte>, rest: seq<byte>)

  function Str(b: seq<byte>): Cut {
    if |b| < 2 then Cut([], [])
    else
      var n := (b[0] as int) * 256 + b[1];
      if |b| < 2 + n then Cut([], []) else Cut(b[2..2 + n], b[2 + n..])
  }

  lemma FieldRoundTrip(s: seq<byte>, rest: seq<byte>)
    ensures |s| <= 65535 ==> Str(Field(s) + rest) == Cut(s, rest)
    ensures |s| > 65535 ==> Str(Field(s) + rest).s != s
  {
    var b := Field(s) + rest;
    assert b == [|s| / 256 % 256, |s| % 256] + (s + rest);
    if |s| <= 65535 {
      assert b[2..2 + |s|] == s && b[2 + |s|..] == rest;
    }
  }

  // ---------------------------------------------------------- publications

  function PublishPacket(m: Message): Packet {
    Packet(if m.retain then 0x31 else 0x30, Field(m.topic) + m.payload)
  }

  datatype Received = Received(message: Message, id: Option<seq<byte>>)

  /** A publication received; the identifier to acknowledge comes with quality of service 1. */
  function ParsePublish(p: Packet): Option<Received> {
    if |p.body| < 2 then None
    else
      var n := (p.body[0] as int) * 256 + p.body[1];
      if |p.body| < 2 + n then None
      else
        var topic, rest := p.body[2..2 + n], p.body[2 + n..];
        var qos := p.header / 2 % 4;
        var retain := p.header % 2 == 1;
        if qos == 0 then Some(Received(Message(topic, rest, retain), None))
        else if |rest| < 2 || qos == 2 then None
        else Some(Received(Message(topic, rest[2..], retain), Some(rest[..2])))
  }

  /**
   * A publication of another client: sent once with an identifier to
   * acknowledge, or again, it gives topic, content, flag and identifier;
   * without its identifier, or of the service that is never asked for, it is
   * not understood.
   */
  lemma OtherPublications(topic: seq<byte>, id: seq<byte>, payload: seq<byte>, retain: bool, again: bool)
    requires |topic| <= 65535 && |id| == 2
    ensures var flags := (if retain then 1 else 0) + (if again then 8 else 0);
            && ParsePublish(Packet(0x32 + flags, Field(topic) + (id + payload))) ==
                 Some(Received(Message(topic, payload, retain), Some(id)))
            && ParsePublish(Packet(0x34 + flags, Field(topic) + (id + payload))) == None
            && ParsePublish(Packet(0x32 + flags, Field(topic))) == None
            && ParsePublish(Packet(0x32 + flags, Field(topic) + id[..1])) == None
  {
    CutTopic(topic, id + payload);
    CutTopic(topic, id[..1]);
    CutTopic(topic, []);
    assert Field(topic) + [] == Field(topic);
    assert (id + payload)[..2] == id && (id + payload)[2..] == payload;
  }

  lemma CutTopic(topic: seq<byte>, rest: seq<byte>)
    requires |topic| <= 65535
    ensures var b := Field(topic) + rest;
            var n := (b[0] as int) * 256 + b[1];
            n == |topic| && |b| == 2 + n + |rest| && b[2..2 + n] == topic && b[2 + n..] == rest
  {
    FieldRoundTrip(topic, rest);
  }

  /** A publication is understood exactly when its topic holds on 65535 bytes. */
  lemma PublishRoundTrip(m: Message)
    ensures ParsePublish(PublishPacket(m)) == Some(Received(m, None)) <==> |m.topic| <= 65535
  {
    var p := PublishPacket(m);
    FieldRoundTrip(m.topic, m.payload);
    var cut := Str(p.body);
    assert p.body[0] == |m.topic| / 256 % 256 && p.body[1] == |m.topic| % 256;
    assert (p.body[0] as int) * 256 + p.body[1] <= |m.topic|;
  }

  function Published(ms: seq<Message>): (ps: seq<Packet>)
    ensures |ps| == |ms| && forall i :: 0 <= i < |ms| ==> ps[i] == PublishPacket(ms[i])
  {
    if ms == [] then [] else [PublishPacket(ms[0])] + Published(ms[1..])
  }

  /** Messages published one after the other reach the other end as they were sent. */
  lemma PublishedOverStream(ms: seq<Message>)
    requires forall m | m in ms :: |m.topic| <= 65535 && 2 + |m.topic| + |m.payload| <= MAX_BODY
    ensures var got := ReadAll(Stream(Published(ms)));
            && |got| == |ms|
            && forall i :: 0 <= i < |ms| ==> ParsePublish(got[i]) == Some(Received(ms[i], None))
  {
    var ps := Published(ms);
    var ping := Packet(0xC0, []);
    assert Sendable(ps);
    assert Frame(ping)[..0] == [] && Stream(ps) + [] == Stream(ps);
    StreamRoundTrip(ps, ping, 0);
    forall i | 0 <= i < |ms|
      ensures ParsePublish(ps[i]) == Some(Received(ms[i], None))
    {
      PublishRoundTrip(ms[i]);
    }
  }

  // ------------------------------------------------------------ connection

  datatype Options = Options(clientId: seq<byte>, user: seq<byte>, password: seq<byte>, will: Option<Message>, keepAlive: int)

  datatype Connect = Connect(clientId: seq<byte>, user: seq<byte>, password: seq<byte>, keepAlive: int, will: Option<Message>)

  const PROTOCOL: seq<byte> := [0x4D, 0x51, 0x54, 0x54]

  function KeepSeconds(o: Options): nat
    requires o.keepAlive > 0
  {
    if o.keepAlive / SECOND > 0xFFFF then 0xFFFF else o.keepAlive / SECOND
  }

  function Flags(o: Options): byte {
    0x02
    + (if o.will.Some? then 0x04 + (if o.will.value.retain then 0x20 else 0) else 0)
    + (if o.user != [] then 0x80 + (if o.password != [] then 0x40 else 0) else 0)
  }

  function UserPart(o: Options): seq<byte> {
    if o.user == [] then []
    else Field(o.user) + if o.password == [] then [] else Field(o.password)
  }

  function WillPart(o: Options): seq<byte> {
    if o.will.None? then [] else Field(o.will.value.topic) + Field(o.will.value.payload)
  }

  function ConnectBody(o: Options): seq<byte>
    requires o.keepAlive > 0
  {
    var keep := KeepSeconds(o);
    Field(PROTOCOL) + ([4, Flags(o), keep / 256, keep % 256] + (Field(o.clientId) + (WillPart(o) + UserPart(o))))
  }

  function Bit(flags: byte, weight: int): bool
    requires weight in {0x04, 0x20, 0x40, 0x80}
  {
    flags / weight % 2 == 1
  }

  function ParseWill(flags: byte, b: seq<byte>): (Option<Message>, seq<byte>) {
    if Bit(flags, 0x04) then
      var topic := Str(b);
      var payload := Str(topic.rest);
      (Some(Message(topic.s, payload.s, Bit(flags, 0x20))), payload.rest)
    else (None, b)
  }

  function ParseUser(flags: byte, b: seq<byte>): (seq<byte>, seq<byte>) {
    var user := if Bit(flags, 0x80) then Str(b) else Cut([], b);
    (user.s, if Bit(flags, 0x40) then Str(user.rest).s else [])
  }

  /** The connection request as the broker reads it. */
  function ParseConnect(body: seq<byte>): Connect {
    var rest := Str(body).rest;
    if |rest| < 4 then Connect([], [], [], 0, None)
    else
      var flags := rest[1];
      var client := Str(rest[4..]);
      var (will, after) := ParseWill(flags, client.rest);
      var (user, password) := ParseUser(flags, after);
      Connect(client.s, user, password, (rest[2] as int) * 256 + rest[3], will)
  }

  /** What the broker should understand: a password without a user is not sent. */
  function Meant(o: Options): Connect
    requires o.keepAlive > 0
  {
    Connect(o.clientId, o.user, if o.user == [] then [] else o.password, KeepSeconds(o), o.will)
  }

  /** Every string that is sent holds on 65535 bytes. */
  predicate StringsFit(o: Options) {
    && |o.clientId| <= 65535
    && (o.will.Some? ==> |o.will.value.topic| <= 65535 && |o.will.value.payload| <= 65535)
    && |o.user| <= 65535
    && (o.user != [] ==> |o.password| <= 65535)
  }

  lemma FlagBits(o: Options)
    ensures Bit(Flags(o), 0x04) <==> o.will.Some?
    ensures o.will.Some? ==> (Bit(Flags(o), 0x20) <==> o.will.value.retain)
    ensures Bit(Flags(o), 0x80) <==> o.user != []
    ensures Bit(Flags(o), 0x40) <==> o.user != [] && o.password != []
  {}

  lemma WillRoundTrip(o: Options, rest: seq<byte>)
    ensures ParseWill(Flags(o), WillPart(o) + rest) == (o.will, rest)
         || (o.will.Some? && (|o.will.value.topic| > 65535 || |o.will.value.payload| > 65535)
             && ParseWill(Flags(o), WillPart(o) + rest).0 != o.will)
    ensures o.will.Some? && (|o.will.value.topic| > 65535 || |o.will.value.payload| > 65535) ==>
              ParseWill(Flags(o), WillPart(o) + rest).0 != o.will
  {
    FlagBits(o);
    if o.will.None? {
      assert WillPart(o) + rest == rest;
    } else {
      var w := o.will.value;
      ConcatAssociative(Field(w.topic), Field(w.payload), rest);
      FieldRoundTrip(w.topic, Field(w.payload) + rest);
      FieldRoundTrip(w.payload, rest);
    }
  }

  lemma UserRoundTrip(o: Options)
    ensures ParseUser(Flags(o), UserPart(o)) == (o.user, if o.user == [] then [] else o.password)
       <==> |o.user| <= 65535 && (o.user != [] ==> |o.password| <= 65535)
  {
    FlagBits(o);
    if o.user != [] {
      if o.password == [] {
        FieldRoundTrip(o.user, []);
      } else {
        FieldRoundTrip(o.user, Field(o.password));
        FieldRoundTrip(o.password, []);
        assert Field(o.password) + [] == Field(o.password);
      }
    }
  }

  /** The broker understands the connection request exactly when the strings sent hold on 65535 bytes. */
  lemma ConnectRoundTrip(o: Options)
    requires o.keepAlive > 0
    ensures ParseConnect(ConnectBody(o)) == Meant(o) <==> StringsFit(o)
  {
    var keep := KeepSeconds(o);
    var tail := Field(o.clientId) + (WillPart(o) + UserPart(o));
    var head := [4, Flags(o), keep / 256, keep % 256];
    FieldRoundTrip(PROTOCOL, head + tail);
    assert (head + tail)[4..] == tail;
    FieldRoundTrip(o.clientId, WillPart(o) + UserPart(o));
    WillRoundTrip(o, UserPart(o));
    UserRoundTrip(o);
  }

  /**
   * The head of a connection request, section 3.1.2 of MQTT 3.1.1: the name of
   * the protocol, level 4, flags with a clean session, no reserved bit and a
   * will sent at most once, then the seconds to keep alive, 65535 at most.
   */
  lemma ConnectHead(o: Options)
    requires o.keepAlive > 0
    ensures var b := ConnectBody(o);
            var keep := (b[8] as int) * 256 + b[9];
            && |b| >= 10
            && b[..7] == [0, 4, 'M' as int, 'Q' as int, 'T' as int, 'T' as int, 4]
            && b[7] % 2 == 0 && b[7] / 2 % 2 == 1 && b[7] / 8 % 4 == 0
            && (b[7] / 4 % 2 == 1 <==> o.will.Some?)
            && (b[7] / 32 % 2 == 1 <==> o.will.Some? && o.will.value.retain)
            && (b[7] / 64 % 2 == 1 <==> o.user != [] && o.password != [])
            && (b[7] / 128 == 1 <==> o.user != [])
            && (if o.keepAlive < 65536 * SECOND then keep * SECOND <= o.keepAlive < (keep + 1) * SECOND else keep == 65535)
  {
    FlagsInFigures(o);
    KeepInFigures(o);
    HeadBytes(o);
  }

  lemma HeadBytes(o: Options)
    requires o.keepAlive > 0
    ensures var b, keep := ConnectBody(o), KeepSeconds(o);
            |b| >= 10 && b[..10] == [0, 4, 0x4D, 0x51, 0x54, 0x54, 4, Flags(o), keep / 256, keep % 256]
  {
    var keep := KeepSeconds(o);
    var tail := Field(o.clientId) + (WillPart(o) + UserPart(o));
    var head := [4, Flags(o), keep / 256, keep % 256];
    assert Field(PROTOCOL) == [0, 4, 0x4D, 0x51, 0x54, 0x54];
    ConcatAssociative(Field(PROTOCOL), head, tail);
  }

  lemma FlagsInFigures(o: Options)
    ensures var f := Flags(o);
            && f % 2 == 0 && f / 2 % 2 == 1 && f / 8 % 4 == 0
            && (f / 4 % 2 == 1 <==> o.will.Some?)
            && (f / 32 % 2 == 1 <==> o.will.Some? && o.will.value.retain)
            && (f / 64 % 2 == 1 <==> o.user != [] && o.password != [])
            && (f / 128 == 1 <==> o.user != [])
  {}

  lemma KeepInFigures(o: Options)
    requires o.keepAlive > 0
    ensures var keep := KeepSeconds(o);
            && keep < 65536
            && if o.keepAlive < 65536 * SECOND then keep * SECOND <= o.keepAlive < (keep + 1) * SECOND else keep == 65535
  {}

  /** The flags and the strings of a connection request. */
  method ConnectPayload(o: Options) returns (flags: byte, payload: seq<byte>)
    ensures flags == Flags(o)
    ensures payload == Field(o.clientId) + (WillPart(o) + UserPart(o))
  {
    flags := 0x02;
    payload := Field(o.clientId);
    if o.will.Some? {
      flags := flags + 0x04;
      if o.will.value.retain {
        flags := flags + 0x20;
      }
      payload := payload + (Field(o.will.value.topic) + Field(o.will.value.payload));
    }
    assert payload == Field(o.clientId) + WillPart(o);
    ghost var before := payload;
    if o.user != [] {
      flags := flags + 0x80;
      payload := payload + Field(o.user);
      if o.password != [] {
        flags := flags + 0x40;
        ConcatAssociative(before, Field(o.user), Field(o.password));
        payload := payload + Field(o.password);
      }
    }
    assert payload == before + UserPart(o);
    ConcatAssociative(Field(o.clientId), WillPart(o), UserPart(o));
  }

  // ---------------------------------------------------------------- client

  lemma PublishBody(m: Message)
    ensures var p := PublishPacket(m);
            && p == Packet(if m.retain then 0x31 else 0x30, Field(m.topic) + m.payload)
            && |p.body| == 2 + |m.topic| + |m.payload|
  {}

  /** The writing side of a connection: what was sent so far. */
  class Client {
    var sent: seq<byte>

    constructor ()
      ensures sent == []
    {
      sent := [];
    }

    method Write(header: byte, body: seq<byte>) returns (ok: bool)
      modifies this
      ensures ok <==> |body| <= MAX_BODY
      ensures sent == old(sent) + if ok then Frame(Packet(header, body)) else []
    {
      if |body| > MAX_BODY {
        return false;
      }
      var length := EncodeRemaining(|body|);
      var pkt := [header] + length;
      pkt := pkt + body;
      assert pkt == Frame(Packet(header, body));
      sent := sent + pkt;
      return true;
    }

    method Publish(m: Message) returns (ok: bool)
      modifies this
      ensures ok <==> 2 + |m.topic| + |m.payload| <= MAX_BODY
      ensures sent == old(sent) + if ok then Frame(PublishPacket(m)) else []
    {
      var header: byte := 0x30;
      if m.retain {
        header := header + 0x01;
      }
      PublishBody(m);
      ok := Write(header, Field(m.topic) + m.payload);
    }

    /** Sends the connection request. */
    method SendConnect(o: Options) returns (ok: bool)
      requires o.keepAlive > 0
      modifies this
      ensures ok <==> |ConnectBody(o)| <= MAX_BODY
      ensures sent == old(sent) + if ok then Frame(Packet(0x10, ConnectBody(o))) else []
    {
      var flags, payload := ConnectPayload(o);
      var keep := o.keepAlive / SECOND;
      if keep > 0xFFFF {
        keep := 0xFFFF;
      }
      var body := Field(PROTOCOL) + ([4, flags, keep / 256, keep % 256] + payload);
      ok := Write(0x10, body);
    }
  }
}
