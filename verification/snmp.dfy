/** SNMPv2c messages: the client's requests, the agent's answers, and how each is read. */
module Snmp {
  import opened Wrappers
  import opened Ber
  import opened Oids

  const TAG_OCTETS: byte := 0x04
  const TAG_NULL: byte := 0x05
  const TAG_OID: byte := 0x06
  const TAG_SEQUENCE: byte := 0x30
  const TAG_IP_ADDRESS: byte := 0x40
  const TAG_COUNTER32: byte := 0x41
  const TAG_GAUGE32: byte := 0x42
  const TAG_TIME_TICKS: byte := 0x43
  const TAG_OPAQUE: byte := 0x44
  const TAG_COUNTER64: byte := 0x46
  const TAG_NO_SUCH_OBJECT: byte := 0x80
  const TAG_NO_SUCH_INSTANCE: byte := 0x81
  const TAG_END_OF_MIB: byte := 0x82
  const PDU_GET: byte := 0xa0
  const PDU_RESPONSE: byte := 0xa2
  const PDU_GET_BULK: byte := 0xa5
  const VERSION_2C: int64 := 1
  const STATUS_OK: int64 := 0

  datatype Value =
    | Null
    | Integer(i: int64)
    | Unsigned(u: uint64)
    | Octets(bytes: seq<byte>)
    | ObjectId(oid: Name)
    | NoSuch
    | EndOfMib

  datatype VarBind = VarBind(oid: Name, value: Value)

  datatype DecodeError = Unreadable | Unexpected | AgentStatus(id: int, status: int) | BadOid(e: OidError)

  // --------------------------------------------------------------- writing

  function ValueBytes(v: Value): (b: seq<byte>)
    ensures |b| >= 2
  {
    match v
    case Integer(i) => Tlv(TAG_INTEGER, IntContent(i))
    case Unsigned(u) => Tlv(if u > 0xffff_ffff then TAG_COUNTER64 else TAG_COUNTER32, UintContent(u))
    case Octets(bytes) => Tlv(TAG_OCTETS, bytes)
    case ObjectId(o) => Tlv(TAG_OID, OidContent(o))
    case NoSuch => [TAG_NO_SUCH_OBJECT, 0]
    case EndOfMib => [TAG_END_OF_MIB, 0]
    case Null => [TAG_NULL, 0]
  }

  /** An object of the agent never carries the two exception markers: they are written as Null. */
  function Canon(v: Value): Value {
    if v.NoSuch? || v.EndOfMib? then Null else v
  }

  method EncodeValue(v: Value) returns (out: seq<byte>)
    ensures out == ValueBytes(Canon(v))
  {
    match v
    case Integer(i) =>
      out := EncodeInt(i);
    case Unsigned(u) =>
      var b := EncodeUint(u);
      var tag := TAG_COUNTER32;
      if u > 0xffff_ffff {
        tag := TAG_COUNTER64;
      }
      out := Tlv(tag, b);
    case Octets(bytes) =>
      out := Tlv(TAG_OCTETS, bytes);
    case ObjectId(o) =>
      var b := EncodeOid(o);
      out := Tlv(TAG_OID, b);
    case _ =>
      out := [TAG_NULL, 0];
  }

  function VarBindContent(vb: VarBind): seq<byte>
  {
    Tlv(TAG_OID, OidContent(vb.oid)) + ValueBytes(vb.value)
  }

  function VarBindBytes(vb: VarBind): seq<byte> {
    Tlv(TAG_SEQUENCE, VarBindContent(vb))
  }

  function ListBytes(vbs: seq<VarBind>): seq<byte>
  {
    Flatten(VarBindBytes, vbs)
  }

  function MessageContent(community: seq<byte>, pdu: byte, body: seq<byte>): seq<byte> {
    Tlv(TAG_INTEGER, IntContent(VERSION_2C)) + (Tlv(TAG_OCTETS, community) + Tlv(pdu, body))
  }

  /** The body of any message: three integers and a list. */
  function Body(first: seq<byte>, second: seq<byte>, third: seq<byte>, list: seq<byte>): seq<byte> {
    Tlv(TAG_INTEGER, first) + (Tlv(TAG_INTEGER, second) + (Tlv(TAG_INTEGER, third) + Tlv(TAG_SEQUENCE, list)))
  }

  function Asked(oids: seq<Name>): (vbs: seq<VarBind>)
    ensures |vbs| == |oids|
    ensures forall i :: 0 <= i < |oids| ==> vbs[i] == VarBind(oids[i], Null)
  {
    seq(|oids|, i requires 0 <= i < |oids| => VarBind(oids[i], Null))
  }

  function RequestContent(community: seq<byte>, pdu: byte, id: int64, nonRep: int64, maxRep: int64, oids: seq<Name>): seq<byte>
  {
    MessageContent(community, pdu, Body(IntContent(id), IntContent(nonRep), IntContent(maxRep), ListBytes(Asked(oids))))
  }

  method Encode(community: seq<byte>, pdu: byte, id: int64, nonRep: int64, maxRep: int64, oids: seq<Name>)
    returns (out: seq<byte>)
    ensures out == Tlv(TAG_SEQUENCE, RequestContent(community, pdu, id, nonRep, maxRep, oids))
  {
    var list := EncodeList(oids);
    var first := EncodeInt(id);
    var second := EncodeInt(nonRep);
    var third := EncodeInt(maxRep);
    var body := first + (second + (third + Tlv(TAG_SEQUENCE, list)));
    var version := EncodeInt(VERSION_2C);
    var msg := version + (Tlv(TAG_OCTETS, community) + Tlv(pdu, body));
    out := Tlv(TAG_SEQUENCE, msg);
  }

  method EncodeList(oids: seq<Name>) returns (list: seq<byte>)
    ensures list == ListBytes(Asked(oids))
  {
    list := [];
    ghost var asked := Asked(oids);
    for i := 0 to |oids|
      invariant list + ListBytes(asked[i..]) == ListBytes(asked)
    {
      FlattenAt(VarBindBytes, asked, i);
      var content := EncodeOid(oids[i]);
      var varBind := Tlv(TAG_SEQUENCE, Tlv(TAG_OID, content) + [TAG_NULL, 0]);
      ConcatAssociative(list, varBind, ListBytes(asked[i + 1..]));
      list := list + varBind;
    }
  }

  function ResponseContent(community: seq<byte>, rawId: seq<byte>, vbs: seq<VarBind>): seq<byte>
  {
    MessageContent(community, PDU_RESPONSE, Body(rawId, IntContent(STATUS_OK), IntContent(STATUS_OK), ListBytes(vbs)))
  }

  // --------------------------------------------------------------- reading

  /** The value a content stands for under a tag. */
  function Interpret(tag: byte, content: seq<byte>): Result<Value, DecodeError> {
    if tag == TAG_INTEGER then Ok(Integer(Wrap64(SignedValue(content))))
    else if tag in {TAG_COUNTER32, TAG_GAUGE32, TAG_TIME_TICKS, TAG_COUNTER64} then
      Ok(Unsigned(Low64(UintValue(content))))
    else if tag in {TAG_OCTETS, TAG_IP_ADDRESS, TAG_OPAQUE} then Ok(Octets(content))
    else if tag == TAG_OID then
      (match ReadOid(content) case Ok(o) => Ok(ObjectId(o)) case Err(e) => Err(BadOid(e)))
    else if tag in {TAG_NO_SUCH_OBJECT, TAG_NO_SUCH_INSTANCE} then Ok(NoSuch)
    else if tag == TAG_END_OF_MIB then Ok(EndOfMib)
    else Ok(Null)
  }

  function ReadValue(b: seq<byte>): Result<Value, DecodeError> {
    if |b| < 2 then Err(Unreadable)
    else
      match Element(b, b[0])
      case Err(_) => Err(Unreadable)
      case Ok(Split(content, _)) => Interpret(b[0], content)
  }

  function ReadVarBind(b: seq<byte>): Result<VarBind, DecodeError> {
    match Element(b, TAG_OID)
    case Err(_) => Err(Unreadable)
    case Ok(Split(raw, rest)) =>
      match ReadOid(raw)
      case Err(e) => Err(BadOid(e))
      case Ok(oid) =>
        match ReadValue(rest)
        case Err(e) => Err(e)
        case Ok(v) => Ok(VarBind(oid, v))
  }

  function ReadList(b: seq<byte>): Result<seq<VarBind>, DecodeError> {
    if b == [] then Ok([])
    else
      match Element(b, TAG_SEQUENCE)
      case Err(_) => Err(Unreadable)
      case Ok(Split(content, rest)) =>
        match ReadVarBind(content)
        case Err(e) => Err(e)
        case Ok(vb) =>
          match ReadList(rest)
          case Err(e) => Err(e)
          case Ok(vbs) => Ok([vb] + vbs)
  }

  datatype Fields = Fields(values: seq<int>, rest: seq<byte>)

  /** n leading integers. */
  function ReadFields(b: seq<byte>, n: nat): (r: Result<Fields, DecodeError>)
    ensures r.Ok? ==> |r.value.values| == n
  {
    if n == 0 then Ok(Fields([], b))
    else
      match Element(b, TAG_INTEGER)
      case Err(_) => Err(Unreadable)
      case Ok(Split(content, rest)) =>
        match ReadFields(rest, n - 1)
        case Err(e) => Err(e)
        case Ok(Fields(values, end)) => Ok(Fields([Wrap64(SignedValue(content))] + values, end))
  }

  datatype Reply = Reply(id: int, vbs: seq<VarBind>)

  function ReadBody(pdu: seq<byte>): Result<Reply, DecodeError> {
    match ReadFields(pdu, 3)
    case Err(e) => Err(e)
    case Ok(Fields(values, rest)) =>
      if values[1] != 0 then Err(AgentStatus(Wrap32(values[0]), values[1]))
      else
        match Element(rest, TAG_SEQUENCE)
        case Err(_) => Err(Unreadable)
        case Ok(Split(list, _)) =>
          match ReadList(list)
          case Err(e) => Err(e)
          case Ok(vbs) => Ok(Reply(Wrap32(values[0]), vbs))
  }

  function ReadMessage(b: seq<byte>): Result<Reply, DecodeError> {
    match Element(b, TAG_SEQUENCE)
    case Err(_) => Err(Unreadable)
    case Ok(Split(msg, end)) =>
      if end != [] then Err(Unreadable)
      else
        match Element(msg, TAG_INTEGER)
        case Err(_) => Err(Unreadable)
        case Ok(Split(_, msg)) =>
          match Element(msg, TAG_OCTETS)
          case Err(_) => Err(Unreadable)
          case Ok(Split(_, msg)) =>
            match Element(msg, PDU_RESPONSE)
            case Err(_) => Err(Unexpected)
            case Ok(Split(pdu, _)) => ReadBody(pdu)
  }

  method DecodeValue(b: seq<byte>) returns (r: Result<Value, DecodeError>)
    ensures r == ReadValue(b)
  {
    if |b| < 2 {
      return Err(Unreadable);
    }
    var tag := b[0];
    var e := ReadElement(b, tag);
    if e.Err? {
      return Err(Unreadable);
    }
    var content := e.value.content;
    if tag == TAG_INTEGER {
      var i := DecodeInt(content);
      return Ok(Integer(i));
    } else if tag in {TAG_COUNTER32, TAG_GAUGE32, TAG_TIME_TICKS, TAG_COUNTER64} {
      var u := DecodeUint(content);
      return Ok(Unsigned(u));
    } else if tag in {TAG_OCTETS, TAG_IP_ADDRESS, TAG_OPAQUE} {
      return Ok(Octets(content));
    } else if tag == TAG_OID {
      var o := DecodeOid(content);
      return match o case Ok(oid) => Ok(ObjectId(oid)) case Err(x) => Err(BadOid(x));
    } else if tag in {TAG_NO_SUCH_OBJECT, TAG_NO_SUCH_INSTANCE} {
      return Ok(NoSuch);
    } else if tag == TAG_END_OF_MIB {
      return Ok(EndOfMib);
    }
    return Ok(Null);
  }

  /** Reads an answer: its identifier and its values. */
  method Decode(b: seq<byte>) returns (r: Result<Reply, DecodeError>)
    ensures r == ReadMessage(b)
  {
    var e := ReadElement(b, TAG_SEQUENCE);
    if e.Err? || e.value.rest != [] {
      return Err(Unreadable);
    }
    e := ReadElement(e.value.content, TAG_INTEGER);
    if e.Err? {
      return Err(Unreadable);
    }
    e := ReadElement(e.value.rest, TAG_OCTETS);
    if e.Err? {
      return Err(Unreadable);
    }
    e := ReadElement(e.value.rest, PDU_RESPONSE);
    if e.Err? {
      return Err(Unexpected);
    }
    r := DecodeBody(e.value.content);
  }

  method DecodeBody(body: seq<byte>) returns (r: Result<Reply, DecodeError>)
    ensures r == ReadBody(body)
  {
    var pdu := body;
    var fields: seq<int> := [];
    assert ReadFields(body, 3).Ok? ==> fields + ReadFields(body, 3).value.values == ReadFields(body, 3).value.values;
    for i := 0 to 3
      invariant |fields| == i
      invariant match ReadFields(pdu, 3 - i)
                case Err(e) => ReadFields(body, 3) == Err(e)
                case Ok(f) => ReadFields(body, 3) == Ok(Fields(fields + f.values, f.rest))
    {
      var e := ReadElement(pdu, TAG_INTEGER);
      if e.Err? {
        return Err(Unreadable);
      }
      var v := DecodeInt(e.value.content);
      ghost var after := ReadFields(e.value.rest, 2 - i);
      assert after.Ok? ==> fields + ([v] + after.value.values) == fields + [v] + after.value.values;
      fields, pdu := fields + [v], e.value.rest;
    }
    assert fields + [] == fields;
    if fields[1] != 0 {
      return Err(AgentStatus(Wrap32(fields[0]), fields[1]));
    }
    var e := ReadElement(pdu, TAG_SEQUENCE);
    if e.Err? {
      return Err(Unreadable);
    }
    var vbs := DecodeList(e.value.content);
    return match vbs case Err(x) => Err(x) case Ok(out) => Ok(Reply(Wrap32(fields[0]), out));
  }

  function Prepended(out: seq<VarBind>, r: Result<seq<VarBind>, DecodeError>): Result<seq<VarBind>, DecodeError> {
    match r
    case Ok(vbs) => Ok(out + vbs)
    case Err(e) => Err(e)
  }

  lemma PrependedOne(out: seq<VarBind>, vb: VarBind, r: Result<seq<VarBind>, DecodeError>)
    ensures Prepended(out, Prepended([vb], r)) == Prepended(out + [vb], r)
  {
    if r.Ok? {
      ConcatAssociative(out, [vb], r.value);
    }
  }

  lemma PrependedNone(out: seq<VarBind>, r: Result<seq<VarBind>, DecodeError>)
    ensures Prepended([], r) == r && Prepended(out, Ok([])) == Ok(out)
  {
    if r.Ok? {
      assert [] + r.value == r.value;
    }
    assert out + [] == out;
  }

  method DecodeList(b: seq<byte>) returns (r: Result<seq<VarBind>, DecodeError>)
    ensures r == ReadList(b)
  {
    var list, out := b, [];
    PrependedNone([], ReadList(b));
    while |list| > 0
      invariant Prepended(out, ReadList(list)) == ReadList(b)
      decreases |list|
    {
      var e := ReadElement(list, TAG_SEQUENCE);
      if e.Err? {
        return Err(Unreadable);
      }
      var o := ReadElement(e.value.content, TAG_OID);
      if o.Err? {
        return Err(Unreadable);
      }
      var oid := DecodeOid(o.value.content);
      if oid.Err? {
        return Err(BadOid(oid.error));
      }
      var v := DecodeValue(o.value.rest);
      if v.Err? {
        return Err(v.error);
      }
      var vb := VarBind(oid.value, v.value);
      PrependedOne(out, vb, ReadList(e.value.rest));
      out, list := out + [vb], e.value.rest;
    }
    PrependedNone(out, Ok([]));
    return Ok(out);
  }

  // ------------------------------------------------------------ round trip

  /** Identifiers that come back from their encoding. */
  predicate Faithful(vb: VarBind) {
    Encodable(vb.oid) && (vb.value.ObjectId? ==> Encodable(vb.value.oid))
  }

  /** What the element of a value holds. */
  function ContentOf(v: Value): seq<byte> {
    match v
    case Integer(i) => IntContent(i)
    case Unsigned(u) => UintContent(u)
    case Octets(bytes) => bytes
    case ObjectId(o) => OidContent(o)
    case _ => []
  }

  function TagOf(v: Value): byte {
    match v
    case Integer(_) => TAG_INTEGER
    case Unsigned(u) => if u > 0xffff_ffff then TAG_COUNTER64 else TAG_COUNTER32
    case Octets(_) => TAG_OCTETS
    case ObjectId(_) => TAG_OID
    case NoSuch => TAG_NO_SUCH_OBJECT
    case EndOfMib => TAG_END_OF_MIB
    case Null => TAG_NULL
  }

  lemma ValueIsElement(v: Value)
    ensures ValueBytes(v) == Tlv(TagOf(v), ContentOf(v))
  {}

  /** A value is read up to the length its element announces. */
  lemma ReadValueBytes(v: Value)
    ensures ReadValue(ValueBytes(v)) == Interpret(TagOf(v), ContentOf(v)[..Announced(|ContentOf(v)|)])
  {
    ValueIsElement(v);
    var b := Tlv(TagOf(v), ContentOf(v));
    assert b + [] == b;
    ElementRead(TagOf(v), ContentOf(v), []);
  }

  lemma IntegerRead(i: int64)
    ensures |IntContent(i)| <= 8 && Interpret(TAG_INTEGER, IntContent(i)) == Ok(Integer(i))
  {
    IntContentShortest(i);
  }

  lemma UnsignedRead(u: uint64)
    ensures |UintContent(u)| <= 9 && Interpret(TagOf(Unsigned(u)), UintContent(u)) == Ok(Unsigned(u))
  {
    UintContentShortest(u);
    UintContentSize(u);
  }

  /** The whole content of a value stands for it, unless it is an identifier that cannot be encoded. */
  lemma ContentRead(v: Value)
    ensures Interpret(TagOf(v), ContentOf(v)) == Ok(v) <==> (v.ObjectId? ==> Encodable(v.oid))
  {
    match v
    case Integer(i) => IntegerRead(i);
    case Unsigned(u) => UnsignedRead(u);
    case ObjectId(o) => OidRoundTrip(o);
    case _ =>
  }

  /** A content too long for its element, once cut, does not. */
  lemma CutContent(v: Value, m: nat)
    requires |ContentOf(v)| > 65535 && m < |ContentOf(v)|
    ensures Interpret(TagOf(v), ContentOf(v)[..m]) != Ok(v)
  {
    match v
    case Integer(i) => IntegerRead(i);
    case Unsigned(u) => UnsignedRead(u);
    case ObjectId(o) => CutOid(o, m);
    case _ =>
  }

  /**
   * A value is read back from its bytes if and only if its content holds on
   * 65535 bytes, and can be encoded when it is an identifier.
   */
  lemma ValueRoundTrip(v: Value)
    ensures ReadValue(ValueBytes(v)) == Ok(v) <==> |ContentOf(v)| <= 65535 && (v.ObjectId? ==> Encodable(v.oid))
  {
    ReadValueBytes(v);
    var c := ContentOf(v);
    if |c| <= 65535 {
      assert c[..|c|] == c;
      ContentRead(v);
    } else {
      CutContent(v, Announced(|c|));
    }
  }

  /** The bytes of a value, cut before their end, are not read as this value. */
  lemma CutValue(v: Value, k: nat)
    requires k < |ValueBytes(v)|
    ensures ReadValue(ValueBytes(v)[..k]) != Ok(v)
  {
    ValueIsElement(v);
    var c, b := ContentOf(v), ValueBytes(v)[..k];
    if k >= 2 {
      assert b[0] == TagOf(v);
      ElementOfCut(TagOf(v), c, k);
      if |c| > 65535 {
        CutContent(v, Announced(|c|));
      }
    }
  }

  /** Both elements of a variable hold on 65535 bytes. */
  predicate PartsFit(vb: VarBind) {
    |OidContent(vb.oid)| <= 65535 && |ContentOf(vb.value)| <= 65535
  }

  /** What is read of a variable whose identifier is followed by other bytes. */
  lemma ReadVarBindStep(oid: Name, rest: seq<byte>)
    ensures var c := OidContent(oid);
            ReadVarBind(Tlv(TAG_OID, c) + rest) ==
            match ReadOid(c[..Announced(|c|)])
            case Err(e) => Err(BadOid(e))
            case Ok(o) =>
              match ReadValue(c[Announced(|c|)..] + rest)
              case Err(e) => Err(e)
              case Ok(v) => Ok(VarBind(o, v))
  {
    ElementRead(TAG_OID, OidContent(oid), rest);
  }

  /** An identifier too long for its element is not read back. */
  lemma NameRead(oid: Name)
    ensures var c := OidContent(oid);
            ReadOid(c[..Announced(|c|)]) == Ok(oid) <==> |c| <= 65535 && Encodable(oid)
  {
    var c := OidContent(oid);
    if |c| <= 65535 {
      assert c[..|c|] == c;
      OidRoundTrip(oid);
    } else {
      CutOid(oid, Announced(|c|));
    }
  }

  lemma VarBindRoundTrip(vb: VarBind)
    ensures ReadVarBind(VarBindContent(vb)) == Ok(vb) <==> PartsFit(vb) && Faithful(vb)
  {
    var c := OidContent(vb.oid);
    ReadVarBindStep(vb.oid, ValueBytes(vb.value));
    NameRead(vb.oid);
    if |c| <= 65535 {
      assert c[|c|..] + ValueBytes(vb.value) == ValueBytes(vb.value);
      ValueRoundTrip(vb.value);
    }
  }

  /** The bytes of a variable, cut before their end, are not read as this variable. */
  lemma CutVarBind(vb: VarBind, k: nat)
    requires k < |VarBindContent(vb)|
    ensures ReadVarBind(VarBindContent(vb)[..k]) != Ok(vb)
  {
    var c, value := OidContent(vb.oid), ValueBytes(vb.value);
    var name := Tlv(TAG_OID, c);
    NameRead(vb.oid);
    if k < |name| {
      assert VarBindContent(vb)[..k] == name[..k];
      ElementOfCut(TAG_OID, c, k);
    } else {
      var cut := value[..k - |name|];
      assert VarBindContent(vb)[..k] == name + cut;
      ReadVarBindStep(vb.oid, cut);
      if |c| <= 65535 {
        assert c[|c|..] + cut == cut;
        CutValue(vb.value, k - |name|);
      }
    }
  }

  lemma ReadListStep(content: seq<byte>, rest: seq<byte>)
    ensures var m := Announced(|content|);
            ReadList(Tlv(TAG_SEQUENCE, content) + rest) ==
            match ReadVarBind(content[..m])
            case Err(e) => Err(e)
            case Ok(vb) =>
              match ReadList(content[m..] + rest)
              case Err(e) => Err(e)
              case Ok(vbs) => Ok([vb] + vbs)
  {
    ElementRead(TAG_SEQUENCE, content, rest);
  }

  /** A variable of a list comes back if and only if it is faithful and its element holds on 65535 bytes. */
  predicate Listed(vb: VarBind) {
    |VarBindContent(vb)| <= 65535 && Faithful(vb)
  }

  lemma VarBindRead(vb: VarBind)
    ensures var c := VarBindContent(vb);
            ReadVarBind(c[..Announced(|c|)]) == Ok(vb) <==> Listed(vb)
  {
    var c := VarBindContent(vb);
    if |c| <= 65535 {
      assert c[..|c|] == c;
      ValueIsElement(vb.value);
      VarBindRoundTrip(vb);
    } else {
      CutVarBind(vb, Announced(|c|));
    }
  }

  /** A list is read back if and only if each of its variables is. */
  lemma {:induction false} ListRoundTrip(vbs: seq<VarBind>)
    ensures ReadList(ListBytes(vbs)) == Ok(vbs) <==> forall vb | vb in vbs :: Listed(vb)
  {
    if vbs != [] {
      var vb, more := vbs[0], vbs[1..];
      var c := VarBindContent(vb);
      assert vbs == [vb] + more;
      FlattenCons(VarBindBytes, vb, more);
      ReadListStep(c, ListBytes(more));
      VarBindRead(vb);
      if Listed(vb) {
        assert c[|c|..] + ListBytes(more) == ListBytes(more);
        ListRoundTrip(more);
      }
    }
  }

  /** No element of a list is longer than the list. */
  lemma {:induction false} ListParts(vbs: seq<VarBind>)
    ensures forall vb | vb in vbs :: |VarBindContent(vb)| <= |ListBytes(vbs)|
  {
    if vbs != [] {
      assert vbs == [vbs[0]] + vbs[1..];
      ListParts(vbs[1..]);
    }
  }

  lemma OneField(content: seq<byte>, rest: seq<byte>, n: nat, after: Fields)
    requires |content| <= 65535 && ReadFields(rest, n) == Ok(after)
    ensures ReadFields(Tlv(TAG_INTEGER, content) + rest, n + 1) ==
            Ok(Fields([Wrap64(SignedValue(content))] + after.values, after.rest))
  {
    ElementOfTlv(TAG_INTEGER, content, rest);
  }

  /** The three integers and the list of a body are found again. */
  lemma BodyFields(first: seq<byte>, second: seq<byte>, third: seq<byte>, list: seq<byte>)
    requires |Body(first, second, third, list)| <= 65535
    ensures ReadFields(Body(first, second, third, list), 3) ==
            Ok(Fields([Wrap64(SignedValue(first)), Wrap64(SignedValue(second)), Wrap64(SignedValue(third))],
                      Tlv(TAG_SEQUENCE, list)))
  {
    var b3 := Tlv(TAG_SEQUENCE, list);
    var b2 := Tlv(TAG_INTEGER, third) + b3;
    var b1 := Tlv(TAG_INTEGER, second) + b2;
    var v2, v3 := Wrap64(SignedValue(second)), Wrap64(SignedValue(third));
    assert [v3] + [] == [v3] && [v2] + [v3] == [v2, v3];
    assert [Wrap64(SignedValue(first))] + [v2, v3] == [Wrap64(SignedValue(first)), v2, v3];
    OneField(third, b3, 0, Fields([], b3));
    OneField(second, b2, 1, Fields([v3], b3));
    OneField(first, b1, 2, Fields([v2, v3], b3));
  }

  lemma BodyRoundTrip(first: seq<byte>, second: seq<byte>, third: seq<byte>, vbs: seq<VarBind>)
    requires |Body(first, second, third, ListBytes(vbs))| <= 65535
    requires SignedValue(second) == 0
    ensures ReadBody(Body(first, second, third, ListBytes(vbs))) == Ok(Reply(Wrap32(Wrap64(SignedValue(first))), vbs))
       <==> forall vb | vb in vbs :: Faithful(vb)
  {
    var list := ListBytes(vbs);
    BodyFields(first, second, third, list);
    assert Tlv(TAG_SEQUENCE, list) + [] == Tlv(TAG_SEQUENCE, list);
    ElementOfTlv(TAG_SEQUENCE, list, []);
    ListParts(vbs);
    ListRoundTrip(vbs);
  }

  /** An answer with any identifier and status octets, the status being zero. */
  lemma AnswerRoundTrip(community: seq<byte>, rawId: seq<byte>, zero: seq<byte>, vbs: seq<VarBind>, content: seq<byte>)
    requires SignedValue(zero) == 0
    requires content == MessageContent(community, PDU_RESPONSE, Body(rawId, zero, zero, ListBytes(vbs)))
    ensures ReadMessage(Tlv(TAG_SEQUENCE, content)) == Ok(Reply(Wrap32(Wrap64(SignedValue(rawId))), vbs))
       <==> |content| <= 65535 && forall vb | vb in vbs :: Faithful(vb)
  {
    var body := Body(rawId, zero, zero, ListBytes(vbs));
    if |content| <= 65535 {
      MessageParts(community, PDU_RESPONSE, body);
      BodyRoundTrip(rawId, zero, zero, vbs);
    } else {
      TooLong(content);
    }
  }

  /**
   * The answer is read back as it was written, with the identifier of the
   * request, exactly when the whole message holds on 65535 bytes and every
   * identifier in it comes back from its own encoding.
   */
  lemma ResponseRoundTrip(community: seq<byte>, rawId: seq<byte>, vbs: seq<VarBind>)
    ensures ReadMessage(Tlv(TAG_SEQUENCE, ResponseContent(community, rawId, vbs)))
            == Ok(Reply(Wrap32(Wrap64(SignedValue(rawId))), vbs))
       <==> |ResponseContent(community, rawId, vbs)| <= 65535 && forall vb | vb in vbs :: Faithful(vb)
  {
    IntContentShortest(STATUS_OK);
    AnswerRoundTrip(community, rawId, IntContent(STATUS_OK), vbs, ResponseContent(community, rawId, vbs));
  }

  /** Beyond 65535 bytes the announced length is short: bytes are left over and the message is refused. */
  lemma TooLong(content: seq<byte>)
    requires |content| > 65535
    ensures ReadMessage(Tlv(TAG_SEQUENCE, content)) == Err(Unreadable)
  {
    var b := Tlv(TAG_SEQUENCE, content);
    UintTwo(b[2..4]);
  }

  /** The version, the community and the protocol data unit of a message are found again. */
  lemma MessageParts(community: seq<byte>, pdu: byte, body: seq<byte>)
    requires |MessageContent(community, pdu, body)| <= 65535
    ensures var msg := MessageContent(community, pdu, body);
            var afterVersion := Tlv(TAG_OCTETS, community) + Tlv(pdu, body);
            && Element(Tlv(TAG_SEQUENCE, msg), TAG_SEQUENCE) == Ok(Split(msg, []))
            && Element(msg, TAG_INTEGER) == Ok(Split(IntContent(VERSION_2C), afterVersion))
            && Element(afterVersion, TAG_OCTETS) == Ok(Split(community, Tlv(pdu, body)))
            && Element(Tlv(pdu, body), pdu) == Ok(Split(body, []))
            && |body| <= 65535
  {
    var msg := MessageContent(community, pdu, body);
    var afterVersion := Tlv(TAG_OCTETS, community) + Tlv(pdu, body);
    assert Tlv(TAG_SEQUENCE, msg) + [] == Tlv(TAG_SEQUENCE, msg);
    assert Tlv(pdu, body) + [] == Tlv(pdu, body);
    ElementOfTlv(TAG_SEQUENCE, msg, []);
    ElementOfTlv(TAG_INTEGER, IntContent(VERSION_2C), afterVersion);
    ElementOfTlv(TAG_OCTETS, community, Tlv(pdu, body));
    ElementOfTlv(pdu, body, []);
  }
}
