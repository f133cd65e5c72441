/**
 * Messages of any device, not only of the reference agent: elements in every
 * form of length, the types of section 3 of RFC 3416, and what the client
 * makes of them (internal/snmp/snmp.go).
 */
module Devices {
  import opened Wrappers
  import opened Ber
  import opened Oids
  import opened Snmp

  // ---------------------------------------------------------------- elements

  /** A tag and a length: in short form, or on one to three octets, zeros first if one likes. */
  ghost predicate HeadOf(head: seq<byte>, tag: byte, n: nat) {
    || (n < 128 && head == [tag, n])
    || exists k: nat :: LongHead(head, tag, n, k)
  }

  predicate LongHead(head: seq<byte>, tag: byte, n: nat, k: nat) {
    1 <= k <= 3 && n < Pow256(k) && head == [tag, 0x80 + k] + BigEndian(n, k)
  }

  lemma LongHeadRead(tag: byte, content: seq<byte>, rest: seq<byte>, k: nat, head: seq<byte>)
    requires LongHead(head, tag, |content|, k)
    ensures Element(head + (content + rest), tag) == Ok(Split(content, rest))
  {
    var b := head + (content + rest);
    assert b[2..2 + k] == BigEndian(|content|, k);
    BigEndianValue(|content|, k);
    HeadCut(head, content, rest);
  }

  lemma HeadCut(head: seq<byte>, content: seq<byte>, rest: seq<byte>)
    ensures Cut(head + (content + rest), |head|, |content|) == Ok(Split(content, rest))
  {
    var b := head + (content + rest);
    assert b[|head|..|head| + |content|] == content && b[|head| + |content|..] == rest;
  }

  lemma HeadRead(head: seq<byte>, tag: byte, content: seq<byte>, rest: seq<byte>)
    requires HeadOf(head, tag, |content|)
    ensures Element(head + (content + rest), tag) == Ok(Split(content, rest))
  {
    if |content| < 128 && head == [tag, |content|] {
      HeadCut(head, content, rest);
    } else {
      var k: nat :| LongHead(head, tag, |content|, k);
      LongHeadRead(tag, content, rest, k, head);
    }
  }

  lemma LongHeadFound(b: seq<byte>, tag: byte, start: nat, n: nat)
    requires 3 <= start <= 5 && start <= |b| && b[0] == tag && b[1] == 0x80 + (start - 2)
    requires UintValue(b[2..start]) == n
    ensures HeadOf(b[..start], tag, n)
  {
    BigEndianOf(b[2..start]);
    assert b[..start] == [tag, 0x80 + (start - 2)] + b[2..start];
    assert LongHead(b[..start], tag, n, start - 2);
  }

  lemma BigEndianOf(digits: seq<byte>)
    ensures UintValue(digits) < Pow256(|digits|) && BigEndian(UintValue(digits), |digits|) == digits
  {
    UintValueBound(digits);
    BigEndianValue(UintValue(digits), |digits|);
    UintValueInjective(digits, BigEndian(UintValue(digits), |digits|));
  }

  lemma HeadFound(b: seq<byte>, tag: byte)
    requires Element(b, tag).Ok?
    ensures var s := Element(b, tag).value;
            var start := |b| - |s.rest| - |s.content|;
            && 2 <= start <= |b|
            && b == b[..start] + (s.content + s.rest)
            && HeadOf(b[..start], tag, |s.content|)
  {
    ElementConsumes(b, tag);
    var s := Element(b, tag).value;
    var n, start := |s.content|, |b| - |s.rest| - |s.content|;
    Reassembled(b, start, n);
    if start == 2 {
      ShortHead(b, tag);
      assert b[..2] == [tag, n];
    } else {
      LongHeadFound(b, tag, start, n);
    }
  }

  lemma Reassembled(b: seq<byte>, start: nat, n: nat)
    requires start + n <= |b|
    ensures b == b[..start] + (b[start..start + n] + b[start + n..])
  {}

  lemma ShortHead(b: seq<byte>, tag: byte)
    requires Element(b, tag).Ok? && |b| - |Element(b, tag).value.rest| - |Element(b, tag).value.content| == 2
    ensures b[1] < 128
  {}

  /**
   * The reader accepts exactly the elements of that tag: a head in one of the
   * allowed forms, the content it announces, and whatever follows.
   */
  lemma ElementIff(b: seq<byte>, tag: byte, s: Split)
    ensures Element(b, tag) == Ok(s) <==> exists head :: HeadOf(head, tag, |s.content|) && b == head + (s.content + s.rest)
  {
    if Element(b, tag) == Ok(s) {
      HeadFound(b, tag);
    }
    forall head | HeadOf(head, tag, |s.content|) && b == head + (s.content + s.rest)
      ensures Element(b, tag) == Ok(s)
    {
      HeadRead(head, tag, s.content, s.rest);
    }
  }

  ghost predicate IsElement(b: seq<byte>, tag: byte, content: seq<byte>) {
    exists head :: HeadOf(head, tag, |content|) && b == head + content
  }

  lemma ReadIsElement(b: seq<byte>, tag: byte, content: seq<byte>, rest: seq<byte>)
    requires IsElement(b, tag, content)
    ensures Element(b + rest, tag) == Ok(Split(content, rest))
    ensures |b| >= 2 && b[0] == tag && |content| <= |b|
  {
    var head :| HeadOf(head, tag, |content|) && b == head + content;
    HeadRead(head, tag, content, rest);
    ConcatAssociative(head, content, rest);
  }

  lemma ReadAlone(b: seq<byte>, tag: byte, content: seq<byte>)
    requires IsElement(b, tag, content)
    ensures Element(b, tag) == Ok(Split(content, []))
    ensures |b| >= 2 && b[0] == tag
  {
    ReadIsElement(b, tag, content, []);
    assert b + [] == b;
  }

  lemma TlvIsElement(tag: byte, content: seq<byte>)
    requires |content| <= 65535
    ensures IsElement(Tlv(tag, content), tag, content)
  {
    var b := Tlv(tag, content);
    assert b + [] == b && content + [] == content;
    ElementOfTlv(tag, content, []);
    HeadFound(b, tag);
  }

  // ----------------------------------------------------------------- values

  /** What a content stands for under its tag. */
  ghost predicate Says(tag: byte, content: seq<byte>, v: Value) {
    match v
    case Integer(i) => tag == 0x02 && SignedValue(content) == i
    case Unsigned(u) => tag in {0x41, 0x42, 0x43, 0x46} && UintValue(content) == u
    case Octets(bytes) => tag in {0x04, 0x40, 0x44} && content == bytes
    case ObjectId(o) => tag == 0x06 && Encodable(o) && content == OidContent(o)
    case NoSuch => tag in {0x80, 0x81}
    case EndOfMib => tag == 0x82
    case Null => tag !in {0x02, 0x41, 0x42, 0x43, 0x46, 0x04, 0x40, 0x44, 0x06, 0x80, 0x81, 0x82}
  }

  ghost predicate IsValue(b: seq<byte>, v: Value) {
    exists tag: byte, content: seq<byte> :: IsElement(b, tag, content) && Says(tag, content, v)
  }

  /**
   * Counters, gauges and ticks are read as unsigned integers, addresses and
   * opaque values as octets, both markers of absence as such, whatever the
   * length of the content; a type not known is read as nothing.
   */
  lemma ValueSaid(b: seq<byte>, v: Value)
    requires IsValue(b, v)
    ensures ReadValue(b) == Ok(v)
  {
    var tag: byte, content: seq<byte> :| IsElement(b, tag, content) && Says(tag, content, v);
    ReadAlone(b, tag, content);
    if v.ObjectId? {
      OidRoundTrip(v.oid);
    }
  }

  /** A gauge of 38, as a modem gives a level: not lost. */
  lemma GaugeRead()
    ensures ReadValue([0x42, 1, 38]) == Ok(Unsigned(38))
  {
    assert [0x42, 1] + [38] == [0x42, 1, 38];
    assert HeadOf([0x42, 1], 0x42, |[38]|);
    UintOne([38]);
    assert Says(0x42, [38], Unsigned(38));
    assert IsElement([0x42, 1, 38], 0x42, [38]);
    ValueSaid([0x42, 1, 38], Unsigned(38));
  }

  // --------------------------------------------------------------- variables

  ghost predicate IsBinding(c: seq<byte>, vb: VarBind) {
    && Encodable(vb.oid)
    && exists name, value :: IsElement(name, 0x06, OidContent(vb.oid)) && IsValue(value, vb.value) && c == name + value
  }

  lemma BindingSaid(c: seq<byte>, vb: VarBind)
    requires IsBinding(c, vb)
    ensures ReadVarBind(c) == Ok(vb)
  {
    var name, value :| IsElement(name, 0x06, OidContent(vb.oid)) && IsValue(value, vb.value) && c == name + value;
    ReadIsElement(name, 0x06, OidContent(vb.oid), value);
    OidRoundTrip(vb.oid);
    ValueSaid(value, vb.value);
  }

  ghost predicate IsItem(b: seq<byte>, vb: VarBind) {
    exists c :: IsElement(b, 0x30, c) && IsBinding(c, vb)
  }

  /** One item for each variable. */
  ghost predicate Items(items: seq<seq<byte>>, vbs: seq<VarBind>) {
    |items| == |vbs| && forall i :: 0 <= i < |items| ==> IsItem(items[i], vbs[i])
  }

  function Joined(items: seq<seq<byte>>): seq<byte> {
    if items == [] then [] else items[0] + Joined(items[1..])
  }

  lemma ItemSaid(head: seq<byte>, tail: seq<byte>, vb: VarBind, more: seq<VarBind>)
    requires IsItem(head, vb) && ReadList(tail) == Ok(more)
    ensures ReadList(head + tail) == Ok([vb] + more)
  {
    var c :| IsElement(head, 0x30, c) && IsBinding(c, vb);
    BindingSaid(c, vb);
    ReadIsElement(head, 0x30, c, tail);
    assert head + tail != [];
  }

  /** A list is read with every variable, in order. */
  lemma {:induction false} ItemsSaid(items: seq<seq<byte>>, vbs: seq<VarBind>)
    requires Items(items, vbs)
    ensures ReadList(Joined(items)) == Ok(vbs)
  {
    if items != [] {
      ItemsSaid(items[1..], vbs[1..]);
      ItemSaid(items[0], Joined(items[1..]), vbs[0], vbs[1..]);
      assert vbs == [vbs[0]] + vbs[1..];
    }
  }

  // ---------------------------------------------------------------- messages

  ghost predicate IsNumber(b: seq<byte>, i: int) {
    exists c :: IsElement(b, 0x02, c) && SignedValue(c) == i
  }

  ghost predicate IsSequence(b: seq<byte>, vbs: seq<VarBind>) {
    exists items :: Items(items, vbs) && IsElement(b, 0x30, Joined(items))
  }

  /** The elements of a message. */
  datatype Pieces = Pieces(
    version: seq<byte>, community: seq<byte>, pdu: seq<byte>,
    id: seq<byte>, second: seq<byte>, third: seq<byte>, list: seq<byte>)

  /** A message of version 2: second and third are the status and its index, or the counts of a request by pages. */
  ghost predicate IsMessage(
    b: seq<byte>, p: Pieces, kind: byte, community: seq<byte>, id: int, second: int, third: int, vbs: seq<VarBind>)
  {
    && IsElement(b, 0x30, p.version + (p.community + p.pdu))
    && IsNumber(p.version, 1)
    && IsElement(p.community, 0x04, community)
    && IsElement(p.pdu, kind, p.id + (p.second + (p.third + p.list)))
    && IsNumber(p.id, id) && IsNumber(p.second, second) && IsNumber(p.third, third)
    && IsSequence(p.list, vbs)
  }

  lemma NumberRead(b: seq<byte>, i: int64, rest: seq<byte>, n: nat, after: Fields)
    requires IsNumber(b, i) && ReadFields(rest, n) == Ok(after)
    ensures ReadFields(b + rest, n + 1) == Ok(Fields([i] + after.values, after.rest))
  {
    var c :| IsElement(b, 0x02, c) && SignedValue(c) == i;
    ReadIsElement(b, 0x02, c, rest);
  }

  lemma FieldsRead(p: Pieces, id: int64, status: int64, index: int64)
    requires IsNumber(p.id, id) && IsNumber(p.second, status) && IsNumber(p.third, index)
    ensures ReadFields(p.id + (p.second + (p.third + p.list)), 3) == Ok(Fields([id, status, index], p.list))
  {
    assert [index] + [] == [index] && [status] + [index] == [status, index];
    assert [id] + [status, index] == [id, status, index];
    NumberRead(p.third, index, p.list, 0, Fields([], p.list));
    NumberRead(p.second, status, p.third + p.list, 1, Fields([index], p.list));
    NumberRead(p.id, id, p.second + (p.third + p.list), 2, Fields([status, index], p.list));
  }

  lemma SequenceSaid(b: seq<byte>, vbs: seq<VarBind>)
    requires IsSequence(b, vbs)
    ensures Element(b, 0x30).Ok? && ReadList(Element(b, 0x30).value.content) == Ok(vbs)
  {
    var items :| Items(items, vbs) && IsElement(b, 0x30, Joined(items));
    ReadAlone(b, 0x30, Joined(items));
    ItemsSaid(items, vbs);
  }

  lemma BodySaid(p: Pieces, id: int64, status: int64, index: int64, vbs: seq<VarBind>)
    requires IsNumber(p.id, id) && IsNumber(p.second, status) && IsNumber(p.third, index) && IsSequence(p.list, vbs)
    requires -TWO_31 <= id < TWO_31
    ensures ReadBody(p.id + (p.second + (p.third + p.list))) ==
            if status == 0 then Ok(Reply(id, vbs)) else Err(AgentStatus(id, status))
  {
    FieldsRead(p, id, status, index);
    SequenceSaid(p.list, vbs);
  }

  /**
   * An answer of any device, its elements in any form of length: with a status
   * of zero it gives its identifier and all its variables, in order; with any
   * other it is never an answer, but that status.
   */
  lemma AnswerSaid(b: seq<byte>, p: Pieces, community: seq<byte>, id: int64, status: int64, index: int64, vbs: seq<VarBind>)
    requires IsMessage(b, p, 0xa2, community, id, status, index, vbs) && -TWO_31 <= id < TWO_31
    ensures ReadMessage(b) == if status == 0 then Ok(Reply(id, vbs)) else Err(AgentStatus(id, status))
  {
    var body := p.id + (p.second + (p.third + p.list));
    ReadAlone(b, 0x30, p.version + (p.community + p.pdu));
    var v :| IsElement(p.version, 0x02, v) && SignedValue(v) == 1;
    ReadIsElement(p.version, 0x02, v, p.community + p.pdu);
    ReadIsElement(p.community, 0x04, community, p.pdu);
    ReadAlone(p.pdu, 0xa2, body);
    BodySaid(p, id, status, index, vbs);
  }

  /** A message of another kind, or followed by anything, is refused. */
  lemma OthersRefused(b: seq<byte>, p: Pieces, kind: byte, community: seq<byte>, id: int, second: int, third: int,
                      vbs: seq<VarBind>, more: seq<byte>)
    requires IsMessage(b, p, kind, community, id, second, third, vbs)
    ensures kind != 0xa2 ==> ReadMessage(b) == Err(Unexpected)
    ensures more != [] ==> ReadMessage(b + more) == Err(Unreadable)
  {
    ReadIsElement(b, 0x30, p.version + (p.community + p.pdu), more);
    ReadAlone(b, 0x30, p.version + (p.community + p.pdu));
    var v :| IsElement(p.version, 0x02, v) && SignedValue(v) == 1;
    ReadIsElement(p.version, 0x02, v, p.community + p.pdu);
    ReadIsElement(p.community, 0x04, community, p.pdu);
    ReadAlone(p.pdu, kind, p.id + (p.second + (p.third + p.list)));
  }

  // -------------------------------------------- what the client itself writes

  lemma IntegerIsNumber(i: int64)
    ensures IsNumber(Tlv(TAG_INTEGER, IntContent(i)), i)
  {
    IntContentShortest(i);
    TlvIsElement(TAG_INTEGER, IntContent(i));
  }

  lemma ValueIsSaid(v: Value)
    requires |ContentOf(v)| <= 65535 && (v.ObjectId? ==> Encodable(v.oid))
    ensures IsValue(ValueBytes(v), v)
  {
    ValueIsElement(v);
    TlvIsElement(TagOf(v), ContentOf(v));
    match v
    case Integer(i) => IntContentShortest(i);
    case Unsigned(u) => UintContentShortest(u);
    case _ =>
    assert Says(TagOf(v), ContentOf(v), v);
  }

  lemma BindingIsSaid(vb: VarBind)
    requires Listed(vb)
    ensures IsBinding(VarBindContent(vb), vb)
  {
    ValueIsElement(vb.value);
    ValueIsSaid(vb.value);
    TlvIsElement(TAG_OID, OidContent(vb.oid));
  }

  lemma ItemIsSaid(vb: VarBind)
    requires Listed(vb)
    ensures IsItem(VarBindBytes(vb), vb)
  {
    BindingIsSaid(vb);
    TlvIsElement(TAG_SEQUENCE, VarBindContent(vb));
  }

  /** The items of a list, as they are written. */
  function Written(vbs: seq<VarBind>): (items: seq<seq<byte>>)
    ensures |items| == |vbs| && forall i :: 0 <= i < |vbs| ==> items[i] == VarBindBytes(vbs[i])
  {
    if vbs == [] then [] else [VarBindBytes(vbs[0])] + Written(vbs[1..])
  }

  lemma {:induction false} WrittenJoined(vbs: seq<VarBind>)
    ensures Joined(Written(vbs)) == ListBytes(vbs)
  {
    if vbs != [] {
      WrittenJoined(vbs[1..]);
    }
  }

  lemma ListIsSaid(vbs: seq<VarBind>) returns (items: seq<seq<byte>>)
    requires forall vb | vb in vbs :: Listed(vb)
    ensures Items(items, vbs) && Joined(items) == ListBytes(vbs)
  {
    items := Written(vbs);
    WrittenJoined(vbs);
    forall i | 0 <= i < |vbs|
      ensures IsItem(items[i], vbs[i])
    {
      ItemIsSaid(vbs[i]);
    }
  }

  /** The message written, as a message of the standard. */
  lemma MessageIsStandard(community: seq<byte>, kind: byte, id: int64, second: int64, third: int64, vbs: seq<VarBind>)
    returns (p: Pieces)
    requires forall vb | vb in vbs :: Listed(vb)
    requires |MessageContent(community, kind, Body(IntContent(id), IntContent(second), IntContent(third), ListBytes(vbs)))| <= 65535
    ensures IsMessage(
              Tlv(TAG_SEQUENCE,
                  MessageContent(community, kind, Body(IntContent(id), IntContent(second), IntContent(third), ListBytes(vbs)))),
              p, kind, community, id, second, third, vbs)
  {
    var body := Body(IntContent(id), IntContent(second), IntContent(third), ListBytes(vbs));
    p := Pieces(Tlv(TAG_INTEGER, IntContent(VERSION_2C)), Tlv(TAG_OCTETS, community), Tlv(kind, body),
                Tlv(TAG_INTEGER, IntContent(id)), Tlv(TAG_INTEGER, IntContent(second)), Tlv(TAG_INTEGER, IntContent(third)),
                Tlv(TAG_SEQUENCE, ListBytes(vbs)));
    MessageParts(community, kind, body);
    TlvIsElement(TAG_SEQUENCE, MessageContent(community, kind, body));
    IntegerIsNumber(VERSION_2C);
    TlvIsElement(TAG_OCTETS, community);
    TlvIsElement(kind, body);
    IntegerIsNumber(id);
    IntegerIsNumber(second);
    IntegerIsNumber(third);
    TlvIsElement(TAG_SEQUENCE, ListBytes(vbs));
    var items := ListIsSaid(vbs);
    assert IsSequence(p.list, vbs);
  }

  lemma {:induction false} AskedAreListed(oids: seq<Name>)
    requires (forall o | o in oids :: Encodable(o)) && |ListBytes(Asked(oids))| <= 65535
    ensures forall vb | vb in Asked(oids) :: Listed(vb)
  {
    ListParts(Asked(oids));
    forall i | 0 <= i < |oids|
      ensures Listed(Asked(oids)[i])
    {
      assert oids[i] in oids && Asked(oids)[i] in Asked(oids);
    }
  }

  lemma RequestListFits(community: seq<byte>, pdu: byte, id: int64, nonRep: int64, maxRep: int64, oids: seq<Name>)
    requires |RequestContent(community, pdu, id, nonRep, maxRep, oids)| <= 65535
    ensures |ListBytes(Asked(oids))| <= 65535
  {
    MessageParts(community, pdu, Body(IntContent(id), IntContent(nonRep), IntContent(maxRep), ListBytes(Asked(oids))));
  }

  /** A request is one of the standard: by pages for a walk, the values of its variables being null. */
  lemma RequestIsStandard(walk: bool, community: seq<byte>, id: int64, nonRep: int64, maxRep: int64, oids: seq<Name>)
    returns (p: Pieces)
    requires forall o | o in oids :: Encodable(o)
    requires |RequestContent(community, if walk then PDU_GET_BULK else PDU_GET, id, nonRep, maxRep, oids)| <= 65535
    ensures IsMessage(
              Tlv(TAG_SEQUENCE, RequestContent(community, if walk then PDU_GET_BULK else PDU_GET, id, nonRep, maxRep, oids)),
              p, if walk then 0xa5 else 0xa0, community, id, nonRep, maxRep, Asked(oids))
  {
    var pdu := if walk then PDU_GET_BULK else PDU_GET;
    RequestListFits(community, pdu, id, nonRep, maxRep, oids);
    AskedAreListed(oids);
    p := MessageIsStandard(community, pdu, id, nonRep, maxRep, Asked(oids));
  }
}
