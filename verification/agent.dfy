/** The read-only agent: how it reads a request and what it answers (internal/snmp/agent.go). */
module Agents {
  import opened Wrappers
  import opened Ber
  import opened Oids
  import opened Snmp

  /** The objects, sorted by identifier: the map of the source and its sorted list of keys. */
  datatype Agent = Agent(community: seq<byte>, objects: seq<VarBind>)

  predicate Sorted(vbs: seq<VarBind>) {
    forall i, j :: 0 <= i < j < |vbs| ==> Less(vbs[i].oid, vbs[j].oid)
  }

  // --------------------------------------------------------------- answers

  function Lookup(objects: seq<VarBind>, o: Name): Value {
    if objects == [] then NoSuch
    else if objects[0].oid == o then Canon(objects[0].value)
    else Lookup(objects[1..], o)
  }

  /** At most left objects after o, in order; all of them when left is negative. */
  function NextObjects(objects: seq<VarBind>, o: Oid, left: int): (vbs: seq<VarBind>)
    ensures left >= 0 ==> |vbs| <= left
  {
    if objects == [] || left == 0 then []
    else if Less(o, objects[0].oid) then
      [VarBind(objects[0].oid, Canon(objects[0].value))] + NextObjects(objects[1..], o, left - 1)
    else NextObjects(objects[1..], o, left)
  }

  function Bulk(objects: seq<VarBind>, rep: int, o: Name): seq<VarBind> {
    var found := NextObjects(objects, o, rep);
    if rep > |found| then found + [VarBind(o, EndOfMib)] else found
  }

  /** The answer to one identifier: its object for a GET, those that follow it otherwise. */
  function Answer(a: Agent, pdu: byte, rep: int, o: Name): seq<VarBind> {
    if pdu == PDU_GET then [VarBind(o, Lookup(a.objects, o))] else Bulk(a.objects, rep, o)
  }

  function Answers(a: Agent, pdu: byte, rep: int, oids: seq<Name>): seq<VarBind> {
    if oids == [] then [] else Answer(a, pdu, rep, oids[0]) + Answers(a, pdu, rep, oids[1..])
  }

  // --------------------------------------------------------------- serving

  /** The agent ignores most faults of a request: a missing element reads as nothing. */
  function Lenient(b: seq<byte>, tag: byte): (s: Split)
    ensures b != [] ==> |s.rest| < |b|
  {
    match Element(b, tag)
    case Ok(s) => s
    case Err(_) => Split([], [])
  }

  function ReadRequests(list: seq<byte>): seq<Name>
    decreases |list|
  {
    if list == [] then []
    else
      var s := Lenient(list, TAG_SEQUENCE);
      match ReadOid(Lenient(s.content, TAG_OID).content)
      case Err(_) => []
      case Ok(o) => [o] + ReadRequests(s.rest)
  }

  datatype Request = Request(pdu: byte, rawId: seq<byte>, rep: int, oids: seq<Name>)

  function ReadRequest(pdu: byte, body: seq<byte>): Request {
    var id := Lenient(body, TAG_INTEGER);
    var rep := Lenient(Lenient(id.rest, TAG_INTEGER).rest, TAG_INTEGER);
    Request(pdu, id.content, Wrap64(SignedValue(rep.content)), ReadRequests(Lenient(rep.rest, TAG_SEQUENCE).content))
  }

  /** What the agent understands of a packet; None when it stays silent. */
  function Understand(a: Agent, packet: seq<byte>): Option<Request> {
    match Element(packet, TAG_SEQUENCE)
    case Err(_) => None
    case Ok(whole) =>
      match Element(Lenient(whole.content, TAG_INTEGER).rest, TAG_OCTETS)
      case Err(_) => None
      case Ok(Split(community, msg)) =>
        if community != a.community || msg == [] then None
        else Some(ReadRequest(msg[0], Lenient(msg, msg[0]).content))
  }

  function Response(a: Agent, q: Request): seq<byte> {
    Tlv(TAG_SEQUENCE, ResponseContent(a.community, q.rawId, Answers(a, q.pdu, q.rep, q.oids)))
  }

  method ReadLenient(b: seq<byte>, tag: byte) returns (s: Split)
    ensures s == Lenient(b, tag)
  {
    var e := ReadElement(b, tag);
    return match e case Ok(x) => x case Err(_) => Split([], []);
  }

  /** One turn of the agent's loop: the packet it sends back, if any. */
  method Serve(a: Agent, packet: seq<byte>) returns (r: Option<seq<byte>>)
    ensures match Understand(a, packet)
            case None => r == None
            case Some(q) => r == Some(Response(a, q))
  {
    var whole := ReadElement(packet, TAG_SEQUENCE);
    if whole.Err? {
      return None;
    }
    var version := ReadLenient(whole.value.content, TAG_INTEGER);
    var comm := ReadElement(version.rest, TAG_OCTETS);
    if comm.Err? || comm.value.content != a.community || comm.value.rest == [] {
      return None;
    }
    var tag := comm.value.rest[0];
    var pdu := ReadLenient(comm.value.rest, tag);
    var q := ParseRequest(tag, pdu.content);
    var out := AnswerAll(a, q.pdu, q.rep, q.oids);
    var zero := EncodeInt(STATUS_OK);
    var body := Tlv(TAG_INTEGER, q.rawId) + (zero + (zero + Tlv(TAG_SEQUENCE, out)));
    var v := EncodeInt(VERSION_2C);
    var resp := v + (Tlv(TAG_OCTETS, comm.value.content) + Tlv(PDU_RESPONSE, body));
    return Some(Tlv(TAG_SEQUENCE, resp));
  }

  method ParseRequest(pdu: byte, body: seq<byte>) returns (q: Request)
    ensures q == ReadRequest(pdu, body)
  {
    var id := ReadLenient(body, TAG_INTEGER);
    var nonRep := ReadLenient(id.rest, TAG_INTEGER);
    var rawRep := ReadLenient(nonRep.rest, TAG_INTEGER);
    var list := ReadLenient(rawRep.rest, TAG_SEQUENCE);
    var reqs := CollectRequests(list.content);
    var rep := DecodeInt(rawRep.content);
    return Request(pdu, id.content, rep, reqs);
  }

  method CollectRequests(content: seq<byte>) returns (reqs: seq<Name>)
    ensures reqs == ReadRequests(content)
  {
    var list := content;
    reqs := [];
    while |list| > 0
      invariant reqs + ReadRequests(list) == ReadRequests(content)
      decreases |list|
    {
      var vb := ReadLenient(list, TAG_SEQUENCE);
      var raw := ReadLenient(vb.content, TAG_OID);
      var o := DecodeOid(raw.content);
      if o.Err? {
        break;
      }
      ConcatAssociative(reqs, [o.value], ReadRequests(vb.rest));
      reqs, list := reqs + [o.value], vb.rest;
    }
  }

  lemma AnswersAt(a: Agent, pdu: byte, rep: int, oids: seq<Name>, i: nat)
    requires i < |oids|
    ensures ListBytes(Answers(a, pdu, rep, oids[i..])) ==
            ListBytes(Answer(a, pdu, rep, oids[i])) + ListBytes(Answers(a, pdu, rep, oids[i + 1..]))
  {
    assert oids[i..][1..] == oids[i + 1..];
    FlattenConcat(VarBindBytes, Answer(a, pdu, rep, oids[i]), Answers(a, pdu, rep, oids[i + 1..]));
  }

  method AnswerAll(a: Agent, tag: byte, rep: int, reqs: seq<Name>) returns (out: seq<byte>)
    ensures out == ListBytes(Answers(a, tag, rep, reqs))
  {
    out := [];
    assert reqs[0..] == reqs;
    for i := 0 to |reqs|
      invariant out + ListBytes(Answers(a, tag, rep, reqs[i..])) == ListBytes(Answers(a, tag, rep, reqs))
    {
      AnswersAt(a, tag, rep, reqs, i);
      ConcatAssociative(out, ListBytes(Answer(a, tag, rep, reqs[i])), ListBytes(Answers(a, tag, rep, reqs[i + 1..])));
      var mine := AnswerOne(a, tag, rep, reqs[i]);
      out := out + mine;
    }
    assert reqs[|reqs|..] == [] && ListBytes(Answers(a, tag, rep, [])) == [];
  }

  method AnswerOne(a: Agent, tag: byte, rep: int, o: Name) returns (out: seq<byte>)
    ensures out == ListBytes(Answer(a, tag, rep, o))
  {
    if tag == PDU_GET {
      for i := 0 to |a.objects|
        invariant Lookup(a.objects[i..], o) == Lookup(a.objects, o)
      {
        assert a.objects[i..][1..] == a.objects[i + 1..];
        if a.objects[i].oid == o {
          var value := EncodeValue(a.objects[i].value);
          out := EncodeVarBind(o, value, Lookup(a.objects, o));
          ListOfOne(VarBind(o, Lookup(a.objects, o)));
          return;
        }
      }
      out := EncodeVarBind(o, [TAG_NO_SUCH_OBJECT, 0], NoSuch);
      ListOfOne(VarBind(o, NoSuch));
    } else {
      out := AnswerBulk(a.objects, rep, o);
    }
  }

  lemma ListOfOne(vb: VarBind)
    ensures ListBytes([vb]) == VarBindBytes(vb)
  {
    Nothing([vb]);
    FlattenCons(VarBindBytes, vb, []);
    Nothing(VarBindBytes(vb));
  }

  method EncodeVarBind(o: Name, value: seq<byte>, ghost v: Value) returns (r: seq<byte>)
    requires value == ValueBytes(v)
    ensures r == VarBindBytes(VarBind(o, v))
  {
    var name := EncodeOid(o);
    r := Tlv(TAG_SEQUENCE, Tlv(TAG_OID, name) + value);
  }

  /** The object at i of a page that takes left more from there. */
  predicate Taken(objects: seq<VarBind>, i: nat, o: Oid)
    requires i < |objects|
  {
    Less(o, objects[i].oid)
  }

  function ItemBytes(vb: VarBind): seq<byte> {
    VarBindBytes(VarBind(vb.oid, Canon(vb.value)))
  }

  /** The bytes of the page still to be written from the i-th object on. */
  function BytesFrom(objects: seq<VarBind>, i: nat, o: Oid, left: int): seq<byte>
    requires i <= |objects|
    decreases |objects| - i
  {
    if i == |objects| || left == 0 then []
    else if Taken(objects, i, o) then ItemBytes(objects[i]) + BytesFrom(objects, i + 1, o, left - 1)
    else BytesFrom(objects, i + 1, o, left)
  }

  /** How many objects that makes. */
  function CountFrom(objects: seq<VarBind>, i: nat, o: Oid, left: int): nat
    requires i <= |objects|
    decreases |objects| - i
  {
    if i == |objects| || left == 0 then 0
    else if Taken(objects, i, o) then 1 + CountFrom(objects, i + 1, o, left - 1)
    else CountFrom(objects, i + 1, o, left)
  }

  lemma {:induction false} CountIs(objects: seq<VarBind>, i: nat, o: Oid, left: int)
    requires i <= |objects|
    ensures |NextObjects(objects[i..], o, left)| == CountFrom(objects, i, o, left)
    decreases |objects| - i
  {
    if i < |objects| && left != 0 {
      assert objects[i..][1..] == objects[i + 1..];
      CountIs(objects, i + 1, o, if Taken(objects, i, o) then left - 1 else left);
    }
  }

  lemma NextAt(objects: seq<VarBind>, i: nat, o: Oid, left: int)
    requires i < |objects| && left != 0
    ensures NextObjects(objects[i..], o, left) ==
            if Taken(objects, i, o) then [VarBind(objects[i].oid, Canon(objects[i].value))] + NextObjects(objects[i + 1..], o, left - 1)
            else NextObjects(objects[i + 1..], o, left)
  {
    assert objects[i..][1..] == objects[i + 1..];
  }

  lemma {:induction false} BytesAre(objects: seq<VarBind>, i: nat, o: Oid, left: int)
    requires i <= |objects|
    ensures ListBytes(NextObjects(objects[i..], o, left)) == BytesFrom(objects, i, o, left)
    decreases |objects| - i
  {
    if i < |objects| && left != 0 {
      NextAt(objects, i, o, left);
      BytesAre(objects, i + 1, o, if Taken(objects, i, o) then left - 1 else left);
      FlattenCons(VarBindBytes, VarBind(objects[i].oid, Canon(objects[i].value)),
                  NextObjects(objects[i + 1..], o, if Taken(objects, i, o) then left - 1 else left));
    }
  }

  lemma WholePage(objects: seq<VarBind>, o: Oid, left: int)
    ensures BytesFrom(objects, 0, o, left) == ListBytes(NextObjects(objects, o, left))
    ensures CountFrom(objects, 0, o, left) == |NextObjects(objects, o, left)|
  {
    CountIs(objects, 0, o, left);
    BytesAre(objects, 0, o, left);
    assert objects[0..] == objects;
  }

  method AnswerBulk(objects: seq<VarBind>, rep: int, o: Name) returns (out: seq<byte>)
    ensures out == ListBytes(Bulk(objects, rep, o))
  {
    var left;
    out, left := AnswerNext(objects, rep, o);
    WholePage(objects, o, rep);
    if left > 0 {
      var one := EncodeVarBind(o, [TAG_END_OF_MIB, 0], EndOfMib);
      ListOfOne(VarBind(o, EndOfMib));
      FlattenConcat(VarBindBytes, NextObjects(objects, o, rep), [VarBind(o, EndOfMib)]);
      out := out + one;
    }
  }

  /** The objects after o, and how many more were asked for. */
  method AnswerNext(objects: seq<VarBind>, rep: int, o: Name) returns (out: seq<byte>, left: int)
    ensures out == BytesFrom(objects, 0, o, rep) && left == rep - CountFrom(objects, 0, o, rep)
  {
    out, left := [], rep;
    var i := 0;
    while i < |objects| && left != 0
      invariant 0 <= i <= |objects|
      invariant out + BytesFrom(objects, i, o, left) == BytesFrom(objects, 0, o, rep)
      invariant rep - left + CountFrom(objects, i, o, left) == CountFrom(objects, 0, o, rep)
    {
      var c := Compare(objects[i].oid, o);
      if c > 0 {
        var one := AnswerObject(objects[i]);
        ConcatAssociative(out, one, BytesFrom(objects, i + 1, o, left - 1));
        out, left := out + one, left - 1;
      }
      i := i + 1;
    }
  }

  method AnswerObject(vb: VarBind) returns (one: seq<byte>)
    ensures one == ItemBytes(vb)
  {
    var value := EncodeValue(vb.value);
    one := EncodeVarBind(vb.oid, value, Canon(vb.value));
  }

  // ------------------------------------------------------- client and agent

  lemma RequestReadBack(o: Name, rest: seq<byte>)
    requires Encodable(o) && |VarBindContent(VarBind(o, Null))| <= 65535
    ensures ReadRequests(VarBindBytes(VarBind(o, Null)) + rest) == [o] + ReadRequests(rest)
  {
    ElementOfTlv(TAG_SEQUENCE, VarBindContent(VarBind(o, Null)), rest);
    ElementOfTlv(TAG_OID, OidContent(o), [TAG_NULL, 0]);
    OidRoundTrip(o);
  }

  lemma {:induction false} RequestsReadBack(oids: seq<Name>)
    requires forall o | o in oids :: Encodable(o)
    requires |ListBytes(Asked(oids))| <= 65535
    ensures ReadRequests(ListBytes(Asked(oids))) == oids
  {
    if oids != [] {
      var o := oids[0];
      assert Asked(oids) == [VarBind(o, Null)] + Asked(oids[1..]);
      FlattenCons(VarBindBytes, VarBind(o, Null), Asked(oids[1..]));
      RequestReadBack(o, ListBytes(Asked(oids[1..])));
      RequestsReadBack(oids[1..]);
      assert oids == [o] + oids[1..];
    }
  }

  /** A value of the agent, as a GET gives it: none of the exception markers. */
  lemma {:induction false} LookupFinds(objects: seq<VarBind>, o: Name)
    requires Sorted(objects)
    ensures (forall x | x in objects :: x.oid != o) ==> Lookup(objects, o) == NoSuch
    ensures forall x | x in objects && x.oid == o ::
              Lookup(objects, o) == if x.value.NoSuch? || x.value.EndOfMib? then Null else x.value
  {
    if objects != [] {
      assert objects == [objects[0]] + objects[1..];
      LookupFinds(objects[1..], o);
      forall x | x in objects[1..]
        ensures x.oid != objects[0].oid
      {
        var i :| 0 < i < |objects| && objects[i] == x;
        LessTotal(objects[0].oid, objects[i].oid);
      }
    }
  }

  /** A GET is answered in the order asked, each identifier with the value of its object, or as missing. */
  lemma {:induction false} GetAnswers(a: Agent, rep: int, oids: seq<Name>)
    requires Sorted(a.objects)
    ensures var got := Answers(a, 0xa0, rep, oids);
            && |got| == |oids|
            && (forall i :: 0 <= i < |oids| ==> got[i].oid == oids[i])
            && (forall i :: 0 <= i < |oids| && (forall x | x in a.objects :: x.oid != oids[i]) ==> got[i].value == NoSuch)
            && forall i, x :: 0 <= i < |oids| && x in a.objects && x.oid == oids[i] ==>
                 got[i].value == if x.value.NoSuch? || x.value.EndOfMib? then Null else x.value
  {
    if oids != [] {
      GetAnswers(a, rep, oids[1..]);
      LookupFinds(a.objects, oids[0]);
      GetFirst(a, rep, oids);
    }
  }

  lemma GetFirst(a: Agent, rep: int, oids: seq<Name>)
    requires oids != []
    ensures var got, more := Answers(a, 0xa0, rep, oids), Answers(a, 0xa0, rep, oids[1..]);
            |got| == 1 + |more| && got[0] == VarBind(oids[0], Lookup(a.objects, oids[0])) && got[1..] == more
  {}

  /** The agent stays silent in another community, and only then, for any request that fits. */
  lemma SilentForOthers(a: Agent, community: seq<byte>, pdu: byte, body: seq<byte>)
    requires |MessageContent(community, pdu, body)| <= 65535
    ensures Understand(a, Tlv(TAG_SEQUENCE, MessageContent(community, pdu, body))) == None <==> community != a.community
  {
    MessageParts(community, pdu, body);
  }

  lemma LenientOfTlv(tag: byte, content: seq<byte>, rest: seq<byte>)
    requires |content| <= 65535
    ensures Lenient(Tlv(tag, content) + rest, tag) == Split(content, rest)
  {
    ElementOfTlv(tag, content, rest);
  }

  lemma RequestBodyUnderstood(pdu: byte, id: seq<byte>, nonRep: seq<byte>, rep: seq<byte>, list: seq<byte>)
    requires |Body(id, nonRep, rep, list)| <= 65535
    ensures ReadRequest(pdu, Body(id, nonRep, rep, list))
            == Request(pdu, id, Wrap64(SignedValue(rep)), ReadRequests(list))
  {
    var b3 := Tlv(TAG_SEQUENCE, list);
    var b2 := Tlv(TAG_INTEGER, rep) + b3;
    LenientOfTlv(TAG_INTEGER, id, Tlv(TAG_INTEGER, nonRep) + b2);
    LenientOfTlv(TAG_INTEGER, nonRep, b2);
    LenientOfTlv(TAG_INTEGER, rep, b3);
    assert b3 + [] == b3;
    LenientOfTlv(TAG_SEQUENCE, list, []);
  }

  /** The agent understands a request of its community as the client meant it. */
  lemma RequestUnderstood(a: Agent, pdu: byte, id: seq<byte>, nonRep: seq<byte>, rep: seq<byte>, list: seq<byte>)
    requires |MessageContent(a.community, pdu, Body(id, nonRep, rep, list))| <= 65535
    ensures Understand(a, Tlv(TAG_SEQUENCE, MessageContent(a.community, pdu, Body(id, nonRep, rep, list))))
            == Some(Request(pdu, id, Wrap64(SignedValue(rep)), ReadRequests(list)))
  {
    var body := Body(id, nonRep, rep, list);
    MessageParts(a.community, pdu, body);
    RequestBodyUnderstood(pdu, id, nonRep, rep, list);
  }

  lemma RequestReachesAgent(a: Agent, pdu: byte, id: int64, nonRep: int64, rep: int64, oids: seq<Name>)
    requires forall o | o in oids :: Encodable(o)
    requires |RequestContent(a.community, pdu, id, nonRep, rep, oids)| <= 65535
    ensures Understand(a, Tlv(TAG_SEQUENCE, RequestContent(a.community, pdu, id, nonRep, rep, oids)))
            == Some(Request(pdu, IntContent(id), rep, oids))
  {
    var rawId, rawNonRep, rawRep := IntContent(id), IntContent(nonRep), IntContent(rep);
    assert SignedValue(rawRep) == rep by { IntContentShortest(rep); }
    var list := ListBytes(Asked(oids));
    var body := Body(rawId, rawNonRep, rawRep, list);
    RequestUnderstood(a, pdu, rawId, rawNonRep, rawRep, list);
    MessageParts(a.community, pdu, body);
    assert |list| <= |Body(rawId, rawNonRep, rawRep, list)|;
    RequestsReadBack(oids);
  }

  lemma ResponseReachesClient(a: Agent, pdu: byte, id: int64, rep: int64, oids: seq<Name>)
    requires 0 <= id < TWO_31
    ensures ReadMessage(Response(a, Request(pdu, IntContent(id), rep, oids))) == Ok(Reply(id, Answers(a, pdu, rep, oids)))
       <==> && |ResponseContent(a.community, IntContent(id), Answers(a, pdu, rep, oids))| <= 65535
            && forall vb | vb in Answers(a, pdu, rep, oids) :: Faithful(vb)
  {
    var rawId := IntContent(id);
    assert SignedValue(rawId) == id by { IntContentShortest(id); }
    ResponseRoundTrip(a.community, rawId, Answers(a, pdu, rep, oids));
  }

  /**
   * Client and agent agree: a request that holds on 65535 bytes is understood
   * as it was meant, and the client reads back its own identifier and exactly
   * the agent's answers if and only if these hold on 65535 bytes and every
   * identifier in them comes back from its encoding.
   */
  lemma ExchangeRoundTrip(a: Agent, pdu: byte, id: int64, nonRep: int64, rep: int64, oids: seq<Name>)
    requires 0 <= id < TWO_31
    requires forall o | o in oids :: Encodable(o)
    requires |RequestContent(a.community, pdu, id, nonRep, rep, oids)| <= 65535
    ensures Understand(a, Tlv(TAG_SEQUENCE, RequestContent(a.community, pdu, id, nonRep, rep, oids)))
            == Some(Request(pdu, IntContent(id), rep, oids))
    ensures ReadMessage(Response(a, Request(pdu, IntContent(id), rep, oids))) == Ok(Reply(id, Answers(a, pdu, rep, oids)))
       <==> && |ResponseContent(a.community, IntContent(id), Answers(a, pdu, rep, oids))| <= 65535
            && forall vb | vb in Answers(a, pdu, rep, oids) :: Faithful(vb)
  {
    RequestReachesAgent(a, pdu, id, nonRep, rep, oids);
    ResponseReachesClient(a, pdu, id, rep, oids);
  }
}
