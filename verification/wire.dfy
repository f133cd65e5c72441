/** The walk of the agent through the packets of each exchange. */
module Wires {
  import opened Wrappers
  import opened Ber
  import opened Oids
  import opened Snmp
  import opened Agents
  import opened Walks

  /** The request cannot be sent, gets no answer, or one that cannot be read. */
  datatype WireError = Unsent | Silent | Refused(e: DecodeError)

  /**
   * The way between client and agent: a packet of at most limit bytes arrives
   * as it is, any other cannot be sent. Client and agent read on 65535 bytes.
   */
  datatype Wire = Wire(agent: Agent, limit: nat, ids: nat -> int64)

  ghost predicate Valid(w: Wire) {
    w.limit <= 65535 && forall n: nat :: 0 <= w.ids(n) < TWO_31
  }

  function Carried(limit: nat, packet: seq<byte>): Option<seq<byte>> {
    if |packet| <= limit then Some(packet) else None
  }

  function RequestPacket(w: Wire, n: nat, o: Name, rep: int): seq<byte> {
    Tlv(TAG_SEQUENCE, RequestContent(w.agent.community, PDU_GET_BULK, w.ids(n), 0, Wrap64(rep), [o]))
  }

  /** The answer that holds the agent's page. */
  function PagePacket(w: Wire, n: nat, o: Name, rep: int): seq<byte> {
    Tlv(TAG_SEQUENCE, ResponseContent(w.agent.community, IntContent(w.ids(n)), Bulk(w.agent.objects, rep, o)))
  }

  /** The packet the agent answers with, if any. */
  function AnswerTo(w: Wire, packet: seq<byte>): Option<seq<byte>> {
    match Understand(w.agent, packet)
    case None => None
    case Some(q) => Carried(w.limit, Response(w.agent, q))
  }

  /** What the client makes of it: an answer with another identifier is not its own. */
  function Received(id: int64, packet: Option<seq<byte>>): Result<seq<VarBind>, WireError> {
    if packet.None? then Err(Silent)
    else match ReadMessage(packet.value)
      case Err(e) => Err(Refused(e))
      case Ok(reply) => if reply.id != id then Err(Silent) else Ok(reply.vbs)
  }

  function OverPackets(w: Wire): Exchange<WireError> {
    (n: nat, o: Name, rep: int) =>
      match Carried(w.limit, RequestPacket(w, n, o, rep))
      case None => Err(Unsent)
      case Some(packet) => Received(w.ids(n), AnswerTo(w, packet))
  }

  /** Request and answer both hold in a packet. */
  predicate Fits(w: Wire, n: nat, o: Name, rep: int) {
    |RequestPacket(w, n, o, rep)| <= w.limit && |PagePacket(w, n, o, rep)| <= w.limit
  }

  /** Why an exchange that does not fit fails. */
  function Trouble(w: Wire, n: nat, o: Name, rep: int): WireError {
    if |RequestPacket(w, n, o, rep)| <= w.limit then Silent else Unsent
  }

  lemma OneAnswer(a: Agent, rep: int, o: Name)
    ensures Answers(a, PDU_GET_BULK, rep, [o]) == Bulk(a.objects, rep, o)
  {
    var page := Bulk(a.objects, rep, o);
    assert [o][1..] == [];
    assert Answers(a, PDU_GET_BULK, rep, []) == [];
    Nothing(page);
  }

  lemma {:induction false} NextFaithful(objects: seq<VarBind>, o: Oid, left: int)
    requires forall vb | vb in objects :: Faithful(vb)
    ensures forall vb | vb in NextObjects(objects, o, left) :: Faithful(vb)
  {
    if objects != [] && left != 0 {
      assert Faithful(objects[0]);
      NextFaithful(objects[1..], o, left - 1);
      NextFaithful(objects[1..], o, left);
    }
  }

  lemma BulkFaithful(objects: seq<VarBind>, rep: int, o: Name)
    requires Encodable(o) && forall vb | vb in objects :: Faithful(vb)
    ensures forall vb | vb in Bulk(objects, rep, o) :: Faithful(vb)
  {
    NextFaithful(objects, o, rep);
  }

  lemma AnswerReceived(w: Wire, n: nat, o: Name, rep: int64)
    requires Valid(w) && Encodable(o)
    requires forall vb | vb in w.agent.objects :: Faithful(vb)
    requires |RequestPacket(w, n, o, rep)| <= w.limit
    ensures AnswerTo(w, RequestPacket(w, n, o, rep)) == Carried(w.limit, PagePacket(w, n, o, rep))
  {
    RequestReachesAgent(w.agent, PDU_GET_BULK, w.ids(n), 0, rep, [o]);
    OneAnswer(w.agent, rep, o);
  }

  lemma AnswerRead(w: Wire, n: nat, o: Name, rep: int64)
    requires Valid(w) && Encodable(o)
    requires forall vb | vb in w.agent.objects :: Faithful(vb)
    requires Fits(w, n, o, rep)
    ensures Received(w.ids(n), Some(PagePacket(w, n, o, rep))) == Ok(Bulk(w.agent.objects, rep, o))
  {
    OneAnswer(w.agent, rep, o);
    BulkFaithful(w.agent.objects, rep, o);
    ResponseReachesClient(w.agent, PDU_GET_BULK, w.ids(n), rep, [o]);
  }

  /** One exchange through packets gives exactly the agent's page if both fit, and an error otherwise. */
  lemma WalkExchange(w: Wire, n: nat, o: Name, rep: int64)
    requires Valid(w) && Encodable(o)
    requires forall vb | vb in w.agent.objects :: Faithful(vb)
    ensures OverPackets(w)(n, o, rep) == if Fits(w, n, o, rep) then Ok(Bulk(w.agent.objects, rep, o)) else Err(Trouble(w, n, o, rep))
  {
    var packet := RequestPacket(w, n, o, rep);
    if |packet| <= w.limit {
      AnswerReceived(w, n, o, rep);
      if Fits(w, n, o, rep) {
        AnswerRead(w, n, o, rep);
      }
      assert OverPackets(w)(n, o, rep) == Received(w.ids(n), AnswerTo(w, packet));
    }
  }

  lemma {:induction false} BranchEncodable(objects: seq<VarBind>, root: Name)
    requires forall vb | vb in objects :: Faithful(vb)
    ensures forall vb | vb in Branch(objects, root) :: Encodable(vb.oid)
  {
    if objects != [] {
      assert Faithful(objects[0]);
      BranchEncodable(objects[1..], root);
    }
  }

  /** Page n of the walk is asked for: those before it were full. */
  predicate PageAsked(w: Wire, root: Name, rep: nat, n: nat) {
    Due(Branch(w.agent.objects, root), rep, n, PAGES)
  }

  /** The identifier page n is asked after. */
  function StandsAt(w: Wire, root: Name, rep: nat, n: nat): Name
    requires PageAsked(w, root, rep, n)
  {
    NextOf(root, Branch(w.agent.objects, root)[..Held(n, rep)])
  }

  predicate PageFits(w: Wire, root: Name, rep: nat, n: nat)
    requires PageAsked(w, root, rep, n)
  {
    Fits(w, n, StandsAt(w, root, rep, n), rep)
  }

  ghost predicate EveryPageFits(w: Wire, root: Name, rep: nat) {
    forall n: nat | PageAsked(w, root, rep, n) :: PageFits(w, root, rep, n)
  }

  /** Page n is the first that does not fit. */
  ghost predicate FirstUnfit(w: Wire, root: Name, rep: nat, n: nat) {
    && PageAsked(w, root, rep, n) && !PageFits(w, root, rep, n)
    && forall m: nat | m < n && PageAsked(w, root, rep, m) :: PageFits(w, root, rep, m)
  }

  ghost predicate Readable(w: Wire, root: Name) {
    Valid(w) && Sorted(w.agent.objects) && Encodable(root) && forall vb | vb in w.agent.objects :: Faithful(vb)
  }

  lemma PageExchanged(w: Wire, root: Name, rep: int64, n: nat)
    requires Readable(w, root) && rep >= 1 && PageAsked(w, root, rep, n)
    ensures PageFits(w, root, rep, n) ==> Gives(OverPackets(w), w.agent.objects, root, rep, n)
    ensures !PageFits(w, root, rep, n) ==>
              OverPackets(w)(n, StandsAt(w, root, rep, n), rep) == Err(Trouble(w, n, StandsAt(w, root, rep, n), rep))
  {
    BranchEncodable(w.agent.objects, root);
    WalkExchange(w, n, StandsAt(w, root, rep, n), rep);
  }

  /** What the walk returns when page n is the first that does not fit. */
  function CutAt(w: Wire, root: Name, rep: nat, n: nat): Outcome<WireError>
    requires PageAsked(w, root, rep, n)
  {
    Outcome(Branch(w.agent.objects, root)[..Held(n, rep)], Some(Failed(Trouble(w, n, StandsAt(w, root, rep, n), rep))))
  }

  lemma UnfitFails(w: Wire, root: Name, rep: int64, n: nat)
    requires Readable(w, root) && rep >= 1 && FirstUnfit(w, root, rep, n)
    ensures WalkFrom(OverPackets(w), root, rep, root, [], 0, PAGES) == CutAt(w, root, rep, n)
  {
    var all := Branch(w.agent.objects, root);
    forall m: nat | m < n && Due(all, rep, m, PAGES)
      ensures GoesOn(OverPackets(w), root, rep, all, m, PAGES)
    {
      assert PageAsked(w, root, rep, m);
      PageExchanged(w, root, rep, m);
      NextPage(OverPackets(w), w.agent.objects, root, rep, m, PAGES);
    }
    PageExchanged(w, root, rep, n);
    WalkFails(OverPackets(w), root, rep, all, n, PAGES, Trouble(w, n, StandsAt(w, root, rep, n), rep));
  }

  lemma {:induction false} FirstOne(w: Wire, root: Name, rep: nat, n: nat) returns (first: nat)
    requires PageAsked(w, root, rep, n) && !PageFits(w, root, rep, n)
    ensures FirstUnfit(w, root, rep, first)
  {
    if m: nat :| m < n && PageAsked(w, root, rep, m) && !PageFits(w, root, rep, m) {
      first := FirstOne(w, root, rep, m);
    } else {
      first := n;
    }
  }

  lemma FittingWalk(w: Wire, root: Name, rep: int64)
    requires Readable(w, root) && rep >= 1 && EveryPageFits(w, root, rep)
    ensures var all := Branch(w.agent.objects, root);
            WalkFrom(OverPackets(w), root, rep, root, [], 0, PAGES) ==
            if |all| < PAGES * rep then Outcome(all, None)
            else Outcome(all[..PAGES * rep], Some(Endless))
  {
    forall n: nat | Due(Branch(w.agent.objects, root), rep, n, PAGES)
      ensures Gives(OverPackets(w), w.agent.objects, root, rep, n)
    {
      assert PageAsked(w, root, rep, n);
      PageExchanged(w, root, rep, n);
    }
    WalkOfPages(OverPackets(w), w.agent.objects, root, rep, PAGES);
  }

  /**
   * The walk of the agent through packets returns exactly the objects of the
   * branch, in order, if and only if they are fewer than 100000 full pages and
   * every page asked for fits in its packets; it fails at the first that does
   * not, with the full pages before it.
   */
  lemma WalkOverPackets(w: Wire, root: Name, maxRepetitions: int64)
    requires Readable(w, root)
    ensures var rep := if maxRepetitions <= 0 then 20 else maxRepetitions;
            var all := Branch(w.agent.objects, root);
            var r := WalkFrom(OverPackets(w), root, rep, root, [], 0, PAGES);
            && (r == Outcome(all, None) <==> |all| < 100000 * rep && EveryPageFits(w, root, rep))
            && (EveryPageFits(w, root, rep) && |all| >= 100000 * rep ==> r == Outcome(all[..100000 * rep], Some(Endless)))
            && forall n: nat | FirstUnfit(w, root, rep, n) :: r == CutAt(w, root, rep, n)
  {
    var rep := Repetitions(maxRepetitions);
    if EveryPageFits(w, root, rep) {
      FittingWalk(w, root, rep);
    } else {
      var n: nat :| PageAsked(w, root, rep, n) && !PageFits(w, root, rep, n);
      n := FirstOne(w, root, rep, n);
      UnfitFails(w, root, rep, n);
    }
    forall n: nat | FirstUnfit(w, root, rep, n)
      ensures WalkFrom(OverPackets(w), root, rep, root, [], 0, PAGES) == CutAt(w, root, rep, n)
    {
      UnfitFails(w, root, rep, n);
    }
  }
}
