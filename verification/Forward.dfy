// One handling of an overlay packet at one node: internal/node/packet.go and
// exit.go, on the packet's bytes.
module Forward {
  import opened Base
  import opened Rib
  import opened Router
  import opened Checksum
  import opened Packets
  import Mss

  const TCP_MSS := 1220
  const INNER_TCP_MSS := 1200
  const OVERLAY_MAX := 1320

  /** What the transport makes of a write: QUIC is not part of this model. */
  datatype Conn = Accepts | TooBig(limit: nat) | Fails

  /** A node as one handling sees it. */
  datatype View = View(
    self: Node, exit: bool, exitNode: bool, exitAddr: Option<Node>, host: bool,
    rib: Table, sessions: map<Node, Session>)

  predicate ValidView(v: View) {
    MeshAddress(v.self.ula) && (v.exitAddr.Some? ==> MeshAddress(v.exitAddr.value.ula))
  }

  /** fd00::53, the in-process name server. */
  const RESOLVER: seq<byte> := [0xfd, 0, 0, 0, 0, 0, 0, 0, 0, 0, 0, 0, 0, 0, 0, 0x53]

  /** Packets written to sessions, handed to the local TUN, stack or tap, and
      sent out to the internet on behalf of a client. */
  datatype Outcome = Outcome(sent: seq<(Session, Packet)>, local: seq<Packet>, egress: seq<(Node, Packet)>)

  const Nothing := Outcome([], [], [])

  function NextHop(v: View, dst: Node, from: Option<Session>): Option<Session> {
    PickNextHop(v.rib, v.sessions, dst, from)
  }

  /** The transport's verdict on a packet of this size. */
  function WritePacket(pkt: Packet, conn: Conn): Conn {
    if |pkt| == 0 then Fails
    else if |pkt| > OVERLAY_MAX then TooBig(MTU)
    else conn
  }

  function SendError(v: View, from: Option<Session>, pkt: Packet, typ: byte, param: nat, back: Conn): Outcome
    requires ValidView(v)
  {
    match IcmpError(pkt, v.self.ula, typ, 0, Be32(param))
    case None => Nothing
    case Some(reply) =>
      if from.None? then Nothing.(local := [reply])
      else if WritePacket(reply, back).Accepts? then Nothing.(sent := [(from.value, reply)])
      else Nothing
  }

  function ClampInner(pkt: Packet): Packet {
    if pkt == [] then pkt
    else if pkt[0] / 16 == 6 then Mss.Clamped(true, pkt, INNER_TCP_MSS)
    else if pkt[0] / 16 == 4 then Mss.Clamped(false, pkt, INNER_TCP_MSS)
    else pkt
  }

  function Order(pkt: Packet): nat {
    if |pkt| >= IPV6_HEADER && Destination(pkt)[0] == 0xfd then 0 else 2
  }

  /** Wraps a packet from the local TUN toward the selected exit node. */
  function HandleExitFromTUN(v: View, from: Option<Session>, pkt: Packet, fwd: Conn, back: Conn): Outcome
    requires ValidView(v)
    decreases 1
  {
    if from.Some? || v.exitAddr.None? then Nothing
    else
      match EncapsulateExit(v.self.ula, v.exitAddr.value.ula, ClampInner(pkt))
      case None => Nothing
      case Some(outer) =>
        EncapsulatedFields(v.self.ula, v.exitAddr.value.ula, ClampInner(pkt));
        HandleIPv6(v, None, outer, fwd, back)
  }

  function HandleIPv6(v: View, from: Option<Session>, pkt: Packet, fwd: Conn, back: Conn): Outcome
    requires ValidView(v)
    decreases Order(pkt)
  {
    if !IsIPv6(pkt) then Nothing else
    var dst := Destination(pkt);
    var tunnel := if dst == v.self.ula then DecapsulateExit(pkt, v.self.ula) else None;
    if tunnel.Some? && v.exit then Nothing.(egress := [(Node(tunnel.value.0), tunnel.value.1)])
    else if tunnel.Some? && v.exitNode then Nothing.(local := [tunnel.value.1])
    else if !MeshAddress(dst) then
      if from.None? && v.exitNode then HandleExitFromTUN(v, None, pkt, fwd, back) else Nothing
    else if dst == RESOLVER then Nothing
    else if dst == v.self.ula then DeliverLocally(v, from, pkt, back)
    else ForwardPacket(v, from, pkt, fwd, back)
  }

  function DeliverLocally(v: View, from: Option<Session>, pkt: Packet, back: Conn): Outcome {
    if from.None? then Nothing else
    var out := Nothing.(local := [pkt]);
    if v.host || EchoReply(pkt).None? then out
    else if WritePacket(EchoReply(pkt).value, back).Accepts? then out.(sent := [(from.value, EchoReply(pkt).value)])
    else out
  }

  /** The bytes that travel on: one hop less if they came from a peer, MSS
      clamped if they are a SYN. */
  function Onward(from: Option<Session>, pkt: Packet): Packet
    requires |pkt| >= IPV6_HEADER && (from.Some? ==> pkt[7] > 1)
  {
    Mss.Clamped(true, if from.Some? then pkt[7 := pkt[7] - 1] else pkt, TCP_MSS)
  }

  function ForwardPacket(v: View, from: Option<Session>, pkt: Packet, fwd: Conn, back: Conn): Outcome
    requires ValidView(v) && IsIPv6(pkt)
  {
    if from.Some? && pkt[7] <= 1 then SendError(v, from, pkt, TIME_EXCEEDED, 0, back) else
    var onward := Onward(from, pkt);
    match NextHop(v, Node(Destination(pkt)), from)
    case None => SendError(v, from, onward, DEST_UNREACH, 0, back)
    case Some(s) =>
      match WritePacket(onward, fwd)
      case Accepts => Nothing.(sent := [(s, onward)])
      case Fails => Nothing
      case TooBig(limit) => SendError(v, from, onward, PACKET_TOO_BIG, if 0 < limit < MTU then limit else MTU, back)
  }

  function HandlePacket(v: View, from: Option<Session>, pkt: Packet, fwd: Conn, back: Conn): Outcome
    requires ValidView(v)
  {
    if pkt == [] then Nothing
    else if pkt[0] / 16 == 4 then HandleExitFromTUN(v, from, pkt, fwd, back)
    else if pkt[0] / 16 == 6 then HandleIPv6(v, from, pkt, fwd, back)
    else Nothing
  }

  // ---- what a handling may send -------------------------------------------

  lemma OnwardFields(from: Option<Session>, pkt: Packet)
    requires IsIPv6(pkt) && (from.Some? ==> pkt[7] > 1)
    ensures var o := Onward(from, pkt);
            && |o| == |pkt| && IsIPv6(o) && o[6] == pkt[6] && o[7] == pkt[7] - (if from.Some? then 1 else 0)
            && Source(o) == Source(pkt) && Destination(o) == Destination(pkt)
            && (pkt[6] != NEXT_HEADER_TCP ==> o == if from.Some? then pkt[7 := pkt[7] - 1] else pkt)
  {
    hide Mss.Clamped, Mss.Clamp;
    var d := if from.Some? then pkt[7 := pkt[7] - 1] else pkt;
    var o := Onward(from, pkt);
    Mss.ClampedShape(true, d, TCP_MSS);
    assert forall k | 0 <= k < 40 :: o[k] == d[k] by {
      if Mss.HeaderAt(true, d).Some? {
        assert Mss.HeaderAt(true, d).value == IPV6_HEADER;
        assert forall k | 0 <= k < 40 :: Mss.Fixed(d, IPV6_HEADER, k);
      }
    }
    assert d[8..24] == pkt[8..24] && d[24..40] == pkt[24..40];
    assert o[8..24] == d[8..24] && o[24..40] == d[24..40];
  }

  /** Echo requests may cause a reply, anything but an ICMP error may cause an
      error, and every forwarding costs a hop. */
  function Weight(pkt: Packet): nat
    requires |pkt| >= IPV6_HEADER
  {
    (if IsIcmpError(pkt) then 0 else if IsEchoRequest(pkt) then 130 else 65) + pkt[7] as int
  }

  const HEAVIEST := 385

  lemma ErrorIsLight(v: View, from: Option<Session>, pkt: Packet, typ: byte, param: nat, back: Conn)
    requires ValidView(v) && |pkt| >= IPV6_HEADER && typ < 128
    ensures var o := SendError(v, from, pkt, typ, param, back);
            && |o.sent| <= 1 && (from.None? ==> o.sent == [])
            && (o.sent != [] ==> |o.sent[0].1| >= 48 && !IsIcmpError(pkt) && Weight(o.sent[0].1) == 64 < Weight(pkt))
  {
    hide WithChecksum;
  }

  /** A handling sends at most one packet; from a peer, a strictly lighter one. */
  lemma {:induction false} HandlingSendsLighter(v: View, from: Option<Session>, pkt: Packet, fwd: Conn, back: Conn)
    requires ValidView(v)
    ensures var o := HandlePacket(v, from, pkt, fwd, back);
            && |o.sent| <= 1
            && (o.sent != [] ==>
                  && |pkt| > 0 && |o.sent[0].1| >= IPV6_HEADER && Weight(o.sent[0].1) <= HEAVIEST
                  && (from.Some? ==> |pkt| >= IPV6_HEADER && Weight(o.sent[0].1) < Weight(pkt)))
  {
    if pkt != [] && pkt[0] / 16 == 6 {
      Ipv6SendsLighter(v, from, pkt, fwd, back);
    } else if pkt != [] && pkt[0] / 16 == 4 {
      ExitSendsLight(v, from, pkt, fwd, back);
    }
  }

  lemma ExitSendsLight(v: View, from: Option<Session>, pkt: Packet, fwd: Conn, back: Conn)
    requires ValidView(v)
    ensures var o := HandleExitFromTUN(v, from, pkt, fwd, back);
            && |o.sent| <= 1 && (from.Some? ==> o.sent == [])
            && (o.sent != [] ==> |o.sent[0].1| >= IPV6_HEADER && Weight(o.sent[0].1) <= HEAVIEST)
    decreases 1
  {
    if from.None? && v.exitAddr.Some? && EncapsulateExit(v.self.ula, v.exitAddr.value.ula, ClampInner(pkt)).Some? {
      EncapsulatedFields(v.self.ula, v.exitAddr.value.ula, ClampInner(pkt));
      Ipv6SendsLighter(v, None, EncapsulateExit(v.self.ula, v.exitAddr.value.ula, ClampInner(pkt)).value, fwd, back);
    }
  }

  lemma Ipv6SendsLighter(v: View, from: Option<Session>, pkt: Packet, fwd: Conn, back: Conn)
    requires ValidView(v)
    ensures var o := HandleIPv6(v, from, pkt, fwd, back);
            && |o.sent| <= 1
            && (o.sent != [] ==>
                  && |pkt| >= IPV6_HEADER && |o.sent[0].1| >= IPV6_HEADER && Weight(o.sent[0].1) <= HEAVIEST
                  && (from.Some? ==> Weight(o.sent[0].1) < Weight(pkt)))
    decreases Order(pkt)
  {
    if IsIPv6(pkt) {
      var dst := Destination(pkt);
      if !MeshAddress(dst) {
        ExitSendsLight(v, None, pkt, fwd, back);
      } else if dst == v.self.ula {
        if IsEchoRequest(pkt) {
          EchoReplyFields(pkt);
        }
      } else {
        ForwardSendsLighter(v, from, pkt, fwd, back);
      }
    }
  }

  lemma ForwardSendsLighter(v: View, from: Option<Session>, pkt: Packet, fwd: Conn, back: Conn)
    requires ValidView(v) && IsIPv6(pkt)
    ensures var o := ForwardPacket(v, from, pkt, fwd, back);
            && |o.sent| <= 1
            && (o.sent != [] ==> |o.sent[0].1| >= IPV6_HEADER && Weight(o.sent[0].1) <= HEAVIEST
                                 && (from.Some? ==> Weight(o.sent[0].1) < Weight(pkt)))
  {
    hide Onward, SendError, NextHop;
    ErrorIsLight(v, from, pkt, TIME_EXCEEDED, 0, back);
    if from.None? || pkt[7] > 1 {
      var onward := Onward(from, pkt);
      OnwardFields(from, pkt);
      ErrorIsLight(v, from, onward, DEST_UNREACH, 0, back);
      if WritePacket(onward, fwd).TooBig? {
        var limit := WritePacket(onward, fwd).limit;
        ErrorIsLight(v, from, onward, PACKET_TOO_BIG, if 0 < limit < MTU then limit else MTU, back);
      }
    }
  }

  /** RFC 4443 section 2.4: an ICMP error never causes another. All that a
      peer's error can make a node send is the same error, one hop on. */
  lemma NoErrorAboutError(v: View, from: Session, pkt: Packet, fwd: Conn, back: Conn)
    requires ValidView(v) && IsIcmpError(pkt)
    ensures var o := HandlePacket(v, Some(from), pkt, fwd, back);
            o.sent == [] || (|o.sent| == 1 && pkt[7] > 1 && o.sent[0].1 == pkt[7 := pkt[7] - 1])
  {
    hide WithChecksum, Mss.Clamped;
    if IsIPv6(pkt) && pkt[7] > 1 {
      OnwardFields(Some(from), pkt);
    }
  }

  /** A packet about which an ICMP error may be sent. */
  predicate Reportable(pkt: Packet) {
    IsIPv6(pkt) && !IsIcmpError(pkt) && !Unspecified(Source(pkt)) && !Multicast(Source(pkt))
  }

  /** A packet in transit: for some other mesh node. */
  predicate Transit(v: View, pkt: Packet) {
    IsIPv6(pkt) && MeshAddress(Destination(pkt)) && Destination(pkt) != RESOLVER && Destination(pkt) != v.self.ula
  }

  /** e is the node's ICMP error of the given type about pkt, sent to whoever
      sent pkt. */
  predicate Reports(e: Packet, v: View, pkt: Packet, typ: byte, param: nat)
    requires |pkt| >= IPV6_HEADER
  {
    && 48 <= |e| <= 1280 && IsIPv6(e) && Plainly(e, |e| - 40) && e[6] == 58 && e[7] == 64
    && e[40] == typ && e[41] == 0 && e[44..48] == Be32(param)
    && Source(e) == v.self.ula && Destination(e) == Source(pkt) && Verifies6(e, 58)
  }

  lemma ErrorReports(v: View, from: Session, about: Packet, pkt: Packet, typ: byte, param: nat)
    requires ValidView(v) && Reportable(about) && IsIPv6(pkt) && Source(about) == Source(pkt) && typ < 128
    ensures var o := SendError(v, Some(from), about, typ, param, Accepts);
            |o.sent| == 1 && o == Nothing.(sent := o.sent) && o.sent[0].0 == from && Reports(o.sent[0].1, v, pkt, typ, param)
  {
    hide WithChecksum;
    IcmpErrorFields(about, v.self.ula, typ, 0, Be32(param));
  }

  lemma OnwardReportable(from: Option<Session>, pkt: Packet)
    requires IsIPv6(pkt) && (from.Some? ==> pkt[7] > 1)
    ensures var o := Onward(from, pkt); (Reportable(o) <==> Reportable(pkt)) && Source(o) == Source(pkt)
  {
    hide Onward, Mss.Clamped;
    OnwardFields(from, pkt);
    if pkt[6] == NEXT_HEADER_TCP {
      assert !IsIcmpError(pkt);
    }
  }

  /** No transit packet that may be reported is lost in silence: it moves on
      one hop to a peer other than the one it came from, or the sender is told
      exactly why not. */
  lemma {:induction false} ForwardedOrReported(v: View, from: Session, pkt: Packet, fwd: Conn)
    requires ValidView(v) && Transit(v, pkt) && Reportable(pkt) && !fwd.Fails?
    ensures var o := HandlePacket(v, Some(from), pkt, fwd, Accepts);
            var next := NextHop(v, Node(Destination(pkt)), Some(from));
            && |o.sent| == 1 && o == Nothing.(sent := o.sent)
            && var (to, out) := o.sent[0];
               if pkt[7] <= 1 then to == from && Reports(out, v, pkt, 3, 0)
               else if next.None? then to == from && Reports(out, v, pkt, 1, 0)
               else if |pkt| > 1320 then to == from && Reports(out, v, pkt, 2, 1280)
               else if fwd.TooBig? then
                 to == from && Reports(out, v, pkt, 2, if 0 < fwd.limit < 1280 then fwd.limit else 1280)
               else
                 && to == next.value != from && |out| == |pkt| && IsIPv6(out) && out[7] == pkt[7] - 1
                 && Source(out) == Source(pkt) && Destination(out) == Destination(pkt)
                 && out == Mss.Clamped(true, pkt[7 := pkt[7] - 1], 1220)
                 && (pkt[6] != 6 ==> out == pkt[7 := pkt[7] - 1])
  {
    hide Onward, SendError, Mss.Clamped, IcmpError, Reportable, Reports, NextHop;
    if pkt[7] <= 1 {
      ErrorReports(v, from, pkt, pkt, TIME_EXCEEDED, 0);
    } else {
      var onward := Onward(Some(from), pkt);
      OnwardFields(Some(from), pkt);
      OnwardReportable(Some(from), pkt);
      OnwardClamps(Some(from), pkt);
      NeverBack(v, Node(Destination(pkt)), Some(from), from);
      ErrorReports(v, from, onward, pkt, DEST_UNREACH, 0);
      ErrorReports(v, from, onward, pkt, PACKET_TOO_BIG, MTU);
      if fwd.TooBig? {
        ErrorReports(v, from, onward, pkt, PACKET_TOO_BIG, if 0 < fwd.limit < MTU then fwd.limit else MTU);
      }
    }
  }

  /** The same for a packet from the local TUN, which costs no hop: it leaves,
      or the TUN is told why not. */
  lemma {:induction false} InjectedOrReported(v: View, pkt: Packet, fwd: Conn)
    requires ValidView(v) && Transit(v, pkt) && Reportable(pkt) && !fwd.Fails?
    ensures var o := HandlePacket(v, None, pkt, fwd, Accepts);
            var next := NextHop(v, Node(Destination(pkt)), None);
            if next.Some? && |pkt| <= 1320 && fwd.Accepts? then
              o == Nothing.(sent := [(next.value, Mss.Clamped(true, pkt, 1220))])
            else
              && |o.local| == 1 && o == Nothing.(local := o.local)
              && if next.None? then Reports(o.local[0], v, pkt, 1, 0)
                 else if |pkt| > 1320 then Reports(o.local[0], v, pkt, 2, 1280)
                 else Reports(o.local[0], v, pkt, 2, if 0 < fwd.limit < 1280 then fwd.limit else 1280)
  {
    hide Onward, SendError, Mss.Clamped, IcmpError, Reportable, Reports, NextHop;
    var onward := Onward(None, pkt);
    OnwardFields(None, pkt);
    OnwardReportable(None, pkt);
    LocalReports(v, onward, pkt, DEST_UNREACH, 0);
    LocalReports(v, onward, pkt, PACKET_TOO_BIG, MTU);
    if fwd.TooBig? {
      LocalReports(v, onward, pkt, PACKET_TOO_BIG, if 0 < fwd.limit < MTU then fwd.limit else MTU);
    }
    OnwardClamps(None, pkt);
  }

  lemma OnwardClamps(from: Option<Session>, pkt: Packet)
    requires |pkt| >= 40 && (from.Some? ==> pkt[7] > 1)
    ensures Onward(from, pkt) == Mss.Clamped(true, if from.Some? then pkt[7 := pkt[7] - 1] else pkt, 1220)
  {
  }

  /** An error the transport does not take is dropped, and causes no other. */
  lemma UnwrittenErrorIsDropped(v: View, from: Session, pkt: Packet, typ: byte, param: nat, back: Conn)
    requires ValidView(v) && !back.Accepts?
    ensures SendError(v, Some(from), pkt, typ, param, back) == Nothing
  {
  }

  lemma LocalReports(v: View, about: Packet, pkt: Packet, typ: byte, param: nat)
    requires ValidView(v) && Reportable(about) && IsIPv6(pkt) && Source(about) == Source(pkt)
    ensures var o := SendError(v, None, about, typ, param, Accepts);
            |o.local| == 1 && o == Nothing.(local := o.local) && Reports(o.local[0], v, pkt, typ, param)
  {
    hide WithChecksum;
    IcmpErrorFields(about, v.self.ula, typ, 0, Be32(param));
  }

  /** The table leads from v to dst over session s. */
  predicate Leads(v: View, dst: Node, s: Session) {
    Ula(dst) in v.rib && var e := v.rib[Ula(dst)]; e.metric < 16 && e.next in v.sessions && v.sessions[e.next] == s
  }

  /** Split horizon of the data plane, and no live route is passed over: a
      packet takes the session its route leads over, or else the destination's
      own, but never the one it came by. */
  lemma NeverBack(v: View, dst: Node, from: Option<Session>, s: Session)
    ensures NextHop(v, dst, from) == Some(s) <==>
            && Some(s) != from
            && (Leads(v, dst, s) || (dst in v.sessions && v.sessions[dst] == s && forall t | Leads(v, dst, t) :: Some(t) == from))
    ensures NextHop(v, dst, from).None? <==>
            (dst in v.sessions ==> Some(v.sessions[dst]) == from) && forall t | Leads(v, dst, t) :: Some(t) == from
  {
    if Ula(dst) in v.rib && v.rib[Ula(dst)].next in v.sessions {
      assert Leads(v, dst, v.sessions[v.rib[Ula(dst)].next]) <==> v.rib[Ula(dst)].metric < 16;
    }
  }

  // ---- what reaches the node itself, and what is lost ---------------------

  /** A tunnel packet for this node, and the node is an end of tunnels. */
  predicate Unwraps(v: View, pkt: Packet) {
    DecapsulateExit(pkt, v.self.ula).Some? && (v.exit || v.exitNode)
  }

  /** Whatever a peer sends to the node's own address, of whatever protocol,
      is delivered; a node without TUN or stack also answers echo requests. */
  lemma {:induction false} OwnPacketsArrive(v: View, from: Session, pkt: Packet, fwd: Conn, back: Conn)
    requires ValidView(v) && v.self.ula != RESOLVER && IsIPv6(pkt) && pkt[24..40] == v.self.ula && !Unwraps(v, pkt)
    ensures var o := HandlePacket(v, Some(from), pkt, fwd, back);
            && o.local == [pkt] && o.egress == []
            && if !v.host && 48 <= |pkt| <= 1320 && pkt[6] == 58 && pkt[40] == 128 && back.Accepts?
               then EchoReply(pkt).Some? && o.sent == [(from, EchoReply(pkt).value)]
               else o.sent == []
  {
    hide WithChecksum;
    if IsEchoRequest(pkt) {
      EchoReplyFields(pkt);
    }
  }

  /** With writes accepted, exactly these packets from a peer vanish at a node:
      what is not IPv6 or not for the mesh, queries for the name server, and
      packets in transit that cannot go on and must not be reported. */
  lemma {:induction false} PeerPacketLostIff(v: View, from: Session, pkt: Packet)
    requires ValidView(v) && v.self.ula != RESOLVER
    ensures HandlePacket(v, Some(from), pkt, Accepts, Accepts) == Nothing <==>
            || |pkt| < 40 || pkt[0] / 16 != 6
            || pkt[24] != 0xfd || pkt[24..40] == RESOLVER
            || (pkt[24..40] != v.self.ula && !Reportable(pkt)
                && (pkt[7] <= 1 || |pkt| > 1320 || NextHop(v, Node(pkt[24..40]), Some(from)).None?))
  {
    if IsIPv6(pkt) && MeshAddress(Destination(pkt)) && Destination(pkt) != RESOLVER {
      if Destination(pkt) == v.self.ula {
        if !Unwraps(v, pkt) {
          OwnPacketsArrive(v, from, pkt, Accepts, Accepts);
        }
      } else if Reportable(pkt) {
        ForwardedOrReported(v, from, pkt, Accepts);
      } else {
        UnreportableLostIff(v, Some(from), pkt);
      }
    }
  }

  lemma UnreportableLostIff(v: View, from: Option<Session>, pkt: Packet)
    requires ValidView(v) && Transit(v, pkt) && !Reportable(pkt)
    ensures HandlePacket(v, from, pkt, Accepts, Accepts) == Nothing <==>
            (from.Some? && pkt[7] <= 1) || |pkt| > 1320 || NextHop(v, Node(Destination(pkt)), from).None?
  {
    hide Onward, Mss.Clamped, NextHop, WithChecksum;
    Withheld(v, from, pkt);
    if from.None? || pkt[7] > 1 {
      OnwardFields(from, pkt);
      OnwardReportable(from, pkt);
      Withheld(v, from, Onward(from, pkt));
    }
  }

  lemma Withheld(v: View, from: Option<Session>, pkt: Packet)
    requires ValidView(v) && IsIPv6(pkt) && !Reportable(pkt)
    ensures forall typ, param, back :: SendError(v, from, pkt, typ, param, back) == Nothing
  {
    hide WithChecksum;
  }

  /** And exactly these from the local TUN: what is no IP packet; internet
      traffic with no exit to go to; queries for the name server and packets
      for the node itself; and those that cannot leave and must not be
      reported. */
  lemma {:induction false} TunPacketLostIff(v: View, pkt: Packet)
    requires ValidView(v) && v.self.ula != RESOLVER && |pkt| <= 1280
    ensures HandlePacket(v, None, pkt, Accepts, Accepts) == Nothing <==>
            if pkt == [] || pkt[0] / 16 !in {4, 6} || (pkt[0] / 16 == 6 && |pkt| < 40) then true
            else if pkt[0] / 16 == 4 || pkt[24] != 0xfd then
              (pkt[0] / 16 == 6 && !v.exitNode) || v.exitAddr.None? || v.exitAddr.value.ula == RESOLVER
              || (v.exitAddr.value.ula == v.self.ula && !v.exit && !v.exitNode)
            else if pkt[24..40] == RESOLVER then true
            else if pkt[24..40] == v.self.ula then !Unwraps(v, pkt)
            else !Reportable(pkt) && NextHop(v, Node(pkt[24..40]), None).None?
  {
    if pkt != [] && (pkt[0] / 16 == 4 || (IsIPv6(pkt) && !MeshAddress(Destination(pkt)))) {
      if pkt[0] / 16 == 4 || v.exitNode {
        ExitTrafficLostIff(v, pkt);
      }
    } else if IsIPv6(pkt) && Transit(v, pkt) {
      if Reportable(pkt) {
        InjectedOrReported(v, pkt, Accepts);
      } else {
        UnreportableLostIff(v, None, pkt);
      }
    }
  }

  lemma {:induction false} ExitTrafficLostIff(v: View, pkt: Packet)
    requires ValidView(v) && v.self.ula != RESOLVER && |pkt| <= 1280 && Internet(v, pkt)
    ensures HandleExitFromTUN(v, None, pkt, Accepts, Accepts) == Nothing <==>
            || v.exitAddr.None? || v.exitAddr.value.ula == RESOLVER
            || (v.exitAddr.value.ula == v.self.ula && !v.exit && !v.exitNode)
  {
    hide ClampInner, NextHop, EncapsulateExit, WithChecksum, Mss.Clamped;
    ClampInnerShape(v, pkt);
    if v.exitAddr.Some? {
      var inner, to := ClampInner(pkt), v.exitAddr.value.ula;
      EncapsulatedFields(v.self.ula, to, inner);
      var outer := EncapsulateExit(v.self.ula, to, inner).value;
      WrapperReportable(v, outer);
      DecapsulatesIff(outer, v.self.ula, v.self.ula, inner);
      if to != RESOLVER && to != v.self.ula {
        InjectedOrReported(v, outer, Accepts);
      }
    }
  }

  lemma WrapperReportable(v: View, outer: Packet)
    requires ValidView(v) && IsIPv6(outer) && Source(outer) == v.self.ula && outer[6] in {4, 41}
    ensures Reportable(outer)
  {
  }

  // ---- cascades -----------------------------------------------------------

  datatype Handling = Handling(view: View, from: Option<Session>, pkt: Packet, fwd: Conn, back: Conn)

  function Sent(h: Handling): seq<(Session, Packet)>
    requires ValidView(h.view)
  {
    HandlePacket(h.view, h.from, h.pkt, h.fwd, h.back).sent
  }

  /** Handlings caused by one injected packet: each handles what the one before
      sent, at whatever node, with whatever tables and transport. */
  ghost predicate Cascade(hs: seq<Handling>) {
    && (forall i | 0 <= i < |hs| :: ValidView(hs[i].view))
    && (forall i, j | 0 <= i && i + 1 == j < |hs| :: Causes(hs[i], hs[j]))
  }

  ghost predicate Causes(h: Handling, h': Handling)
    requires ValidView(h.view)
  {
    h'.from.Some? && exists k :: 0 <= k < |Sent(h)| && Sent(h)[k].1 == h'.pkt
  }

  lemma CausedIsLighter(h: Handling, h': Handling)
    requires ValidView(h.view) && Causes(h, h')
    ensures |h'.pkt| >= IPV6_HEADER && Weight(h'.pkt) <= HEAVIEST
    ensures h.from.Some? && |h.pkt| >= IPV6_HEADER ==> Weight(h'.pkt) < Weight(h.pkt)
  {
    HandlingSendsLighter(h.view, h.from, h.pkt, h.fwd, h.back);
  }

  lemma {:induction false} CascadeFalls(hs: seq<Handling>, i: nat)
    requires Cascade(hs) && 0 < i < |hs|
    ensures |hs[i].pkt| >= IPV6_HEADER && Weight(hs[i].pkt) + i <= HEAVIEST + 1
    decreases i
  {
    assert Causes(hs[i - 1], hs[i]);
    CausedIsLighter(hs[i - 1], hs[i]);
    if i > 1 {
      assert Causes(hs[i - 2], hs[i - 1]);
      CascadeFalls(hs, i - 1);
    }
  }

  /** One injected packet causes at most 387 handlings in the whole mesh, even
      if every table changes between any two of them. */
  lemma CascadeIsBounded(hs: seq<Handling>)
    requires Cascade(hs)
    ensures |hs| <= 387
  {
    if |hs| > 1 {
      CascadeFalls(hs, |hs| - 1);
    }
  }

  // ---- tunnels through relays ---------------------------------------------

  /** A node on the way: it is not the destination and has somewhere to send. */
  datatype Relay = Relay(view: View, from: Session, next: Session)

  predicate Relays(r: Relay, dst: seq<byte>) {
    ValidView(r.view) && r.view.self.ula != dst && NextHop(r.view, Node(dst), Some(r.from)) == Some(r.next)
  }

  /** The packet after passing the relays in turn, each write accepted. */
  function Passed(rs: seq<Relay>, pkt: Packet): Packet
    requires forall r | r in rs :: ValidView(r.view)
  {
    if rs == [] then pkt else
    var o := HandlePacket(rs[0].view, Some(rs[0].from), pkt, Accepts, Accepts);
    if |o.sent| == 1 && o.sent[0].0 == rs[0].next then Passed(rs[1..], o.sent[0].1) else []
  }

  lemma RelayCountsDown(r: Relay, pkt: Packet, dst: seq<byte>)
    requires MeshAddress(dst) && dst != RESOLVER && Relays(r, dst)
    requires IsIPv6(pkt) && Destination(pkt) == dst && pkt[6] != NEXT_HEADER_TCP && |pkt| <= OVERLAY_MAX && pkt[7] > 1
    ensures HandlePacket(r.view, Some(r.from), pkt, Accepts, Accepts) == Nothing.(sent := [(r.next, pkt[7 := pkt[7] - 1])])
  {
  }

  lemma {:induction false} RelaysOnlyCountDown(rs: seq<Relay>, pkt: Packet, dst: seq<byte>)
    requires MeshAddress(dst) && dst != RESOLVER && (forall r | r in rs :: ValidView(r.view)) && forall r | r in rs :: Relays(r, dst)
    requires IsIPv6(pkt) && Destination(pkt) == dst && pkt[6] != NEXT_HEADER_TCP && |pkt| <= OVERLAY_MAX && |rs| < pkt[7]
    ensures Passed(rs, pkt) == pkt[7 := pkt[7] - |rs|]
  {
    hide HandlePacket, NextHop;
    if rs != [] {
      assert rs[0] in rs;
      RelayCountsDown(rs[0], pkt, dst);
      var next := pkt[7 := pkt[7] - 1];
      assert Destination(next) == dst;
      RelaysOnlyCountDown(rs[1..], next, dst);
      assert next[7 := next[7] - |rs[1..]|] == pkt[7 := pkt[7] - |rs|];
    }
  }

  /** What a client sends out through its exit: any IPv4 packet, and any IPv6
      packet for an address outside the mesh. */
  predicate Internet(v: View, pkt: Packet) {
    (pkt != [] && pkt[0] / 16 == 4) || (IsIPv6(pkt) && !MeshAddress(Destination(pkt)) && v.exitNode)
  }

  /** Tunnelled packets are clamped to 1200 by their own version, anything else
      is left alone. */
  lemma InnerClamp(pkt: Packet)
    ensures ClampInner(pkt) == if pkt != [] && pkt[0] / 16 in {4, 6} then Mss.Clamped(pkt[0] / 16 == 6, pkt, 1200) else pkt
  {
  }

  lemma {:induction false} ClampInnerShape(v: View, pkt: Packet)
    requires Internet(v, pkt)
    ensures var inner := ClampInner(pkt); |inner| == |pkt| && TunnelHeader(inner).Some?
  {
    var v6 := pkt[0] / 16 == 6;
    Mss.ClampedShape(v6, pkt, INNER_TCP_MSS);
    if Mss.HeaderAt(v6, pkt).Some? {
      assert Mss.Fixed(pkt, Mss.HeaderAt(v6, pkt).value, 0);
    }
  }

  lemma {:induction false} OuterLeaves(v: View, inner: Packet, s: Session)
    requires ValidView(v) && v.exitAddr.Some? && v.exitAddr.value.ula != v.self.ula && v.exitAddr.value.ula != RESOLVER
    requires TunnelHeader(inner).Some? && |inner| <= MTU
    requires NextHop(v, Node(v.exitAddr.value.ula), None) == Some(s)
    ensures var outer := EncapsulateExit(v.self.ula, v.exitAddr.value.ula, inner).value;
            HandleIPv6(v, None, outer, Accepts, Accepts) == Nothing.(sent := [(s, outer)])
  {
    hide NextHop;
    EncapsulatedFields(v.self.ula, v.exitAddr.value.ula, inner);
    var outer := EncapsulateExit(v.self.ula, v.exitAddr.value.ula, inner).value;
    OnwardFields(None, outer);
    assert ForwardPacket(v, None, outer, Accepts, Accepts) == Nothing.(sent := [(s, outer)]);
  }

  /** A client's own internet traffic, IPv4 or IPv6, enters the tunnel with its
      MSS clamped to the tunnel. */
  lemma {:induction false} ClientWraps(v: View, pkt: Packet, s: Session)
    requires ValidView(v) && v.exitAddr.Some? && v.exitAddr.value.ula != v.self.ula && v.exitAddr.value.ula != RESOLVER
    requires Internet(v, pkt) && |pkt| <= MTU
    requires NextHop(v, Node(v.exitAddr.value.ula), None) == Some(s)
    ensures TunnelHeader(ClampInner(pkt)).Some? && |ClampInner(pkt)| == |pkt|
    ensures HandlePacket(v, None, pkt, Accepts, Accepts)
            == Nothing.(sent := [(s, EncapsulateExit(v.self.ula, v.exitAddr.value.ula, ClampInner(pkt)).value)])
  {
    hide ClampInner, NextHop, EncapsulateExit, ForwardPacket;
    ClampInnerShape(v, pkt);
    OuterLeaves(v, ClampInner(pkt), s);
    assert EncapsulateExit(v.self.ula, v.exitAddr.value.ula, ClampInner(pkt)).Some? by {
      Wrappable(v.self.ula, v.exitAddr.value.ula, ClampInner(pkt));
    }
    assert HandleExitFromTUN(v, None, pkt, Accepts, Accepts)
        == HandleIPv6(v, None, EncapsulateExit(v.self.ula, v.exitAddr.value.ula, ClampInner(pkt)).value, Accepts, Accepts);
  }

  lemma Wrappable(src: seq<byte>, dst: seq<byte>, inner: Packet)
    requires Address(src) && Address(dst)
    ensures EncapsulateExit(src, dst, inner).Some? <==> TunnelHeader(inner).Some?
  {
  }

  /** An inner packet wrapped at a client, relayed within its hop limit and
      unwrapped at the exit leaves for the internet byte for byte, credited to
      the client. */
  lemma {:induction false} TunnelDelivers(client: Node, exit: View, inner: Packet, rs: seq<Relay>, from: Session)
    requires MeshAddress(client.ula) && ValidView(exit) && exit.exit && exit.self.ula != RESOLVER
    requires EncapsulateExit(client.ula, exit.self.ula, inner).Some? && |inner| <= MTU
    requires |rs| < REPLY_HOP_LIMIT && (forall r | r in rs :: ValidView(r.view)) && forall r | r in rs :: Relays(r, exit.self.ula)
    ensures var arriving := Passed(rs, EncapsulateExit(client.ula, exit.self.ula, inner).value);
            HandlePacket(exit, Some(from), arriving, Accepts, Accepts) == Nothing.(egress := [(client, inner)])
  {
    hide HandleIPv6, EncapsulateExit;
    var outer := EncapsulateExit(client.ula, exit.self.ula, inner).value;
    EncapsulatedFields(client.ula, exit.self.ula, inner);
    RelaysOnlyCountDown(rs, outer, exit.self.ula);
    TunnelRoundTripIff(client.ula, exit.self.ula, inner, outer[7] - |rs|);
    ExitUnwraps(client, exit, inner, outer[7 := outer[7] - |rs|], from);
  }

  /** From the client's TUN to the internet: whatever the client sends out is
      relayed to its exit and leaves there, altered by nothing but the MSS
      clamp, credited to the client. */
  lemma {:induction false} TunnelEndToEnd(client: View, pkt: Packet, first: Session, rs: seq<Relay>, exit: View, last: Session)
    requires ValidView(client) && client.exitAddr == Some(exit.self) && exit.self.ula != client.self.ula
    requires ValidView(exit) && exit.exit && exit.self.ula != RESOLVER
    requires Internet(client, pkt) && |pkt| <= MTU
    requires NextHop(client, Node(exit.self.ula), None) == Some(first)
    requires |rs| < REPLY_HOP_LIMIT && (forall r | r in rs :: ValidView(r.view)) && forall r | r in rs :: Relays(r, exit.self.ula)
    ensures var o := HandlePacket(client, None, pkt, Accepts, Accepts);
            && o == Nothing.(sent := o.sent) && |o.sent| == 1 && o.sent[0].0 == first
            && HandlePacket(exit, Some(last), Passed(rs, o.sent[0].1), Accepts, Accepts)
               == Nothing.(egress := [(client.self, Mss.Clamped(pkt[0] / 16 == 6, pkt, 1200))])
  {
    hide HandlePacket, EncapsulateExit, NextHop, Passed, Relays, Mss.Clamped;
    ClientWraps(client, pkt, first);
    Wrappable(client.self.ula, exit.self.ula, ClampInner(pkt));
    TunnelDelivers(client.self, exit, ClampInner(pkt), rs, last);
  }

  lemma ExitUnwraps(client: Node, exit: View, inner: Packet, arriving: Packet, from: Session)
    requires ValidView(exit) && exit.exit && IsIPv6(arriving) && Destination(arriving) == exit.self.ula
    requires DecapsulateExit(arriving, exit.self.ula) == Some((client.ula, inner))
    ensures HandlePacket(exit, Some(from), arriving, Accepts, Accepts) == Nothing.(egress := [(client, inner)])
  {
  }

  /** The way back: what an exit wraps for its client reaches the client's own
      stack byte for byte. */
  lemma {:induction false} TunnelReturns(exit: Node, client: View, inner: Packet, rs: seq<Relay>, from: Session)
    requires MeshAddress(exit.ula) && ValidView(client) && client.exitNode && !client.exit && client.self.ula != RESOLVER
    requires EncapsulateExit(exit.ula, client.self.ula, inner).Some? && |inner| <= MTU
    requires |rs| < REPLY_HOP_LIMIT && (forall r | r in rs :: ValidView(r.view)) && forall r | r in rs :: Relays(r, client.self.ula)
    ensures var arriving := Passed(rs, EncapsulateExit(exit.ula, client.self.ula, inner).value);
            HandlePacket(client, Some(from), arriving, Accepts, Accepts) == Nothing.(local := [inner])
  {
    hide HandleIPv6, EncapsulateExit;
    var outer := EncapsulateExit(exit.ula, client.self.ula, inner).value;
    EncapsulatedFields(exit.ula, client.self.ula, inner);
    RelaysOnlyCountDown(rs, outer, client.self.ula);
    TunnelRoundTripIff(exit.ula, client.self.ula, inner, outer[7] - |rs|);
    ClientUnwraps(exit, client, inner, outer[7 := outer[7] - |rs|], from);
  }

  lemma ClientUnwraps(exit: Node, client: View, inner: Packet, arriving: Packet, from: Session)
    requires ValidView(client) && client.exitNode && !client.exit && IsIPv6(arriving) && Destination(arriving) == client.self.ula
    requires DecapsulateExit(arriving, client.self.ula) == Some((exit.ula, inner))
    ensures HandlePacket(client, Some(from), arriving, Accepts, Accepts) == Nothing.(local := [inner])
  {
  }
}
