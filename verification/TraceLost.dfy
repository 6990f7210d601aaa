// What traceroute says of a node that nobody has a route to any more: where
// the way there ends, and that it ends.
module TraceLost {
  import opened Base
  import opened Rib
  import opened Router
  import opened Mesh
  import opened Packets
  import opened Trace
  import opened TraceExact
  import Checksum
  import Forward

  function Before(w: seq<Node>, i: nat): Option<Node>
    requires i < |w|
  {
    if i == 0 then None else Some(w[i - 1])
  }

  /** w[i] is i hops from the prober w[0] and passes packets for d on along w. */
  ghost predicate OnWay(roles: Roles, net: Net, w: seq<Node>, d: Node, i: nat)
    requires i < |w|
  {
    && w[i] != d && M(net, w[i], w[0]) == i
    && (i > 0 ==> (w[i - 1], w[i]) in net.reg && (w[i], w[i - 1]) in net.reg)
    && Forward.NextHop(ViewOf(roles, net, w[i]), d, SessionTo(Before(w, i)))
       == if i + 1 < |w| then Some(Session(w[i + 1], 0)) else None
  }

  /** Packets from w[0] for d get as far as the last node of w, which has
      nowhere to send them. */
  ghost predicate Astray(roles: Roles, net: Net, w: seq<Node>, d: Node) {
    && 0 < |w| < ROUTE_INFINITY && MeshNode(d) && Homing(net, w[0])
    && (forall n | n in w :: MeshNode(n))
    && forall i: nat | i < |w| :: OnWay(roles, net, w, d, i)
  }

  /** No node has a route to d, nor a session to it. */
  lemma {:induction false} NoRouteIsAstray(roles: Roles, net: Net, o: Node, d: Node)
    requires Homing(net, o) && MeshNode(o) && MeshNode(d) && o != d
    requires Ula(d) !in RibOf(net, o) && (o, d) !in net.reg
    ensures Astray(roles, net, [o], d)
  {
    assert OnWay(roles, net, [o], d, 0);
  }

  // ---- one probe ----------------------------------------------------------

  /** The node without a route tells whoever sent the packet. */
  lemma {:induction false} RefusalHandled(roles: Roles, net: Net, y: Node, z: Node, pkt: Packet, d: Node) returns (e: Packet)
    requires MeshNode(y) && MeshNode(d) && y != d && IsIPv6(pkt) && Destination(pkt) == d.ula && pkt[7] > 1
    requires Forward.NextHop(ViewOf(roles, net, y), d, SessionTo(Some(z))) == None
    requires pkt[6] != Checksum.NEXT_HEADER_TCP && IcmpError(pkt[7 := pkt[7] - 1], y.ula, DEST_UNREACH, 0, Be32(0)).Some?
    ensures Handled(roles, net, y, Some(z), pkt) == Forward.Nothing.(sent := [(Session(z, 0), e)])
    ensures Some(e) == IcmpError(pkt[7 := pkt[7] - 1], y.ula, DEST_UNREACH, 0, Be32(0))
  {
    hide WithChecksum;
    var about := pkt[7 := pkt[7] - 1];
    e := IcmpError(about, y.ula, DEST_UNREACH, 0, Be32(0)).value;
    IcmpErrorFields(about, y.ula, DEST_UNREACH, 0, Be32(0));
    Forward.OnwardFields(Some(Session(z, 0)), pkt);
    assert Node(Destination(pkt)) == d;
  }

  lemma {:induction false} Refuses(roles: Roles, net: Net, y: Node, z: Node, pkt: Packet, o: Node, d: Node)
    requires Homing(net, o) && MeshNode(y) && MeshNode(z) && MeshNode(o) && MeshNode(d) && o in roles.hosts
    requires (z, y) in net.reg && y != d && y != o && Probe(pkt, o, d) && pkt[7] > 1
    requires Forward.NextHop(ViewOf(roles, net, y), d, SessionTo(Some(z))) == None
    requires 0 <= M(net, z, o) < ROUTE_INFINITY - 1 && M(net, y, o) == M(net, z, o) + 1
    ensures Answers(TapsAt(o, Journey(roles, net, y, Some(z), pkt)), y, o, Unreachable)
  {
    var about := Spent(pkt, 1);
    ErrorTravels(about, y, o, DEST_UNREACH, M(net, z, o));
    hide Handled, IcmpError, Journey, Delivers, TapsAt, Homing, Answers, ReplyOf, Be32;
    var e := RefusalHandled(roles, net, y, z, pkt, d);
    ReplyReturns(roles, net, z, y, e, o);
    Bounces(roles, net, y, z, pkt, o, [], e, Spent(e, M(net, z, o)));
  }

  /** The prober's own node has no route: it tells its own tap. */
  lemma {:induction false} RefusesItself(roles: Roles, net: Net, o: Node, d: Node, pkt: Packet)
    requires MeshNode(o) && MeshNode(d) && o != d && Probe(pkt, o, d)
    requires Forward.NextHop(ViewOf(roles, net, o), d, None) == None
    ensures Answers(TapsAt(o, Journey(roles, net, o, None, pkt)), o, o, Unreachable)
  {
    hide WithChecksum;
    IcmpErrorFields(pkt, o.ula, DEST_UNREACH, 0, Be32(0));
    var e := IcmpError(pkt, o.ula, DEST_UNREACH, 0, Be32(0)).value;
    Forward.OnwardFields(None, pkt);
    assert Node(Destination(pkt)) == d;
    assert Handled(roles, net, o, None, pkt) == Forward.Nothing.(local := [e]);
    assert Journey(roles, net, o, None, pkt) == [(o, e)];
    TapOne(o, e);
  }

  /** A probe that reaches the i-th node of the way: it dies on the way if its
      hop limit does not carry it past the last, else the last refuses it. */
  lemma {:induction false} AstrayAnswered(roles: Roles, net: Net, w: seq<Node>, d: Node, i: nat, pkt: Packet)
    requires Astray(roles, net, w, d) && w[0] in roles.hosts && 0 < i < |w|
    requires Probe(pkt, w[0], d) && |pkt| >= 40 && pkt[7] >= 1
    ensures var last := |w| - 1;
            Answers(TapsAt(w[0], Journey(roles, net, w[i], Some(w[i - 1]), pkt)),
                    w[if i + pkt[7] - 1 <= last then i + pkt[7] - 1 else last], w[0],
                    if i + pkt[7] - 1 <= last then TimeExceeded else Unreachable)
    decreases |w| - i
  {
    hide Journey, TapsAt, Answers, Homing, Forward.NextHop, Probe;
    var o, y, z := w[0], w[i], w[i - 1];
    assert OnWay(roles, net, w, d, i) && OnWay(roles, net, w, d, i - 1) && OnWay(roles, net, w, d, 0);
    NotHome(net, o, y, i);
    if pkt[7] == 1 {
      Expires(roles, net, y, z, pkt, o, d);
    } else if i == |w| - 1 {
      Refuses(roles, net, y, z, pkt, o, d);
    } else {
      assert OnWay(roles, net, w, d, i + 1);
      ProbePassed(pkt, o, d);
      Forwarded(roles, net, y, z, pkt, d, w[i + 1]);
      AstrayAnswered(roles, net, w, d, i + 1, Spent(pkt, 1));
    }
  }

  lemma NotHome(net: Net, o: Node, y: Node, i: nat)
    requires Homing(net, o) && M(net, y, o) == i && i > 0
    ensures y != o
  {
  }

  lemma ProbeSize(pkt: Packet, o: Node, d: Node)
    requires Probe(pkt, o, d)
    ensures |pkt| >= 40
  {
  }

  lemma ProbePassed(pkt: Packet, o: Node, d: Node)
    requires Probe(pkt, o, d) && pkt[7] > 1
    ensures Probe(Spent(pkt, 1), o, d) && Control(pkt) && Destination(pkt) == d.ula
  {
  }

  // ---- the whole trace ----------------------------------------------------

  /** The hop recorded for one hop limit. */
  lemma {:induction false} AstrayHop(roles: Roles, net: Net, w: seq<Node>, d: Node, ttl: nat)
    requires Astray(roles, net, w, d) && 1 <= ttl <= 255
    ensures HopFrom(Taps(roles, net, w[0], d, ttl), w[0].ula, ttl)
            == if ttl < |w| then Hop(ttl, w[ttl].ula, TimeExceeded) else Hop(ttl, w[|w| - 1].ula, Unreachable)
  {
    hide Journey, TapsAt, HopFrom, Homing, EchoProbe, Forward.NextHop, Answers, Probe, ViewOf;
    var o := w[0];
    var here := Attached(roles, o);
    assert o in w;
    var pkt := EchoProbe(o.ula, d.ula, ttl % 256, ttl);
    ProbeIsSent(o, d, ttl);
    ProbeSize(pkt, o, d);
    assert OnWay(roles, net, w, d, 0);
    AstrayWherever(roles, here, net, w, d);
    assert OnWay(here, net, w, d, 0);
    if |w| == 1 {
      RefusesItself(here, net, o, d, pkt);
      AnsweredHop(Taps(roles, net, o, d, ttl), o, o, Unreachable, ttl);
    } else {
      assert OnWay(here, net, w, d, 1);
      Injected(here, net, o, d, w[1], pkt);
      AstrayAnswered(here, net, w, d, 1, pkt);
      if ttl < |w| {
        AnsweredHop(Taps(roles, net, o, d, ttl), w[ttl], o, TimeExceeded, ttl);
      } else {
        AnsweredHop(Taps(roles, net, o, d, ttl), w[|w| - 1], o, Unreachable, ttl);
      }
    }
  }

  /** Who hosts what has no part in forwarding. */
  lemma AstrayWherever(roles: Roles, roles': Roles, net: Net, w: seq<Node>, d: Node)
    requires Astray(roles, net, w, d)
    ensures Astray(roles', net, w, d)
  {
    hide Homing;
    forall i: nat | i < |w| ensures OnWay(roles', net, w, d, i) {
      assert OnWay(roles, net, w, d, i);
    }
  }

  /** Tracing a node that the way to has been lost: the nodes of the way that
      is left, then unreachable from its last node for every further probe, up
      to the limit; never reached. */
  lemma {:induction false} TraceEndsUnreachable(roles: Roles, net: Net, w: seq<Node>, d: Node, maxTTL: int, hops: seq<Hop>, reach: bool)
    requires Astray(roles, net, w, d)
    requires Traced(ttl => Taps(roles, net, w[0], d, ttl), w[0].ula, maxTTL, hops, reach)
    ensures !reach && |hops| == if maxTTL <= 0 then 32 else if maxTTL > 255 then 255 else maxTTL
    ensures forall i | 0 <= i < |hops| ::
              hops[i] == if i + 1 < |w| then Hop(i + 1, w[i + 1].ula, TimeExceeded) else Hop(i + 1, w[|w| - 1].ula, Unreachable)
  {
    hide Taps, HopFrom, Homing;
    assert OnWay(roles, net, w, d, 0);
    var taps: nat -> seq<Packet> := ttl => Taps(roles, net, w[0], d, ttl);
    forall i | 0 <= i < |hops|
      ensures hops[i] == if i + 1 < |w| then Hop(i + 1, w[i + 1].ula, TimeExceeded) else Hop(i + 1, w[|w| - 1].ula, Unreachable)
    {
      AstrayHop(roles, net, w, d, i + 1);
      assert taps(i + 1) == Taps(roles, net, w[0], d, i + 1);
    }
  }
}
