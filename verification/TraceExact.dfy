// What traceroute finds on a converged mesh: one hop per node of the next-hop
// chain, each reply getting back despite ingress exclusion.
module TraceExact {
  import opened Base
  import opened Rib
  import opened Router
  import opened Mesh
  import opened Packets
  import opened Shortest
  import opened Trace
  import opened Distance
  import Checksum
  import Convergence
  import Forward

  /** Every node is addressed within the overlay, none as the name server. */
  predicate Addressed(net: Net) {
    forall l | l in net.reg :: MeshNode(l.0) && MeshNode(l.1)
  }

  lemma {:induction false} NextHopVia(roles: Roles, net: Net, y: Node, x: Node, w: Node, from: Option<Node>)
    requires Ula(x) in RibOf(net, y) && RibOf(net, y)[Ula(x)].next == w && RibOf(net, y)[Ula(x)].metric < ROUTE_INFINITY
    requires (y, w) in net.reg && from != Some(w)
    ensures Forward.NextHop(ViewOf(roles, net, y), x, SessionTo(from)) == Some(Session(w, 0))
  {
  }

  /** The forwarder uses the nearer hop unless the packet came from there. */
  lemma {:induction false} ForwardsNearer(roles: Roles, net: Net, y: Node, x: Node, from: Option<Node>) returns (w: Node)
    requires Converged(net) && Addressed(net) && 0 < M(net, y, x) < ROUTE_INFINITY
    requires from.Some? ==> M(net, from.value, x) != M(net, y, x) - 1
    ensures (y, w) in net.reg && (w, y) in net.reg && MeshNode(w) && MeshNode(y) && y != x
    ensures M(net, w, x) == M(net, y, x) - 1
    ensures Forward.NextHop(ViewOf(roles, net, y), x, SessionTo(from)) == Some(Session(w, 0))
    ensures Ula(x) in RibOf(net, y) && RibOf(net, y)[Ula(x)].next == w
  {
    w := NearerHop(net, y, x);
    NextHopVia(roles, net, y, x, w, from);
  }

  // ---- a reply finds its way back -----------------------------------------

  predicate Control(pkt: Packet) {
    IsIPv6(pkt) && pkt[6] == Checksum.NEXT_HEADER_ICMPV6 && |pkt| <= Forward.OVERLAY_MAX
  }

  /** The packet k hops later. */
  function Spent(pkt: Packet, k: nat): (r: Packet)
    requires |pkt| >= Checksum.IPV6_HEADER && k <= pkt[7]
    ensures |r| == |pkt| && r[7] == pkt[7] - k && Source(r) == Source(pkt) && Destination(r) == Destination(pkt)
    ensures Control(pkt) ==> Control(r)
    ensures IsEchoRequest(pkt) ==> IsEchoRequest(r)
    ensures |pkt| > Checksum.IPV6_HEADER ==> ReplyOf(r) == ReplyOf(pkt)
  {
    pkt[7 := pkt[7] - k]
  }

  lemma {:induction false} SpentTwice(pkt: Packet, j: nat, k: nat)
    requires |pkt| >= Checksum.IPV6_HEADER && j + k <= pkt[7]
    ensures Spent(Spent(pkt, j), k) == Spent(pkt, j + k) && Spent(pkt, 0) == pkt
  {
  }

  /** One forwarding of a control packet with hops left. */
  lemma {:induction false} Forwarded(roles: Roles, net: Net, y: Node, z: Node, pkt: Packet, x: Node, w: Node)
    requires MeshNode(y) && MeshNode(x) && MeshNode(w) && y != x && (w, y) in net.reg
    requires Control(pkt) && Destination(pkt) == x.ula && pkt[7] > 1
    requires Forward.NextHop(ViewOf(roles, net, y), x, SessionTo(Some(z))) == Some(Session(w, 0))
    ensures Journey(roles, net, y, Some(z), pkt) == Journey(roles, net, w, Some(y), Spent(pkt, 1))
  {
    Forward.OnwardFields(Some(Session(z, 0)), pkt);
    var next := pkt[7 := pkt[7] - 1];
    assert Node(Destination(pkt)) == x;
    assert Handled(roles, net, y, Some(z), pkt) == Forward.Nothing.(sent := [(Session(w, 0), next)]);
  }

  /** The packet handed to y by z ends at o, and nothing else is delivered. */
  ghost predicate Delivers(roles: Roles, net: Net, y: Node, z: Node, pkt: Packet, o: Node, arrived: Packet)
    requires MeshNode(y)
  {
    Journey(roles, net, y, Some(z), pkt) == [(o, arrived)]
  }

  lemma {:induction false} Arrives(roles: Roles, net: Net, o: Node, z: Node, pkt: Packet)
    requires MeshNode(o) && o in roles.hosts && Control(pkt) && Destination(pkt) == o.ula
    ensures Delivers(roles, net, o, z, pkt, o, Spent(pkt, 0))
  {
    assert Handled(roles, net, o, Some(z), pkt) == Forward.Nothing.(local := [pkt]);
    SpentTwice(pkt, 0, 0);
  }

  lemma {:induction false} RelayDelivers(roles: Roles, net: Net, y: Node, z: Node, pkt: Packet, o: Node, w: Node, k: nat)
    requires MeshNode(y) && MeshNode(o) && MeshNode(w) && y != o && (w, y) in net.reg && (y, w) in net.reg && w != z
    requires Control(pkt) && Destination(pkt) == o.ula && k + 1 < pkt[7]
    requires Ula(o) in RibOf(net, y) && RibOf(net, y)[Ula(o)].next == w && RibOf(net, y)[Ula(o)].metric < ROUTE_INFINITY
    requires Delivers(roles, net, w, y, Spent(pkt, 1), o, Spent(Spent(pkt, 1), k))
    ensures Delivers(roles, net, y, z, pkt, o, Spent(pkt, k + 1))
  {
    NextHopVia(roles, net, y, o, w, Some(z));
    Forwarded(roles, net, y, z, pkt, o, w);
    SpentTwice(pkt, 1, k);
  }

  /** Next hops towards o lead to o, one hop at a time. */
  ghost predicate Homing(net: Net, o: Node) {
    forall y :: HomeAt(net, y, o)
  }

  ghost predicate HomeAt(net: Net, y: Node, o: Node) {
    && M(net, y, o) >= 0 && (M(net, y, o) == 0 <==> y == o)
    && (0 < M(net, y, o) < ROUTE_INFINITY ==>
          Ula(o) in RibOf(net, y) &&
          var w := RibOf(net, y)[Ula(o)].next;
          (y, w) in net.reg && (w, y) in net.reg && MeshNode(w) && M(net, w, o) == M(net, y, o) - 1)
  }

  lemma {:induction false} ConvergedIsHoming(net: Net, o: Node)
    requires Converged(net) && Addressed(net)
    ensures Homing(net, o)
  {
    hide Converged;
    forall y ensures HomeAt(net, y, o) {
      MetricRange(net, y, o);
      if 0 < M(net, y, o) < ROUTE_INFINITY {
        var w := NearerHop(net, y, o);
      }
    }
  }

  /** Ingress exclusion is no obstacle: the way back never leads through the
      node the packet came from. */
  lemma {:induction false} ReplyReturns(roles: Roles, net: Net, y: Node, z: Node, pkt: Packet, o: Node)
    requires Homing(net, o) && MeshNode(y) && MeshNode(o) && o in roles.hosts
    requires 0 <= M(net, y, o) < ROUTE_INFINITY && M(net, z, o) == M(net, y, o) + 1
    requires Control(pkt) && Destination(pkt) == o.ula && pkt[7] > M(net, y, o)
    ensures Delivers(roles, net, y, z, pkt, o, Spent(pkt, M(net, y, o)))
    decreases M(net, y, o)
  {
    hide Delivers;
    assert HomeAt(net, y, o);
    if y == o {
      Arrives(roles, net, o, z, pkt);
    } else {
      var w := RibOf(net, y)[Ula(o)].next;
      ReplyReturns(roles, net, w, y, Spent(pkt, 1), o);
      RelayDelivers(roles, net, y, z, pkt, o, w, M(net, w, o));
    }
  }

  // ---- a probe and its answer ---------------------------------------------

  /** An answer of the given kind from node a to the prober o. */
  predicate Answers(taps: seq<Packet>, a: Node, o: Node, kind: Reply) {
    |taps| == 1 && Acceptable(taps[0], o.ula) && Source(taps[0]) == a.ula && ReplyOf(taps[0]) == Some(kind)
  }

  predicate Probe(pkt: Packet, o: Node, d: Node) {
    Control(pkt) && IsEchoRequest(pkt) && Source(pkt) == o.ula && Destination(pkt) == d.ula
  }

  lemma {:induction false} TapOne(o: Node, pkt: Packet)
    ensures TapsAt(o, [(o, pkt)]) == [pkt]
  {
  }

  lemma {:induction false} ExpiryHandled(roles: Roles, net: Net, y: Node, z: Node, pkt: Packet, d: Node) returns (e: Packet)
    requires MeshNode(y) && MeshNode(d) && y != d && IsIPv6(pkt) && Destination(pkt) == d.ula && pkt[7] == 1
    requires IcmpError(pkt, y.ula, TIME_EXCEEDED, 0, Be32(0)).Some?
    ensures Handled(roles, net, y, Some(z), pkt) == Forward.Nothing.(sent := [(Session(z, 0), e)])
    ensures Some(e) == IcmpError(pkt, y.ula, TIME_EXCEEDED, 0, Be32(0))
  {
    hide WithChecksum;
    e := IcmpError(pkt, y.ula, TIME_EXCEEDED, 0, Be32(0)).value;
    IcmpErrorFields(pkt, y.ula, TIME_EXCEEDED, 0, Be32(0));
  }

  /** y delivers some packets locally and answers back to where it came from. */
  lemma {:induction false} Bounces(roles: Roles, net: Net, y: Node, z: Node, pkt: Packet, o: Node, local: seq<Packet>, e: Packet, r: Packet)
    requires MeshNode(y) && MeshNode(z) && (z, y) in net.reg && y != o && |local| <= 1
    requires Handled(roles, net, y, Some(z), pkt) == Forward.Nothing.(local := local, sent := [(Session(z, 0), e)])
    requires Delivers(roles, net, z, y, e, o, r)
    ensures TapsAt(o, Journey(roles, net, y, Some(z), pkt)) == [r]
  {
    hide Handled;
    if local == [] {
      assert Journey(roles, net, y, Some(z), pkt) == [(o, r)];
    } else {
      assert Journey(roles, net, y, Some(z), pkt) == [(y, local[0])] + [(o, r)];
      assert ([(y, local[0])] + [(o, r)])[1..] == [(o, r)];
    }
    TapOne(o, r);
  }

  /** y's error about o's probe answers o, however many hops it takes back. */
  lemma {:induction false} ErrorTravels(about: Packet, y: Node, o: Node, typ: byte, k: nat)
    requires MeshNode(y) && MeshNode(o) && IsIPv6(about) && IsEchoRequest(about) && Source(about) == o.ula
    requires typ in {DEST_UNREACH, TIME_EXCEEDED} && k < 64
    ensures IcmpError(about, y.ula, typ, 0, Be32(0)).Some?
    ensures var e := IcmpError(about, y.ula, typ, 0, Be32(0)).value;
            && Control(e) && Destination(e) == o.ula && e[7] == 64
            && Answers([Spent(e, k)], y, o, if typ == DEST_UNREACH then Unreachable else TimeExceeded)
  {
    ErrorWithheldIff(about, y.ula, typ, 0, Be32(0));
    hide IcmpError, Be32;
    IcmpErrorFields(about, y.ula, typ, 0, Be32(0));
  }

  /** The probe dies at y: the Time Exceeded gets back to the prober. */
  lemma {:induction false} Expires(roles: Roles, net: Net, y: Node, z: Node, pkt: Packet, o: Node, d: Node)
    requires Homing(net, o) && MeshNode(y) && MeshNode(z) && MeshNode(o) && MeshNode(d) && o in roles.hosts
    requires (z, y) in net.reg && y != d && y != o && Probe(pkt, o, d) && pkt[7] == 1
    requires 0 <= M(net, z, o) < ROUTE_INFINITY - 1 && M(net, y, o) == M(net, z, o) + 1
    ensures Answers(TapsAt(o, Journey(roles, net, y, Some(z), pkt)), y, o, TimeExceeded)
  {
    ErrorTravels(pkt, y, o, TIME_EXCEEDED, M(net, z, o));
    hide Handled, IcmpError, Journey, Delivers, TapsAt, Homing, Answers, ReplyOf, Be32;
    var e := ExpiryHandled(roles, net, y, z, pkt, d);
    ReplyReturns(roles, net, z, y, e, o);
    Bounces(roles, net, y, z, pkt, o, [], e, Spent(e, M(net, z, o)));
  }

  lemma {:induction false} EchoHandled(roles: Roles, net: Net, d: Node, z: Node, pkt: Packet) returns (e: Packet)
    requires MeshNode(d) && d !in roles.hosts && Control(pkt) && IsEchoRequest(pkt) && Destination(pkt) == d.ula
    ensures Some(e) == EchoReply(pkt)
    ensures Handled(roles, net, d, Some(z), pkt) == Forward.Nothing.(local := [pkt], sent := [(Session(z, 0), e)])
  {
    hide WithChecksum;
    EchoReplyFields(pkt);
    e := EchoReply(pkt).value;
  }

  /** The probe reaches d, which answers it itself. */
  lemma {:induction false} Echoes(roles: Roles, net: Net, d: Node, z: Node, pkt: Packet, o: Node)
    requires Converged(net) && Addressed(net) && MeshNode(z) && MeshNode(o) && MeshNode(d) && o in roles.hosts && d !in roles.hosts && o != d
    requires (z, d) in net.reg && Probe(pkt, o, d)
    requires 0 <= M(net, z, o) < ROUTE_INFINITY - 1 && M(net, d, o) == M(net, z, o) + 1
    ensures Answers(TapsAt(o, Journey(roles, net, d, Some(z), pkt)), d, o, EchoReplied)
  {
    hide Handled, WithChecksum, Journey, Delivers, TapsAt;
    EchoReplyFields(pkt);
    ConvergedIsHoming(net, o);
    var e := EchoHandled(roles, net, d, z, pkt);
    ReplyReturns(roles, net, z, d, e, o);
    Bounces(roles, net, d, z, pkt, o, [pkt], e, Spent(e, M(net, z, o)));
  }

  /** The node that answers a probe arriving at y with h hops left. */
  ghost function Answerer(net: Net, y: Node, d: Node, h: nat): Node
    decreases h
  {
    if y == d || h <= 1 || Ula(d) !in RibOf(net, y) then y
    else Answerer(net, RibOf(net, y)[Ula(d)].next, d, h - 1)
  }

  lemma {:induction false} ProbeAnswered(roles: Roles, net: Net, y: Node, z: Node, pkt: Packet, o: Node, d: Node)
    requires Converged(net) && Addressed(net) && MeshNode(y) && MeshNode(z) && MeshNode(o) && MeshNode(d)
    requires o in roles.hosts && d !in roles.hosts && (z, y) in net.reg && o != d
    requires M(net, o, d) < ROUTE_INFINITY && 0 <= M(net, z, o) && M(net, y, o) == M(net, z, o) + 1
    requires 0 <= M(net, y, d) && M(net, y, o) + M(net, y, d) == M(net, o, d) && M(net, z, d) == M(net, y, d) + 1
    requires Probe(pkt, o, d) && pkt[7] >= 1
    ensures Answers(TapsAt(o, Journey(roles, net, y, Some(z), pkt)), Answerer(net, y, d, pkt[7]), o,
                    if pkt[7] <= M(net, y, d) then TimeExceeded else EchoReplied)
    decreases M(net, y, d)
  {
    hide Journey, TapsAt, Answers, Forward.NextHop, Forward.HandlePacket;
    MetricRange(net, y, d);
    if y == d {
      Echoes(roles, net, d, z, pkt, o);
    } else if pkt[7] == 1 {
      ConvergedIsHoming(net, o);
      MetricRange(net, y, o);
      Expires(roles, net, y, z, pkt, o, d);
    } else {
      var w := ForwardsNearer(roles, net, y, d, Some(z));
      Forwarded(roles, net, y, z, pkt, d, w);
      FurtherFromOrigin(net, o, d, y, w);
      ProbeAnswered(roles, net, w, y, Spent(pkt, 1), o, d);
    }
  }

  // ---- the whole trace ----------------------------------------------------

  /** The nodes on the way from n to x, both included. */
  ghost function PathTo(net: Net, n: Node, x: Node): (path: seq<Node>)
    requires Converged(net) && M(net, n, x) < ROUTE_INFINITY
    ensures path != []
  {
    ConvergedFacts(net);
    MetricRange(net, n, x);
    Convergence.ChainReachesOwner(net, n, x);
    Convergence.Chain(net, n, x)
  }

  /** A path is as long as the metric says, and a probe with h hops left is
      answered by its node h hops on, at most by the last. */
  lemma {:induction false} AnswererOnPath(net: Net, y: Node, d: Node, h: nat)
    requires Converged(net) && M(net, y, d) < ROUTE_INFINITY && h >= 1
    ensures M(net, y, d) >= 0 && |PathTo(net, y, d)| == M(net, y, d) + 1
    ensures Answerer(net, y, d, h) == PathTo(net, y, d)[if h - 1 <= M(net, y, d) then h - 1 else M(net, y, d)]
    decreases h + M(net, y, d)
  {
    MetricRange(net, y, d);
    if y != d {
      var w := NearerHop(net, y, d);
      assert PathTo(net, y, d) == [y] + PathTo(net, w, d);
      AnswererOnPath(net, w, d, if h > 1 then h - 1 else 1);
    }
  }

  lemma {:induction false} Injected(roles: Roles, net: Net, o: Node, d: Node, w: Node, pkt: Packet)
    requires MeshNode(o) && MeshNode(d) && MeshNode(w) && o != d && (w, o) in net.reg && Probe(pkt, o, d)
    requires Forward.NextHop(ViewOf(roles, net, o), d, None) == Some(Session(w, 0))
    ensures Journey(roles, net, o, None, pkt) == Journey(roles, net, w, Some(o), pkt)
  {
    Forward.OnwardFields(None, pkt);
    assert Node(Destination(pkt)) == d;
    assert Handled(roles, net, o, None, pkt) == Forward.Nothing.(sent := [(Session(w, 0), pkt)]);
  }

  lemma {:induction false} AnsweredHop(taps: seq<Packet>, a: Node, o: Node, kind: Reply, ttl: nat)
    requires Answers(taps, a, o, kind)
    ensures HopFrom(taps, o.ula, ttl) == Hop(ttl, a.ula, kind)
  {
  }

  lemma {:induction false} ProbeIsSent(o: Node, d: Node, ttl: nat)
    requires MeshNode(o) && MeshNode(d) && ttl <= 255
    ensures var pkt := EchoProbe(o.ula, d.ula, ttl % 256, ttl); Probe(pkt, o, d) && pkt[7] == ttl
  {
    hide EchoProbe;
    EchoProbeFields(o.ula, d.ula, ttl % 256, ttl);
  }

  lemma {:induction false} ProbeSent(roles: Roles, net: Net, o: Node, d: Node, ttl: nat) returns (w: Node, pkt: Packet)
    requires Converged(net) && Addressed(net) && MeshNode(o) && MeshNode(d) && o != d
    requires M(net, o, d) < ROUTE_INFINITY && 1 <= ttl <= 255
    ensures MeshNode(w) && (o, w) in net.reg && (w, o) in net.reg
    ensures Ula(d) in RibOf(net, o) && RibOf(net, o)[Ula(d)].next == w && M(net, w, d) == M(net, o, d) - 1
    ensures Probe(pkt, o, d) && pkt[7] == ttl
    ensures Taps(roles, net, o, d, ttl) == TapsAt(o, Journey(Attached(roles, o), net, w, Some(o), pkt))
  {
    hide Journey, TapsAt, EchoProbe, ViewOf, Forward.NextHop, Probe, Converged;
    MetricRange(net, o, d);
    w := ForwardsNearer(Attached(roles, o), net, o, d, None);
    pkt := EchoProbe(o.ula, d.ula, ttl % 256, ttl);
    ProbeIsSent(o, d, ttl);
    Injected(Attached(roles, o), net, o, d, w, pkt);
  }

  /** The hop recorded for one hop limit. */
  lemma {:induction false} HopExact(roles: Roles, net: Net, o: Node, d: Node, ttl: nat)
    requires Converged(net) && Addressed(net) && MeshNode(o) && MeshNode(d) && o != d && d !in roles.hosts
    requires M(net, o, d) < ROUTE_INFINITY && 1 <= ttl <= 255 && ttl <= M(net, o, d)
    ensures |PathTo(net, o, d)| == M(net, o, d) + 1
    ensures HopFrom(Taps(roles, net, o, d, ttl), o.ula, ttl)
            == Hop(ttl, PathTo(net, o, d)[ttl].ula, if ttl < M(net, o, d) then TimeExceeded else EchoReplied)
  {
    hide Journey, TapsAt, HopFrom, Taps;
    var w, pkt := ProbeSent(roles, net, o, d, ttl);
    PeerIsOneHop(net, w, o);
    MetricRange(net, w, d);
    ProbeAnswered(Attached(roles, o), net, w, o, pkt, o, d);
    AnswererOnPath(net, w, d, ttl);
    assert PathTo(net, o, d) == [o] + PathTo(net, w, d);
    AnsweredHop(Taps(roles, net, o, d, ttl), Answerer(net, w, d, ttl), o, if ttl < M(net, o, d) then TimeExceeded else EchoReplied, ttl);
  }

  /** On a converged mesh, tracing a node k hops away that answers for itself
      lists the first k nodes of the next-hop path, each reporting time
      exceeded except the last, which is the destination's own echo reply; a
      lower limit cuts the list short. */
  lemma {:induction false} TraceIsExact(roles: Roles, net: Net, o: Node, d: Node, k: int, maxTTL: int, hops: seq<Hop>, reach: bool)
    requires Converged(net) && Addressed(net) && MeshNode(o) && MeshNode(d) && d !in roles.hosts
    requires Distant(net.reg, k, o, d) && 0 < k < 16
    requires Traced(ttl => Taps(roles, net, o, d, ttl), o.ula, maxTTL, hops, reach)
    ensures M(net, o, d) == k && |PathTo(net, o, d)| == k + 1
    ensures |hops| == (if k <= Limit(maxTTL) then k else Limit(maxTTL)) && (reach <==> k <= Limit(maxTTL))
    ensures forall i | 0 <= i < |hops| ::
              hops[i] == Hop(i + 1, PathTo(net, o, d)[i + 1].ula, if i + 1 < k then TimeExceeded else EchoReplied)
  {
    hide Taps, HopFrom, Converged, Addressed, RibOf;
    DistanceIsMetric(net, o, d, k);
    HopExact(roles, net, o, d, 1);
    var taps: nat -> seq<Packet> := ttl => Taps(roles, net, o, d, ttl);
    forall i | 0 <= i < |hops| && i < k
      ensures hops[i] == Hop(i + 1, PathTo(net, o, d)[i + 1].ula, if i + 1 < k then TimeExceeded else EchoReplied)
    {
      HopExact(roles, net, o, d, i + 1);
      assert taps(i + 1) == Taps(roles, net, o, d, i + 1);
    }
    assert k <= |hops| ==> hops[k - 1].reply == EchoReplied;
    assert |hops| < k ==> hops[|hops| - 1].reply == TimeExceeded;
  }
}
