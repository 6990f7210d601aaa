// Traceroute over a converged mesh: the probes of internal/node/traceroute.go
// carried by Forward over the tables of Mesh.
module Trace {
  import opened Base
  import opened Rib
  import opened Router
  import opened Mesh
  import opened Packets
  import Checksum
  import Forward

  /** Which nodes have a TUN or stack, are exits, or use an exit. */
  datatype Roles = Roles(hosts: set<Node>, exits: set<Node>, clients: set<Node>)

  function PeersOf(net: Net, n: Node): set<Node> {
    set l | l in net.reg && l.0 == n :: l.1
  }

  function SessionsOf(net: Net, n: Node): map<Node, Session> {
    map p | p in PeersOf(net, n) :: Session(p, 0)
  }

  function ViewOf(roles: Roles, net: Net, n: Node): Forward.View {
    Forward.View(n, n in roles.exits, n in roles.clients, None, n in roles.hosts, RibOf(net, n), SessionsOf(net, n))
  }

  predicate MeshNode(n: Node) {
    MeshAddress(n.ula) && n.ula != Forward.RESOLVER
  }

  function Energy(from: Option<Node>, pkt: Packet): nat {
    if from.None? then Forward.HEAVIEST + 1
    else if |pkt| >= Checksum.IPV6_HEADER then Forward.Weight(pkt) else 0
  }

  function SessionTo(from: Option<Node>): Option<Session> {
    if from.Some? then Some(Session(from.value, 0)) else None
  }

  function Handled(roles: Roles, net: Net, at: Node, from: Option<Node>, pkt: Packet): Forward.Outcome
    requires MeshNode(at)
  {
    Forward.HandlePacket(ViewOf(roles, net, at), SessionTo(from), pkt, Forward.Accepts, Forward.Accepts)
  }

  /** Every local delivery a packet leads to, by node, with no loss on the way. */
  function Journey(roles: Roles, net: Net, at: Node, from: Option<Node>, pkt: Packet): seq<(Node, Packet)>
    requires MeshNode(at)
    decreases Energy(from, pkt)
  {
    var o := Handled(roles, net, at, from, pkt);
    Forward.HandlingSendsLighter(ViewOf(roles, net, at), SessionTo(from), pkt, Forward.Accepts, Forward.Accepts);
    seq(|o.local|, i requires 0 <= i < |o.local| => (at, o.local[i])) +
    if o.sent != [] && (o.sent[0].0.peer, at) in net.reg && MeshNode(o.sent[0].0.peer)
    then Journey(roles, net, o.sent[0].0.peer, Some(at), o.sent[0].1)
    else []
  }

  function TapsAt(n: Node, ds: seq<(Node, Packet)>): seq<Packet> {
    if ds == [] then []
    else (if ds[0].0 == n then [ds[0].1] else []) + TapsAt(n, ds[1..])
  }

  // ---- the prober ---------------------------------------------------------

  datatype Reply = TimeExceeded | EchoReplied | Unreachable | Timeout

  datatype Hop = Hop(ttl: nat, ula: seq<byte>, reply: Reply)

  function ReplyOf(pkt: Packet): Option<Reply>
    requires |pkt| > Checksum.IPV6_HEADER
  {
    if pkt[40] == TIME_EXCEEDED then Some(TimeExceeded)
    else if pkt[40] == ECHO_REPLY then Some(EchoReplied)
    else if pkt[40] == DEST_UNREACH then Some(Unreachable)
    else None
  }

  predicate ForUs(pkt: Packet, src: seq<byte>) {
    |pkt| > Checksum.IPV6_HEADER && Destination(pkt) == src
  }

  predicate Acceptable(pkt: Packet, src: seq<byte>) {
    ForUs(pkt, src) && ReplyOf(pkt).Some?
  }

  /** The first packet at the tap that answers the prober, else a timeout. The
      address of a packet that does not answer stays in the hop until then. */
  function HopAfter(taps: seq<Packet>, src: seq<byte>, ttl: nat, ula: seq<byte>): Hop {
    if taps == [] then Hop(ttl, ula, Timeout)
    else if !ForUs(taps[0], src) then HopAfter(taps[1..], src, ttl, ula)
    else if ReplyOf(taps[0]).Some? then Hop(ttl, Source(taps[0]), ReplyOf(taps[0]).value)
    else HopAfter(taps[1..], src, ttl, Source(taps[0]))
  }

  function HopFrom(taps: seq<Packet>, src: seq<byte>, ttl: nat): Hop {
    HopAfter(taps, src, ttl, [])
  }

  /** A hop times out exactly when nothing arrives that answers the probe. It
      names a node all the same exactly when something else addressed to the
      prober arrived. */
  lemma TimeoutIff(taps: seq<Packet>, src: seq<byte>, ttl: nat)
    ensures var hop := HopFrom(taps, src, ttl);
            && (hop.reply == Timeout <==> forall i | 0 <= i < |taps| :: !Acceptable(taps[i], src))
            && (hop.reply == Timeout ==> (hop.ula != [] <==> exists i :: 0 <= i < |taps| && ForUs(taps[i], src)))
  {
    TimeoutAfter(taps, src, ttl, []);
  }

  lemma {:induction false} TimeoutAfter(taps: seq<Packet>, src: seq<byte>, ttl: nat, ula: seq<byte>)
    ensures var hop := HopAfter(taps, src, ttl, ula);
            && (hop.reply == Timeout <==> forall i | 0 <= i < |taps| :: !Acceptable(taps[i], src))
            && (hop.reply == Timeout ==> (hop.ula != [] <==> ula != [] || exists i :: 0 <= i < |taps| && ForUs(taps[i], src)))
  {
    if taps != [] {
      var rest := taps[1..];
      assert forall i | 0 <= i < |rest| :: rest[i] == taps[i + 1];
      assert forall i | 0 < i < |taps| :: taps[i] == rest[i - 1];
      if !Acceptable(taps[0], src) {
        TimeoutAfter(rest, src, ttl, if ForUs(taps[0], src) then Source(taps[0]) else ula);
        if ForUs(taps[0], src) {
          assert |Source(taps[0])| == 16;
        }
      }
    }
  }

  // ---- read off the packets' bytes ----------------------------------------

  /** An ICMPv6 destination unreachable, time exceeded or echo reply for src. */
  predicate Answer(pkt: Packet, src: seq<byte>) {
    |pkt| > 40 && pkt[24..40] == src && pkt[40] in {1, 3, 129}
  }

  function FirstAnswer(taps: seq<Packet>, src: seq<byte>): (p: Option<Packet>)
    ensures p.Some? ==> Answer(p.value, src)
  {
    if taps == [] then None else if Answer(taps[0], src) then Some(taps[0]) else FirstAnswer(taps[1..], src)
  }

  function Kind(icmp: byte): Reply
    requires icmp in {1, 3, 129}
  {
    if icmp == 1 then Unreachable else if icmp == 3 then TimeExceeded else EchoReplied
  }

  /** A hop read off an answer: its address and its type. */
  predicate HopReads(hop: Hop, answer: Option<Packet>) {
    match answer
    case None => hop.reply == Timeout
    case Some(p) => |p| > 40 && p[40] in {1, 3, 129} && hop.ula == p[8..24] && hop.reply == Kind(p[40])
  }

  lemma {:induction false} HopIsFirstAnswer(taps: seq<Packet>, src: seq<byte>, ttl: nat, ula: seq<byte>)
    ensures var hop := HopAfter(taps, src, ttl, ula);
            hop.ttl == ttl && HopReads(hop, FirstAnswer(taps, src))
  {
    if taps != [] && !Answer(taps[0], src) {
      HopIsFirstAnswer(taps[1..], src, ttl, if ForUs(taps[0], src) then Source(taps[0]) else ula);
    }
  }

  /** A hop that timed out carries the address of the last packet for the
      prober, whatever it was. */
  lemma {:induction false} TimeoutAddress(taps: seq<Packet>, src: seq<byte>, ttl: nat, ula: seq<byte>, i: nat)
    requires HopAfter(taps, src, ttl, ula).reply == Timeout && i < |taps|
    requires |taps[i]| > 40 && taps[i][24..40] == src
    requires forall j | i < j < |taps| :: !(|taps[j]| > 40 && taps[j][24..40] == src)
    ensures HopAfter(taps, src, ttl, ula).ula == taps[i][8..24]
  {
    if i > 0 {
      TimeoutAddress(taps[1..], src, ttl, if ForUs(taps[0], src) then Source(taps[0]) else ula, i - 1);
    } else {
      NothingForUs(taps[1..], src, ttl, Source(taps[0]));
    }
  }

  lemma {:induction false} NothingForUs(taps: seq<Packet>, src: seq<byte>, ttl: nat, ula: seq<byte>)
    requires forall p | p in taps :: !(|p| > 40 && p[24..40] == src)
    ensures HopAfter(taps, src, ttl, ula) == Hop(ttl, ula, Timeout)
  {
    if taps != [] {
      NothingForUs(taps[1..], src, ttl, ula);
    }
  }

  /** The prober is reachable: it has a TUN, its own or one attached for this. */
  function Attached(roles: Roles, origin: Node): Roles {
    roles.(hosts := roles.hosts + {origin})
  }

  /** What the prober's tap receives after it injects the probe with this hop
      limit (truncated to a byte) into the mesh. */
  function Taps(roles: Roles, net: Net, origin: Node, dst: Node, ttl: nat): seq<Packet>
    requires MeshNode(origin) && Address(dst.ula)
  {
    TapsAt(origin, Journey(Attached(roles, origin), net, origin, None, EchoProbe(origin.ula, dst.ula, ttl % 256, ttl)))
  }

  function Limit(maxTTL: int): nat {
    if maxTTL <= 0 then 32 else if maxTTL > 255 then 255 else maxTTL
  }

  method AwaitReply(taps: seq<Packet>, src: seq<byte>, ttl: nat) returns (hop: Hop)
    ensures hop == HopFrom(taps, src, ttl)
  {
    hop := Hop(ttl, [], Timeout);
    var i := 0;
    while i < |taps|
      invariant i <= |taps| && hop.ttl == ttl && hop.reply == Timeout
      invariant HopFrom(taps, src, ttl) == HopAfter(taps[i..], src, ttl, hop.ula)
    {
      if ForUs(taps[i], src) {
        hop := hop.(ula := Source(taps[i]));
        if ReplyOf(taps[i]).Some? {
          return hop.(reply := ReplyOf(taps[i]).value);
        }
      }
      i := i + 1;
    }
  }

  /** What the probe loop reports: a hop per probe sent, the last one and only
      that one possibly an echo reply. */
  ghost predicate Traced(taps: nat -> seq<Packet>, src: seq<byte>, maxTTL: int, hops: seq<Hop>, reach: bool) {
    && 0 < |hops| <= Limit(maxTTL)
    && (forall i | 0 <= i < |hops| :: hops[i] == HopFrom(taps(i + 1), src, i + 1))
    && (forall i | 0 <= i < |hops| - 1 :: hops[i].reply != EchoReplied)
    && (reach <==> hops[|hops| - 1].reply == EchoReplied)
    && (!reach ==> |hops| == Limit(maxTTL))
  }

  /** What a finished trace says, read off the packets' bytes: probes with hop
      limit 1, 2 and so on, the first answer to each, and an end at the first
      echo reply, or else after 32 hops or as many as asked for, at most 255. */
  lemma {:induction false} TracedMeans(taps: nat -> seq<Packet>, src: seq<byte>, maxTTL: int, hops: seq<Hop>, reach: bool)
    requires Traced(taps, src, maxTTL, hops, reach)
    ensures forall i | 0 <= i < |hops| ::
              && hops[i].ttl == i + 1 && HopReads(hops[i], FirstAnswer(taps(i + 1), src))
              && (Reached(FirstAnswer(taps(i + 1), src)) <==> reach && i == |hops| - 1)
    ensures var most := if maxTTL <= 0 then 32 else if maxTTL > 255 then 255 else maxTTL;
            |hops| <= most && (!reach ==> |hops| == most)
  {
    forall i | 0 <= i < |hops|
      ensures hops[i].ttl == i + 1 && HopReads(hops[i], FirstAnswer(taps(i + 1), src))
      ensures Reached(FirstAnswer(taps(i + 1), src)) <==> reach && i == |hops| - 1
    {
      HopIsFirstAnswer(taps(i + 1), src, i + 1, []);
      assert hops[i] == HopFrom(taps(i + 1), src, i + 1);
      assert Reached(FirstAnswer(taps(i + 1), src)) <==> hops[i].reply == EchoReplied;
    }
  }

  predicate Reached(answer: Option<Packet>) {
    answer.Some? && |answer.value| > 40 && answer.value[40] == 129
  }

  /** The probe loop over any network: taps(ttl) is what arrives before the
      deadline once the probe with that hop limit is out. */
  method TraceRoute(taps: nat -> seq<Packet>, src: seq<byte>, maxTTL: int) returns (hops: seq<Hop>, reach: bool)
    ensures Traced(taps, src, maxTTL, hops, reach)
  {
    hops, reach := [], false;
    var ttl := 1;
    while ttl <= Limit(maxTTL) && !reach
      invariant ttl == |hops| + 1 && ttl <= Limit(maxTTL) + 1
      invariant forall i | 0 <= i < |hops| :: hops[i] == HopFrom(taps(i + 1), src, i + 1)
      invariant forall i | 0 <= i < |hops| - 1 :: hops[i].reply != EchoReplied
      invariant reach <==> hops != [] && hops[|hops| - 1].reply == EchoReplied
      decreases Limit(maxTTL) + 1 - ttl
    {
      var hop := AwaitReply(taps(ttl), src, ttl);
      hops := hops + [hop];
      reach := hop.reply == EchoReplied;
      ttl := ttl + 1;
    }
  }
}
