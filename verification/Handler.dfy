// The handling of Forward as the program performs it: on a byte buffer whose
// hop limit it counts down in place.
module Handler {
  import opened Base
  import opened Router
  import opened Checksum
  import opened Packets
  import opened Forward
  import Buffers
  import Mss

  /** The routing state a handling sees is the node's own. */
  ghost predicate Sees(v: View, node: Router)
    reads node
  {
    v.self == node.self && v.exit == node.exit && v.rib == node.routes && v.sessions == node.sessions
  }

  method HandlePacket(node: Router, v: View, from: Option<Session>, pkt: array<byte>, fwd: Conn, back: Conn)
    returns (o: Outcome)
    requires ValidView(v) && Sees(v, node)
    modifies pkt
    ensures o == Forward.HandlePacket(v, from, old(pkt[..]), fwd, back)
    ensures forall k | 0 <= k < pkt.Length && k != 7 :: pkt[k] == old(pkt[k])
  {
    if pkt.Length == 0 {
      return Nothing;
    }
    var ver := pkt[0] / 16;
    if ver == 4 {
      o := HandleExitFromTUN(node, v, from, pkt, fwd, back);
    } else if ver == 6 {
      o := HandleIPv6(node, v, from, pkt, fwd, back);
    } else {
      o := Nothing;
    }
  }

  method ClampInnerTCPMSS(pkt: array<byte>) returns (out: array<byte>)
    ensures out[..] == ClampInner(pkt[..])
    ensures out == pkt || fresh(out)
  {
    if pkt.Length == 0 {
      return pkt;
    }
    var ver := pkt[0] / 16;
    if ver == 6 {
      out := Mss.ClampTCPMSS(pkt, INNER_TCP_MSS);
    } else if ver == 4 {
      out := Mss.ClampIPv4TCPMSS(pkt, INNER_TCP_MSS);
    } else {
      out := pkt;
    }
  }

  method HandleExitFromTUN(node: Router, v: View, from: Option<Session>, pkt: array<byte>, fwd: Conn, back: Conn)
    returns (o: Outcome)
    requires ValidView(v) && Sees(v, node)
    ensures o == Forward.HandleExitFromTUN(v, from, pkt[..], fwd, back)
    decreases 1
  {
    if from.Some? || v.exitAddr.None? {
      return Nothing;
    }
    var inner := ClampInnerTCPMSS(pkt);
    var outer := Buffers.EncapsulateExitBuffer(v.self.ula, v.exitAddr.value.ula, inner[..]);
    if outer == null {
      return Nothing;
    }
    EncapsulatedFields(v.self.ula, v.exitAddr.value.ula, ClampInner(pkt[..]));
    o := HandleIPv6(node, v, None, outer, fwd, back);
  }

  method HandleIPv6(node: Router, v: View, from: Option<Session>, pkt: array<byte>, fwd: Conn, back: Conn)
    returns (o: Outcome)
    requires ValidView(v) && Sees(v, node)
    modifies pkt
    ensures o == Forward.HandleIPv6(v, from, old(pkt[..]), fwd, back)
    ensures forall k | 0 <= k < pkt.Length && k != 7 :: pkt[k] == old(pkt[k])
    decreases Order(pkt[..])
  {
    if pkt.Length < IPV6_HEADER || pkt[0] / 16 != 6 {
      return Nothing;
    }
    var dst := pkt[24..40];
    assert dst == Destination(pkt[..]);
    if dst == v.self.ula {
      var tunnel := DecapsulateExit(pkt[..], v.self.ula);
      if tunnel.Some? {
        if v.exit {
          return Nothing.(egress := [(Node(tunnel.value.0), tunnel.value.1)]);
        }
        if v.exitNode {
          return Nothing.(local := [tunnel.value.1]);
        }
      }
    }
    if !MeshAddress(dst) {
      if from.None? && v.exitNode {
        o := HandleExitFromTUN(node, v, None, pkt, fwd, back);
      } else {
        o := Nothing;
      }
      return;
    }
    if dst == RESOLVER {
      return Nothing;
    }
    if dst == v.self.ula {
      if from.None? {
        return Nothing;
      }
      o := Nothing.(local := [pkt[..]]);
      if v.host {
        return;
      }
      var reply := Buffers.EchoReplyBuffer(pkt[..]);
      if reply != null && WritePacket(reply[..], back).Accepts? {
        o := o.(sent := [(from.value, reply[..])]);
      }
      return;
    }
    o := Onwards(node, v, from, pkt, fwd, back);
  }

  method SendICMPError(v: View, from: Option<Session>, pkt: seq<byte>, typ: byte, param: nat, back: Conn) returns (o: Outcome)
    requires ValidView(v)
    ensures o == SendError(v, from, pkt, typ, param, back)
  {
    var reply := Buffers.IcmpErrorBuffer(pkt, v.self.ula, typ, 0, Be32(param));
    if reply == null {
      return Nothing;
    }
    if from.None? {
      return Nothing.(local := [reply[..]]);
    }
    o := Nothing;
    if WritePacket(reply[..], back).Accepts? {
      o := Nothing.(sent := [(from.value, reply[..])]);
    }
  }

  /** The forwarding branch: hop limit, MSS, next hop, write, errors. */
  method Onwards(node: Router, v: View, from: Option<Session>, pkt: array<byte>, fwd: Conn, back: Conn)
    returns (o: Outcome)
    requires ValidView(v) && Sees(v, node) && IsIPv6(pkt[..])
    modifies pkt
    ensures o == ForwardPacket(v, from, old(pkt[..]), fwd, back)
    ensures forall k | 0 <= k < pkt.Length && k != 7 :: pkt[k] == old(pkt[k])
  {
    hide Mss.Clamped, PickNextHop, SendError;
    var dst := pkt[24..40];
    assert dst == Destination(pkt[..]);
    if from.Some? {
      if pkt[7] <= 1 {
        o := SendICMPError(v, from, pkt[..], TIME_EXCEEDED, 0, back);
        return;
      }
      pkt[7] := pkt[7] - 1;
    }
    var clamped := Mss.ClampTCPMSS(pkt, TCP_MSS);
    assert clamped[..] == Onward(from, old(pkt[..]));
    var next := node.NextHop(Node(dst), from);
    if next.None? {
      o := SendICMPError(v, from, clamped[..], DEST_UNREACH, 0, back);
      return;
    }
    var written := WritePacket(clamped[..], fwd);
    if written.Accepts? {
      return Nothing.(sent := [(next.value, clamped[..])]);
    }
    if written.Fails? {
      return Nothing;
    }
    var mtu := if 0 < written.limit < MTU then written.limit else MTU;
    o := SendICMPError(v, from, clamped[..], PACKET_TOO_BIG, mtu, back);
  }
}
