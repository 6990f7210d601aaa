// The packets the overlay builds itself: UDP replies, ICMPv6 errors and
// replies, traceroute probes and exit-tunnel wrappers.
module Packets {
  import opened Base
  import opened Checksum

  type Packet = seq<byte>

  const MTU := 1280
  const NEXT_HEADER_IPV4: byte := 4
  const NEXT_HEADER_IPV6: byte := 41
  const DEST_UNREACH: byte := 1
  const PACKET_TOO_BIG: byte := 2
  const TIME_EXCEEDED: byte := 3
  const ECHO_REQUEST: byte := 128
  const ECHO_REPLY: byte := 129
  const REPLY_HOP_LIMIT: byte := 64

  predicate Address(a: seq<byte>) {
    |a| == 16
  }

  /** fd00::/8 */
  predicate MeshAddress(a: seq<byte>) {
    |a| == 16 && a[0] == 0xfd
  }

  predicate IsIPv6(p: Packet) {
    |p| >= IPV6_HEADER && p[0] / 16 == 6
  }

  function Source(p: Packet): seq<byte>
    requires |p| >= IPV6_HEADER
  {
    p[8..24]
  }

  function Destination(p: Packet): seq<byte>
    requires |p| >= IPV6_HEADER
  {
    p[24..40]
  }

  /** Version 6, no traffic class or flow label, and this payload length. */
  predicate Plainly(p: Packet, plen: nat)
    requires |p| >= 40
  {
    p[0] == 0x60 && p[1] == 0 && p[2] == 0 && p[3] == 0 && p[4] as int * 256 + p[5] == plen % 0x10000
  }

  function Header(plen: nat, next: byte, hop: byte, src: seq<byte>, dst: seq<byte>): (h: Packet)
    requires Address(src) && Address(dst)
    ensures |h| == IPV6_HEADER && IsIPv6(h) && h[6] == next && h[7] == hop
    ensures Source(h) == src && Destination(h) == dst
    ensures Plainly(h, plen)
  {
    var h := [0x60, 0, 0, 0] + Be16(plen) + [next, hop] + src + dst;
    assert h[8..24] == src && h[24..40] == dst;
    h
  }

  /** The transport checksum stored at an even offset that held zero. */
  function WithChecksum(p: Packet, at: nat, proto: byte): (r: Packet)
    requires IPV6_HEADER <= at && at + 2 <= |p|
    ensures |r| == |p| && forall k | 0 <= k < |p| && k != at && k != at + 1 :: r[k] == p[k]
  {
    Put16(p, at, TransportChecksum(p, proto))
  }

  /** A packet built from a header and a body with a zero checksum field keeps
      both around the checksum, which its receiver accepts. */
  lemma Built(h: Packet, body: seq<byte>, at: nat, proto: byte)
    requires |h| == IPV6_HEADER && IsIPv6(h) && IPV6_HEADER <= at && at % 2 == 0 && at + 2 <= 40 + |body| && |body| <= 0xffff
    requires body[at - 40] == 0 && body[at - 39] == 0
    ensures var p := WithChecksum(h + body, at, proto);
            && |p| == 40 + |body| && IsIPv6(p) && p[..8] == h[..8] && Source(p) == Source(h) && Destination(p) == Destination(h)
            && p[40..at] == body[..at - 40] && p[at + 2..] == body[at - 38..]
            && Verifies6(p, proto)
  {
    hide TransportChecksum, Verifies6;
    var u := h + body;
    var p := WithChecksum(u, at, proto);
    assert u[..40] == h && p[..40] == h;
    assert p[..8] == p[..40][..8] && p[8..24] == p[..40][8..24] && p[24..40] == p[..40][24..40];
    assert p[40..at] == u[40..at] && p[at + 2..] == u[at + 2..];
    StoredChecksumVerifies(u, proto, at);
  }

  // ---- UDP ----------------------------------------------------------------

  datatype Datagram = Datagram(src: seq<byte>, dst: seq<byte>, sport: nat, dport: nat, payload: seq<byte>)

  predicate ValidDatagram(d: Datagram) {
    Address(d.src) && Address(d.dst) && d.sport <= 0xffff && d.dport <= 0xffff
  }

  function UnsummedUdp6(d: Datagram): (p: Packet)
    requires ValidDatagram(d)
  {
    var len := 8 + |d.payload|;
    Header(len, NEXT_HEADER_UDP, REPLY_HOP_LIMIT, d.src, d.dst) + Be16(d.sport) + Be16(d.dport) + Be16(len) + [0, 0] + d.payload
  }

  function Udp6(d: Datagram): Packet
    requires ValidDatagram(d)
  {
    WithChecksum(UnsummedUdp6(d), 46, NEXT_HEADER_UDP)
  }

  function ParseUDP6(p: Packet): Option<Datagram> {
    if |p| < IPV6_HEADER + 8 || !IsIPv6(p) || p[6] != NEXT_HEADER_UDP then None else
    var len := Word(p, 44);
    if len < 8 || IPV6_HEADER + len > |p| then None
    else Some(Datagram(Source(p), Destination(p), Word(p, 40), Word(p, 42), p[48..IPV6_HEADER + len]))
  }

  lemma Be16Word(v: nat)
    ensures Word(Be16(v), 0) == v % 0x10000
  {
  }

  lemma UdpFields(d: Datagram)
    requires ValidDatagram(d)
    ensures var p := Udp6(d);
            && |p| == 48 + |d.payload| && IsIPv6(p) && Plainly(p, |p| - 40) && p[6] == 17 && p[7] == 64
            && Source(p) == d.src && Destination(p) == d.dst
            && Word(p, 40) == d.sport && Word(p, 42) == d.dport && Word(p, 44) == (8 + |d.payload|) % 0x10000
            && p[48..] == d.payload
  {
    hide TransportChecksum, Header;
    var len := 8 + |d.payload|;
    var u := UnsummedUdp6(d);
    var h := Header(len, NEXT_HEADER_UDP, REPLY_HOP_LIMIT, d.src, d.dst);
    assert u[..40] == h && u[40..42] == Be16(d.sport) && u[42..44] == Be16(d.dport) && u[44..46] == Be16(len) && u[48..] == d.payload;
    Be16Word(d.sport);
    Be16Word(d.dport);
    Be16Word(len);
    var p := Udp6(d);
    assert p[..40] == h && p[48..] == u[48..];
    assert p[8..24] == h[8..24] && p[24..40] == h[24..40];
    assert Word(u, 40) == Word(u[40..42], 0) && Word(u, 42) == Word(u[42..44], 0) && Word(u, 44) == Word(u[44..46], 0);
  }

  /** Building and parsing are inverse exactly when the UDP length fits its
      field. */
  lemma UdpRoundTripIff(d: Datagram)
    requires ValidDatagram(d)
    ensures ParseUDP6(Udp6(d)) == Some(d) <==> 8 + |d.payload| <= 0xffff
  {
    UdpFields(d);
    var p := Udp6(d);
    var len := (8 + |d.payload|) % 0x10000;
    if 8 + |d.payload| <= 0xffff {
      assert p[48..IPV6_HEADER + len] == p[48..];
    } else if len >= 8 {
      assert |p[48..IPV6_HEADER + len]| == len - 8;
    }
  }

  /** Exactly what is read as a datagram: an IPv6 packet of protocol 17 with a
      UDP length of at least 8 that fits it, whatever follows. */
  lemma {:induction false} ParsesAsUdpIff(p: Packet, d: Datagram)
    ensures ParseUDP6(p) == Some(d) <==>
            && |p| >= 48 && p[0] / 16 == 6 && p[6] == 17
            && |p| >= 48 + |d.payload| && Number(p[44..46]) == 8 + |d.payload|
            && p[8..24] == d.src && p[24..40] == d.dst && Number(p[40..42]) == d.sport && Number(p[42..44]) == d.dport
            && p[48..48 + |d.payload|] == d.payload
  {
    if |p| >= 48 {
      WordIsNumber(p, 40);
      WordIsNumber(p, 42);
      WordIsNumber(p, 44);
    }
  }

  lemma WordIsNumber(p: Packet, i: nat)
    requires i + 2 <= |p|
    ensures Number(p[i..i + 2]) == Word(p, i)
  {
    hide Number;
    NumberOfNothing();
    OneDigitMore([], p[i]);
    OneDigitMore([] + [p[i]], p[i + 1]);
    assert p[i..i + 2] == [] + [p[i]] + [p[i + 1]];
  }

  lemma UdpChecksumVerifies(d: Datagram)
    requires ValidDatagram(d) && 8 + |d.payload| <= 0xffff
    ensures Verifies6(Udp6(d), NEXT_HEADER_UDP)
  {
    StoredChecksumVerifies(UnsummedUdp6(d), NEXT_HEADER_UDP, 46);
  }

  // ---- ICMPv6 -------------------------------------------------------------

  /** An ICMPv6 error message: type below 128. */
  predicate IsIcmpError(p: Packet) {
    |p| > IPV6_HEADER && p[6] == NEXT_HEADER_ICMPV6 && p[40] < 128
  }

  predicate IsEchoRequest(p: Packet) {
    |p| >= IPV6_HEADER + 8 && p[6] == NEXT_HEADER_ICMPV6 && p[40] == ECHO_REQUEST
  }

  /** An IPv4 address in 16 bytes, which the address tests read as IPv4. */
  predicate Mapped(a: seq<byte>)
    requires Address(a)
  {
    (forall i | 0 <= i < 10 :: a[i] == 0) && a[10] == 0xff && a[11] == 0xff
  }

  predicate Unspecified(a: seq<byte>)
    requires Address(a)
  {
    (forall i | 0 <= i < 16 :: a[i] == 0) || (Mapped(a) && forall i | 12 <= i < 16 :: a[i] == 0)
  }

  predicate Multicast(a: seq<byte>)
    requires Address(a)
  {
    if Mapped(a) then a[12] / 16 == 14 else a[0] == 0xff
  }

  function Quoted(p: Packet): nat {
    if |p| > MTU - IPV6_HEADER - 8 then MTU - IPV6_HEADER - 8 else |p|
  }

  function UnsummedIcmpError(p: Packet, src: seq<byte>, typ: byte, code: byte, param: seq<byte>): Packet
    requires |p| >= IPV6_HEADER && Address(src) && |param| == 4
  {
    Header(8 + Quoted(p), NEXT_HEADER_ICMPV6, REPLY_HOP_LIMIT, src, Source(p)) + [typ, code, 0, 0] + param + p[..Quoted(p)]
  }

  function IcmpError(p: Packet, src: seq<byte>, typ: byte, code: byte, param: seq<byte>): (r: Option<Packet>)
    requires Address(src) && |param| == 4
  {
    if !IsIPv6(p) || IsIcmpError(p) || Unspecified(Source(p)) || Multicast(Source(p)) then None
    else Some(WithChecksum(UnsummedIcmpError(p, src, typ, code, param), 42, NEXT_HEADER_ICMPV6))
  }

  /** Errors are addressed to the sender of the offending packet, fit the MTU,
      quote its head and carry a valid checksum. */
  lemma IcmpErrorFields(p: Packet, src: seq<byte>, typ: byte, code: byte, param: seq<byte>)
    requires Address(src) && |param| == 4 && IcmpError(p, src, typ, code, param).Some?
    ensures var e := IcmpError(p, src, typ, code, param).value;
            && IsIPv6(e) && Plainly(e, |e| - 40) && e[6] == 58 && e[7] == 64 && 48 <= |e| <= 1280
            && Source(e) == src && Destination(e) == Source(p) && e[40] == typ && e[41] == code && e[44..48] == param
            && e[48..] == p[..|e| - 48] && (|e| == 1280 || |e| == 48 + |p|)
            && Verifies6(e, NEXT_HEADER_ICMPV6)
  {
    hide TransportChecksum, Verifies6, Header;
    var h := Header(8 + Quoted(p), NEXT_HEADER_ICMPV6, REPLY_HOP_LIMIT, src, Source(p));
    var body := [typ, code, 0, 0] + param + p[..Quoted(p)];
    assert UnsummedIcmpError(p, src, typ, code, param) == h + body;
    Built(h, body, 42, NEXT_HEADER_ICMPV6);
    var e := IcmpError(p, src, typ, code, param).value;
    EarlyBytes(e, h);
    assert e[40..42] == [typ, code];
    assert e[44..] == param + p[..Quoted(p)];
    assert e[44..48] == e[44..][..4] && e[48..] == e[44..][4..];
  }

  lemma EarlyBytes(p: Packet, h: Packet)
    requires |p| >= 40 && |h| >= 40 && p[..8] == h[..8]
    ensures forall k | 0 <= k < 8 :: p[k] == h[k]
  {
    forall k | 0 <= k < 8 ensures p[k] == h[k] {
      assert p[k] == p[..8][k] && h[k] == h[..8][k];
    }
  }

  function UnsummedEchoReply(p: Packet): Packet
    requires IsEchoRequest(p)
  {
    p[..7] + [REPLY_HOP_LIMIT] + Destination(p) + Source(p) + [ECHO_REPLY, p[41], 0, 0] + p[44..]
  }

  function EchoReply(p: Packet): Option<Packet> {
    if !IsEchoRequest(p) then None
    else Some(WithChecksum(UnsummedEchoReply(p), 42, NEXT_HEADER_ICMPV6))
  }

  lemma EchoReplyFields(p: Packet)
    requires IsEchoRequest(p)
    ensures var r := EchoReply(p).value;
            && |r| == |p| && r[..7] == p[..7] && r[6] == 58 && r[7] == 64 && r[40] == 129 && r[41] == p[41]
            && Source(r) == Destination(p) && Destination(r) == Source(p)
            && r[44..] == p[44..]
            && (|p| <= IPV6_HEADER + 0xffff ==> Verifies6(r, NEXT_HEADER_ICMPV6))
  {
    var u := UnsummedEchoReply(p);
    var r := EchoReply(p).value;
    assert u[8..24] == Destination(p) && u[24..40] == Source(p) && u[44..] == p[44..];
    assert r[8..24] == u[8..24] && r[24..40] == u[24..40] && r[44..] == u[44..];
    if |p| <= IPV6_HEADER + 0xffff {
      StoredChecksumVerifies(u, NEXT_HEADER_ICMPV6, 42);
    }
  }

  function UnsummedEchoProbe(src: seq<byte>, dst: seq<byte>, hop: byte, id: nat): Packet
    requires Address(src) && Address(dst)
  {
    Header(16, NEXT_HEADER_ICMPV6, hop, src, dst) + [ECHO_REQUEST, 0, 0, 0, 0x74, 0x72] + Be16(id) + [0, 0, 0, 0, 0, 0, 0, 0]
  }

  /** The probe traceroute sends. */
  function EchoProbe(src: seq<byte>, dst: seq<byte>, hop: byte, id: nat): Packet
    requires Address(src) && Address(dst)
  {
    WithChecksum(UnsummedEchoProbe(src, dst, hop, id), 42, NEXT_HEADER_ICMPV6)
  }

  lemma EchoProbeFields(src: seq<byte>, dst: seq<byte>, hop: byte, id: nat)
    requires Address(src) && Address(dst)
    ensures var p := EchoProbe(src, dst, hop, id);
            && |p| == 56 && IsIPv6(p) && Plainly(p, 16) && p[6] == 58 && p[7] == hop && Source(p) == src && Destination(p) == dst
            && IsEchoRequest(p) && p[40] == 128 && p[41] == 0
            && p[44..] == [0x74, 0x72] + Be16(id) + [0, 0, 0, 0, 0, 0, 0, 0]
            && Verifies6(p, NEXT_HEADER_ICMPV6)
  {
    hide TransportChecksum, Verifies6, Header, Be16;
    var h := Header(16, NEXT_HEADER_ICMPV6, hop, src, dst);
    var tail := [0x74, 0x72] + Be16(id) + [0, 0, 0, 0, 0, 0, 0, 0];
    var body := [ECHO_REQUEST, 0, 0, 0] + tail;
    assert UnsummedEchoProbe(src, dst, hop, id) == h + body;
    Built(h, body, 42, NEXT_HEADER_ICMPV6);
    var p := EchoProbe(src, dst, hop, id);
    EarlyBytes(p, h);
    assert p[40..42] == [ECHO_REQUEST, 0];
    assert p[44..] == tail;
  }

  // ---- exit tunnels -------------------------------------------------------

  function TunnelHeader(inner: Packet): Option<byte> {
    if |inner| < 1 then None
    else if inner[0] / 16 == 4 then Some(NEXT_HEADER_IPV4)
    else if inner[0] / 16 == 6 then Some(NEXT_HEADER_IPV6)
    else None
  }

  function EncapsulateExit(src: seq<byte>, dst: seq<byte>, inner: Packet): Option<Packet>
    requires Address(src) && Address(dst)
  {
    match TunnelHeader(inner)
    case None => None
    case Some(next) => Some(Header(|inner|, next, REPLY_HOP_LIMIT, src, dst) + inner)
  }

  function DecapsulateExit(p: Packet, self: seq<byte>): Option<(seq<byte>, Packet)> {
    if !IsIPv6(p) || Destination(p) != self then None
    else if !MeshAddress(Source(p)) then None
    else if TunnelHeader(p[40..]) != Some(p[6]) then None
    else Some((Source(p), p[40..]))
  }

  /** A wrapper is a plain header with the number of the inner protocol. */
  lemma EncapsulatedFields(src: seq<byte>, dst: seq<byte>, inner: Packet)
    requires Address(src) && Address(dst)
    ensures EncapsulateExit(src, dst, inner).Some? <==> inner != [] && inner[0] / 16 in {4, 6}
    ensures EncapsulateExit(src, dst, inner).Some? ==>
              var p := EncapsulateExit(src, dst, inner).value;
              && |p| == 40 + |inner| && IsIPv6(p) && Plainly(p, |inner|) && p[6] == (if inner[0] / 16 == 4 then 4 else 41)
              && p[7] == 64 && Source(p) == src && Destination(p) == dst && p[40..] == inner
  {
  }

  /** Exactly what counts as a tunnel packet for the node self. */
  lemma DecapsulatesIff(p: Packet, self: seq<byte>, client: seq<byte>, inner: Packet)
    ensures DecapsulateExit(p, self) == Some((client, inner)) <==>
            && |p| > 40 && p[0] / 16 == 6 && p[24..40] == self && p[8..24] == client && p[8] == 0xfd && p[40..] == inner
            && ((p[6] == 4 && p[40] / 16 == 4) || (p[6] == 41 && p[40] / 16 == 6))
  {
  }

  /** Which addresses count as unspecified and as multicast, IPv4-mapped ones
      included. */
  lemma AddressTests(a: seq<byte>)
    requires Address(a)
    ensures Unspecified(a) <==>
            a in {[0, 0, 0, 0, 0, 0, 0, 0, 0, 0, 0, 0, 0, 0, 0, 0], [0, 0, 0, 0, 0, 0, 0, 0, 0, 0, 0xff, 0xff, 0, 0, 0, 0]}
    ensures Multicast(a) <==>
            if a[..12] == [0, 0, 0, 0, 0, 0, 0, 0, 0, 0, 0xff, 0xff] then 224 <= a[12] <= 239 else a[0] == 0xff
  {
    if Unspecified(a) {
      assert a == [0, 0, 0, 0, 0, 0, 0, 0, 0, 0, a[10], a[11], 0, 0, 0, 0];
    }
    if a[..12] == [0, 0, 0, 0, 0, 0, 0, 0, 0, 0, 0xff, 0xff] {
      assert forall i | 0 <= i < 12 :: a[i] == a[..12][i];
    }
    if Mapped(a) {
      assert a[..12] == [0, 0, 0, 0, 0, 0, 0, 0, 0, 0, 0xff, 0xff];
    }
  }

  /** Errors are withheld about what is not IPv6, about errors, and from
      senders that cannot be answered. */
  lemma ErrorWithheldIff(p: Packet, src: seq<byte>, typ: byte, code: byte, param: seq<byte>)
    requires Address(src) && |param| == 4
    ensures IcmpError(p, src, typ, code, param).None? <==>
            || |p| < 40 || p[0] / 16 != 6
            || (p[6] == 58 && |p| > 40 && p[40] < 128)
            || Unspecified(p[8..24]) || Multicast(p[8..24])
  {
  }

  /** What comes out of a tunnel is what went in, and only tunnel packets come
      out: unwrapping inverts wrapping from mesh sources, at any hop limit. */
  lemma TunnelRoundTripIff(src: seq<byte>, dst: seq<byte>, inner: Packet, hop: byte)
    requires Address(src) && Address(dst) && EncapsulateExit(src, dst, inner).Some?
    ensures DecapsulateExit(EncapsulateExit(src, dst, inner).value[7 := hop], dst) == Some((src, inner)) <==> MeshAddress(src)
  {
    var p := EncapsulateExit(src, dst, inner).value[7 := hop];
    var h := Header(|inner|, TunnelHeader(inner).value, REPLY_HOP_LIMIT, src, dst);
    assert p[..40] == h[7 := hop] && p[40..] == inner;
    assert p[8..24] == h[8..24] && p[24..40] == h[24..40];
  }
}
