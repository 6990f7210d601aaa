// The same packets as the program writes them: into a fresh zeroed buffer,
// field by field, proved equal to the values of Packets.
module Buffers {
  import opened Base
  import opened Checksum
  import opened Packets

  method NewBuffer(n: nat) returns (b: array<byte>)
    ensures fresh(b) && b.Length == n && forall i | 0 <= i < n :: b[i] == 0
  {
    b := new byte[n](_ => 0);
  }

  /** copy(b[at:], s) */
  method CopyInto(b: array<byte>, at: nat, s: seq<byte>)
    requires at + |s| <= b.Length
    modifies b
    ensures forall k | 0 <= k < b.Length :: b[k] == if at <= k < at + |s| then s[k - at] else old(b[k])
  {
    var i := 0;
    while i < |s|
      invariant 0 <= i <= |s|
      invariant forall k | 0 <= k < b.Length :: b[k] == if at <= k < at + i then s[k - at] else old(b[k])
    {
      b[at + i] := s[i];
      i := i + 1;
    }
  }

  method PutByte(b: array<byte>, at: nat, v: byte)
    requires at < b.Length
    modifies b
    ensures forall k | 0 <= k < b.Length :: b[k] == if k == at then v else old(b[k])
  {
    b[at] := v;
  }

  method PutBe16(b: array<byte>, at: nat, v: nat)
    requires at + 2 <= b.Length
    modifies b
    ensures forall k | 0 <= k < b.Length :: b[k] == if at <= k < at + 2 then Be16(v)[k - at] else old(b[k])
  {
    b[at], b[at + 1] := v / 256 % 256, v % 256;
  }

  method StoreChecksum(b: array<byte>, at: nat, proto: byte)
    requires IPV6_HEADER <= at && at + 2 <= b.Length
    modifies b
    ensures b[..] == WithChecksum(old(b[..]), at, proto)
  {
    var c := ComputeTransportChecksum(b, proto);
    b[at], b[at + 1] := c / 256, c % 256;
  }

  method PutHeader(b: array<byte>, plen: nat, next: byte, hop: byte, src: seq<byte>, dst: seq<byte>)
    requires b.Length >= IPV6_HEADER && Address(src) && Address(dst)
    requires forall i | 0 <= i < 8 :: b[i] == 0
    modifies b
    ensures forall k | 0 <= k < b.Length :: b[k] == if k < 40 then Header(plen, next, hop, src, dst)[k] else old(b[k])
  {
    b[0] := 0x60;
    PutBe16(b, 4, plen);
    PutByte(b, 6, next);
    PutByte(b, 7, hop);
    CopyInto(b, 8, src);
    CopyInto(b, 24, dst);
    HeaderAt(b[..40], plen, next, hop, src, dst);
  }

  lemma HeaderAt(v: seq<byte>, plen: nat, next: byte, hop: byte, src: seq<byte>, dst: seq<byte>)
    requires |v| == 40 && Address(src) && Address(dst)
    requires v[0] == 0x60 && v[1] == v[2] == v[3] == 0 && v[4] == Be16(plen)[0] && v[5] == Be16(plen)[1] && v[6] == next && v[7] == hop
    requires forall k | 8 <= k < 24 :: v[k] == src[k - 8]
    requires forall k | 24 <= k < 40 :: v[k] == dst[k - 24]
    ensures v == Header(plen, next, hop, src, dst)
  {
  }

  /** A header, eight bytes and a body make up the packet. */
  lemma Assembled(v: seq<byte>, h: seq<byte>, eight: seq<byte>, body: seq<byte>)
    requires |h| == 40 && |eight| == 8 && |v| == 48 + |body|
    requires forall k | 0 <= k < |v| :: v[k] == if k < 40 then h[k] else if k < 48 then eight[k - 40] else body[k - 48]
    ensures v == h + eight + body
  {
  }

  method Udp6Buffer(d: Datagram) returns (b: array<byte>)
    requires ValidDatagram(d)
    ensures fresh(b) && b[..] == Udp6(d)
  {
    hide WithChecksum, Header;
    var udpLen := 8 + |d.payload|;
    b := NewBuffer(IPV6_HEADER + udpLen);
    PutHeader(b, udpLen, NEXT_HEADER_UDP, REPLY_HOP_LIMIT, d.src, d.dst);
    PutBe16(b, 40, d.sport);
    PutBe16(b, 42, d.dport);
    PutBe16(b, 44, udpLen);
    CopyInto(b, 48, d.payload);
    ghost var h := Header(udpLen, NEXT_HEADER_UDP, REPLY_HOP_LIMIT, d.src, d.dst);
    ghost var eight := Be16(d.sport) + Be16(d.dport) + Be16(udpLen) + [0, 0];
    Assembled(b[..], h, eight, d.payload);
    assert h + eight == h + Be16(d.sport) + Be16(d.dport) + Be16(udpLen) + [0, 0];
    StoreChecksum(b, 46, NEXT_HEADER_UDP);
  }

  method IcmpErrorBuffer(p: seq<byte>, src: seq<byte>, typ: byte, code: byte, param: seq<byte>) returns (b: array?<byte>)
    requires Address(src) && |param| == 4
    ensures b == null <==> IcmpError(p, src, typ, code, param).None?
    ensures b != null ==> fresh(b) && b[..] == IcmpError(p, src, typ, code, param).value
  {
    hide WithChecksum, Header;
    if |p| < IPV6_HEADER || p[0] / 16 != 6 {
      return null;
    }
    if p[6] == NEXT_HEADER_ICMPV6 && |p| > IPV6_HEADER && p[IPV6_HEADER] < 128 {
      return null;
    }
    var origSrc := p[8..24];
    if Unspecified(origSrc) || Multicast(origSrc) {
      return null;
    }
    var asMuch := |p|;
    if asMuch > MTU - IPV6_HEADER - 8 {
      asMuch := MTU - IPV6_HEADER - 8;
    }
    var out := NewBuffer(IPV6_HEADER + 8 + asMuch);
    PutHeader(out, 8 + asMuch, NEXT_HEADER_ICMPV6, REPLY_HOP_LIMIT, src, origSrc);
    out[40], out[41] := typ, code;
    CopyInto(out, 44, param);
    CopyInto(out, 48, p[..asMuch]);
    ghost var h := Header(8 + asMuch, NEXT_HEADER_ICMPV6, REPLY_HOP_LIMIT, src, origSrc);
    ghost var eight := [typ, code, 0, 0] + param;
    Assembled(out[..], h, eight, p[..asMuch]);
    assert h + eight == h + [typ, code, 0, 0] + param;
    StoreChecksum(out, 42, NEXT_HEADER_ICMPV6);
    b := out;
  }

  /** The four bytes of an echo request that its reply changes in place. */
  method PatchReply(b: array<byte>)
    requires b.Length >= IPV6_HEADER + 8
    modifies b
    ensures forall k | 0 <= k < b.Length ::
              b[k] == if k == 7 then REPLY_HOP_LIMIT else if k == 40 then ECHO_REPLY else if k == 42 || k == 43 then 0 else old(b[k])
  {
    b[7] := REPLY_HOP_LIMIT;
    b[40] := ECHO_REPLY;
    b[42], b[43] := 0, 0;
  }

  method EchoReplyBuffer(p: seq<byte>) returns (b: array?<byte>)
    ensures b == null <==> EchoReply(p).None?
    ensures b != null ==> fresh(b) && b[..] == EchoReply(p).value
  {
    hide WithChecksum;
    if |p| < IPV6_HEADER + 8 || p[6] != NEXT_HEADER_ICMPV6 || p[40] != ECHO_REQUEST {
      return null;
    }
    var out := NewBuffer(|p|);
    CopyInto(out, 0, p);
    CopyInto(out, 8, p[24..40]);
    CopyInto(out, 24, p[8..24]);
    PatchReply(out);
    assert out[..8] == p[..7] + [REPLY_HOP_LIMIT] && out[8..24] == p[24..40] && out[24..40] == p[8..24];
    assert out[40..44] == [ECHO_REPLY, p[41], 0, 0] && out[44..] == p[44..];
    assert out[..] == out[..8] + out[8..24] + out[24..40] + out[40..44] + out[44..];
    assert out[..] == UnsummedEchoReply(p);
    StoreChecksum(out, 42, NEXT_HEADER_ICMPV6);
    b := out;
  }

  method EchoProbeBuffer(src: seq<byte>, dst: seq<byte>, hop: byte, id: nat) returns (p: array<byte>)
    requires Address(src) && Address(dst)
    ensures fresh(p) && p[..] == EchoProbe(src, dst, hop, id)
  {
    hide WithChecksum, Header;
    p := NewBuffer(56);
    PutHeader(p, 16, NEXT_HEADER_ICMPV6, hop, src, dst);
    PutByte(p, 40, ECHO_REQUEST);
    p[44], p[45] := 0x74, 0x72;
    PutBe16(p, 46, id);
    ghost var h := Header(16, NEXT_HEADER_ICMPV6, hop, src, dst);
    ghost var eight := [ECHO_REQUEST, 0, 0, 0, 0x74, 0x72] + Be16(id);
    Assembled(p[..], h, eight, [0, 0, 0, 0, 0, 0, 0, 0]);
    assert h + eight == h + [ECHO_REQUEST, 0, 0, 0, 0x74, 0x72] + Be16(id);
    StoreChecksum(p, 42, NEXT_HEADER_ICMPV6);
  }

  method EncapsulateExitBuffer(src: seq<byte>, dst: seq<byte>, inner: seq<byte>) returns (b: array?<byte>)
    requires Address(src) && Address(dst)
    ensures b == null <==> EncapsulateExit(src, dst, inner).None?
    ensures b != null ==> fresh(b) && b[..] == EncapsulateExit(src, dst, inner).value
  {
    if |inner| < 1 {
      return null;
    }
    var nh := NEXT_HEADER_IPV6;
    if inner[0] / 16 == 4 {
      nh := NEXT_HEADER_IPV4;
    } else if inner[0] / 16 != 6 {
      return null;
    }
    var out := NewBuffer(40 + |inner|);
    PutHeader(out, |inner|, nh, REPLY_HOP_LIMIT, src, dst);
    CopyInto(out, 40, inner);
    assert out[..] == Header(|inner|, nh, REPLY_HOP_LIMIT, src, dst) + inner;
    b := out;
  }
}
