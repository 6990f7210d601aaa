// The Internet checksum loops of internal/node/packet.go (RFC 1071 section 1,
// RFC 8200 section 8.1), in the program's 32-bit arithmetic.
module Checksum {
  import opened Base

  const TWO32 := 0x1_0000_0000
  const NEXT_HEADER_TCP: byte := 6
  const NEXT_HEADER_UDP: byte := 17
  const NEXT_HEADER_ICMPV6: byte := 58
  const IPV6_HEADER := 40

  /** Big-endian 16-bit words added up, an odd last byte padded with zero. */
  function WordSum(s: seq<byte>): nat {
    if |s| == 0 then 0
    else if |s| == 1 then High(s[0])
    else High(s[0]) + s[1] + WordSum(s[2..])
  }

  /** uint32(b) << 8 */
  function High(b: byte): nat {
    b as int * 256
  }

  /** Carries folded back in until the sum fits 16 bits. */
  function Fold(sum: nat): (r: nat)
    ensures r <= 0xffff
  {
    if sum > 0xffff then Fold(sum % 0x10000 + sum / 0x10000) else sum
  }

  /** The sum over pseudo-header addresses, length, protocol and payload. */
  function Total(addresses: seq<byte>, length: nat, proto: byte, body: seq<byte>): nat {
    WordSum(addresses) + length / 0x10000 + length % 0x10000 + proto + WordSum(body)
  }

  function Total6(pkt: seq<byte>, proto: byte): nat
    requires |pkt| >= IPV6_HEADER
  {
    Total(pkt[8..40], |pkt| - 40, proto, pkt[40..])
  }

  function Total4(pkt: seq<byte>, ihl: nat): nat
    requires 20 <= ihl <= |pkt|
  {
    Total(pkt[12..20], |pkt| - ihl, NEXT_HEADER_TCP, pkt[ihl..])
  }

  /** The checksum of a total that may have wrapped at 32 bits. */
  function ChecksumOf(total: nat): nat {
    0xffff - Fold(total % TWO32)
  }

  function TransportChecksum(pkt: seq<byte>, proto: byte): nat
    requires |pkt| >= IPV6_HEADER
  {
    var c := ChecksumOf(Total6(pkt, proto));
    if proto == NEXT_HEADER_UDP && c == 0 then 0xffff else c
  }

  /** The bytes a receiver sums: RFC 8200 section 8.1 and RFC 9293 section 3.1. */
  function Covered6(pkt: seq<byte>, proto: byte): seq<byte>
    requires |pkt| >= 40
  {
    pkt[8..24] + pkt[24..40] + Be32(|pkt| - 40) + [0, 0, 0, proto] + pkt[40..]
  }

  function Covered4(pkt: seq<byte>, ihl: nat): seq<byte>
    requires 20 <= ihl <= |pkt|
  {
    pkt[12..16] + pkt[16..20] + [0, 6] + Be16(|pkt| - ihl) + pkt[ihl..]
  }

  /** What a receiver demands of the bytes it sums. */
  predicate AddsUp(covered: seq<byte>) {
    Fold(WordSum(covered)) == 0xffff
  }

  predicate Verifies6(pkt: seq<byte>, proto: byte)
    requires |pkt| >= 40
  {
    AddsUp(Covered6(pkt, proto))
  }

  predicate Verifies4(pkt: seq<byte>, ihl: nat)
    requires 20 <= ihl <= |pkt|
  {
    AddsUp(Covered4(pkt, ihl))
  }

  /** Padded to whole 16-bit words. */
  function Padded(s: seq<byte>): seq<byte> {
    if |s| % 2 == 0 then s else s + [0]
  }

  function Put16(s: seq<byte>, at: nat, v: nat): (r: seq<byte>)
    requires at + 2 <= |s| && v <= 0xffff
  {
    s[at := v / 256][at + 1 := v % 256]
  }

  // ---- folding ------------------------------------------------------------

  lemma {:induction false} FoldKeepsResidue(sum: nat)
    ensures Fold(sum) % 0xffff == sum % 0xffff
    ensures Fold(sum) == 0 <==> sum == 0
    decreases sum
  {
    if sum > 0xffff {
      var hi, lo := sum / 0x10000, sum % 0x10000;
      assert sum == 0xffff * hi + (lo + hi);
      ResidueShift(hi, lo + hi);
      FoldKeepsResidue(lo + hi);
    }
  }

  lemma ResidueShift(k: nat, r: nat)
    ensures (0xffff * k + r) % 0xffff == r % 0xffff
  {
  }

  // ---- word sums ----------------------------------------------------------

  lemma {:induction false} WordSumConcat(a: seq<byte>, b: seq<byte>)
    requires |a| % 2 == 0
    ensures WordSum(a + b) == WordSum(a) + WordSum(b)
  {
    if a == [] {
      assert a + b == b;
    } else {
      assert (a + b)[2..] == a[2..] + b;
      WordSumConcat(a[2..], b);
    }
  }

  lemma {:induction false} WordSumBound(s: seq<byte>)
    ensures WordSum(s) <= 0xffff * ((|s| + 1) / 2)
  {
    if |s| > 1 {
      WordSumBound(s[2..]);
    }
  }

  /** The word sum is congruent to the whole string read as one number. */
  lemma {:induction false} WordSumIsNumber(s: seq<byte>)
    ensures WordSum(s) % 0xffff == Number(Padded(s)) % 0xffff
    ensures WordSum(s) == 0 <==> Number(Padded(s)) == 0
    decreases |s| + |s| % 2 * 2
  {
    if |s| % 2 == 1 {
      WordSumPadded(s);
      WordSumIsNumber(s + [0]);
    } else if s != [] {
      WordSumIsNumber(s[..|s| - 2]);
      LastWord(s);
      OneMoreWord(Number(s[..|s| - 2]), WordSum(s[..|s| - 2]), Word(s, |s| - 2));
    }
  }

  lemma LastWord(s: seq<byte>)
    requires |s| > 0 && |s| % 2 == 0
    ensures Number(s) == 0x10000 * Number(s[..|s| - 2]) + Word(s, |s| - 2)
    ensures WordSum(s) == WordSum(s[..|s| - 2]) + Word(s, |s| - 2)
  {
    hide WordSum, Number;
    var front, a, b := s[..|s| - 2], s[|s| - 2], s[|s| - 1];
    assert s == front + [a, b] && s == front + [a] + [b];
    WordSumConcat(front, [a, b]);
    TwoBytes(a, b);
    OneDigitMore(front, a);
    OneDigitMore(front + [a], b);
  }

  lemma WordSumPadded(s: seq<byte>)
    requires |s| % 2 == 1
    ensures WordSum(s + [0]) == WordSum(s)
  {
    var i := |s| - 1;
    assert s == s[..i] + s[i..] && s + [0] == s[..i] + (s[i..] + [0]);
    WordSumConcat(s[..i], s[i..]);
    WordSumConcat(s[..i], s[i..] + [0]);
    assert (s[i..] + [0])[2..] == [];
  }

  lemma OneMoreWord(number: nat, sum: nat, word: nat)
    requires number % 0xffff == sum % 0xffff
    ensures (0x10000 * number + word) % 0xffff == (sum + word) % 0xffff
  {
    assert 0x10000 * number + word == 0xffff * number + (number + word);
    ResidueShift(number, number + word);
    Congruent(number, sum, word);
  }

  /** The one's complement check, without sums and carries: the bytes, read as
      one number, are a multiple of 65535 and not zero. */
  lemma {:induction false} AddsUpIff(covered: seq<byte>)
    ensures AddsUp(covered) <==> Number(Padded(covered)) % 0xffff == 0 && Number(Padded(covered)) > 0
  {
    FoldKeepsResidue(WordSum(covered));
    WordSumIsNumber(covered);
    OnlyAllOnes(Fold(WordSum(covered)));
  }

  /** The 32-bit accumulator never wraps on a payload of up to 65535 bytes. */
  lemma TotalFits(addresses: seq<byte>, length: nat, proto: byte, body: seq<byte>)
    requires |addresses| <= 32 && length == |body| <= 0xffff
    ensures Total(addresses, length, proto, body) < TWO32
  {
    WordSumBound(addresses);
    WordSumBound(body);
  }

  lemma WordSumStore(s: seq<byte>, at: nat, v: nat)
    requires at % 2 == 0 && at + 2 <= |s| && s[at] == 0 && s[at + 1] == 0 && v <= 0xffff
    ensures WordSum(Put16(s, at, v)) == WordSum(s) + v
  {
    var t := Put16(s, at, v);
    assert s == s[..at] + s[at..] && t == s[..at] + t[at..];
    WordSumConcat(s[..at], s[at..]);
    WordSumConcat(s[..at], t[at..]);
    assert t[at..][2..] == s[at..][2..];
  }

  // ---- the receiver accepts what the sender computed ----------------------

  lemma ChecksumCompletes(total: nat, c: nat)
    requires total < TWO32
    requires c == ChecksumOf(total) || (ChecksumOf(total) == 0 && c == 0xffff)
    ensures Fold(total + c) == 0xffff
  {
    var f := Fold(total);
    assert total % TWO32 == total;
    FoldKeepsResidue(total);
    FoldKeepsResidue(total + c);
    Congruent(total, f, c);
    assert f + c == 0xffff || f + c == 0x1fffe;
    OnlyAllOnes(Fold(total + c));
  }

  lemma OnlyAllOnes(f: nat)
    ensures f <= 0xffff && f % 0xffff == 0 ==> f == 0 || f == 0xffff
  {
  }

  lemma Congruent(a: nat, b: nat, c: nat)
    requires a % 0xffff == b % 0xffff
    ensures (a + c) % 0xffff == (b + c) % 0xffff
  {
  }

  lemma SumOfParts(addresses: seq<byte>, b: seq<byte>, c: seq<byte>, body: seq<byte>)
    requires |addresses| % 2 == 0 && |b| % 2 == 0 && |c| % 2 == 0
    ensures WordSum(addresses + b + c + body) == WordSum(addresses) + WordSum(b) + WordSum(c) + WordSum(body)
  {
    hide WordSum;
    WordSumConcat(addresses + b + c, body);
    WordSumConcat(addresses + b, c);
    WordSumConcat(addresses, b);
  }

  lemma TwoBytes(high: byte, low: byte)
    ensures WordSum([high, low]) == High(high) + low
  {
    assert [high, low][2..] == [];
  }

  lemma FourBytes(a: byte, b: byte, c: byte, d: byte)
    ensures WordSum([a, b, c, d]) == High(a) + b + High(c) + d
  {
    assert [a, b, c, d][2..] == [c, d];
    TwoBytes(c, d);
  }

  lemma LengthWords(l: nat)
    requires l < TWO32
    ensures WordSum(Be32(l)) == l / 0x10000 + l % 0x10000
  {
    FourBytes(l / 256 / 256 / 256 % 256, l / 256 / 256 % 256, l / 256 % 256, l % 256);
  }

  /** The pseudo-header's words are what the program adds field by field. */
  lemma CoveredSum6(pkt: seq<byte>, proto: byte)
    requires 40 <= |pkt| < 40 + TWO32
    ensures WordSum(Covered6(pkt, proto)) == Total6(pkt, proto)
  {
    hide WordSum, Be32;
    assert pkt[8..24] + pkt[24..40] == pkt[8..40];
    SumOfParts(pkt[8..40], Be32(|pkt| - 40), [0, 0, 0, proto], pkt[40..]);
    LengthWords(|pkt| - 40);
    FourBytes(0, 0, 0, proto);
  }

  lemma CoveredSum4(pkt: seq<byte>, ihl: nat)
    requires 20 <= ihl <= |pkt| <= ihl + 0xffff
    ensures WordSum(Covered4(pkt, ihl)) == Total4(pkt, ihl)
  {
    hide WordSum;
    var l := |pkt| - ihl;
    assert pkt[12..16] + pkt[16..20] == pkt[12..20];
    SumOfParts(pkt[12..20], [0, 6], Be16(l), pkt[ihl..]);
    TwoBytes(0, 6);
    TwoBytes(l / 256 % 256, l % 256);
  }

  /** IPv6 TCP, UDP and ICMPv6, odd lengths and the UDP zero case included. */
  lemma StoredChecksumVerifies(pkt: seq<byte>, proto: byte, at: nat)
    requires IPV6_HEADER <= at && at % 2 == 0 && at + 2 <= |pkt| <= IPV6_HEADER + 0xffff
    requires pkt[at] == 0 && pkt[at + 1] == 0
    ensures TransportChecksum(pkt, proto) <= 0xffff
    ensures var out := Put16(pkt, at, TransportChecksum(pkt, proto));
            && Verifies6(out, proto)
            && Number(Padded(out[8..40] + Be32(|out| - 40) + [0, 0, 0, proto] + out[40..])) % 0xffff == 0
  {
    hide WordSum, Number, Padded, Covered6, Fold, Total6;
    var c := TransportChecksum(pkt, proto);
    var out := Put16(pkt, at, c);
    StoredTotal6(pkt, proto, at, c);
    CoveredSum6(out, proto);
    AddsUpIff(Covered6(out, proto));
    CoveredBytes6(out, proto);
  }

  lemma StoredTotal6(pkt: seq<byte>, proto: byte, at: nat, c: nat)
    requires IPV6_HEADER <= at && at % 2 == 0 && at + 2 <= |pkt| <= IPV6_HEADER + 0xffff
    requires pkt[at] == 0 && pkt[at + 1] == 0 && c == TransportChecksum(pkt, proto) && c <= 0xffff
    ensures Fold(Total6(Put16(pkt, at, c), proto)) == 0xffff
  {
    hide WordSum, Fold;
    var out := Put16(pkt, at, c);
    assert out[8..40] == pkt[8..40];
    assert out[40..] == Put16(pkt[40..], at - 40, c);
    WordSumStore(pkt[40..], at - 40, c);
    TotalFits(pkt[8..40], |pkt| - 40, proto, pkt[40..]);
    ChecksumCompletes(Total6(pkt, proto), c);
  }

  lemma CoveredBytes6(out: seq<byte>, proto: byte)
    requires |out| >= 40
    ensures Covered6(out, proto) == out[8..40] + Be32(|out| - 40) + [0, 0, 0, proto] + out[40..]
  {
    assert out[8..40] == out[8..24] + out[24..40];
  }

  /** The stored value is never the zero that means "no checksum" in UDP, and
      all ones stand for that zero in UDP alone. */
  lemma ChecksumRange(pkt: seq<byte>, proto: byte)
    requires IPV6_HEADER <= |pkt| <= IPV6_HEADER + 0xffff && proto > 0
    ensures 0 <= TransportChecksum(pkt, proto) <= 0xffff
    ensures if proto == 17 then TransportChecksum(pkt, proto) != 0 else TransportChecksum(pkt, proto) != 0xffff
  {
    TotalFits(pkt[8..40], |pkt| - 40, proto, pkt[40..]);
    FoldKeepsResidue(Total6(pkt, proto));
  }

  lemma StoredChecksumVerifies4(pkt: seq<byte>, ihl: nat, at: nat)
    requires 20 <= ihl <= at && (at - ihl) % 2 == 0 && at + 2 <= |pkt| <= ihl + 0xffff
    requires pkt[at] == 0 && pkt[at + 1] == 0
    ensures ChecksumOf(Total4(pkt, ihl)) <= 0xffff
    ensures var out := Put16(pkt, at, ChecksumOf(Total4(pkt, ihl)));
            && Verifies4(out, ihl)
            && Number(Padded(out[12..20] + [0, 6] + Be16(|out| - ihl) + out[ihl..])) % 0xffff == 0
  {
    hide WordSum, Number, Padded, Covered4, Fold, Total4;
    var c := ChecksumOf(Total4(pkt, ihl));
    var out := Put16(pkt, at, c);
    StoredTotal4(pkt, ihl, at, c);
    CoveredSum4(out, ihl);
    AddsUpIff(Covered4(out, ihl));
    CoveredBytes4(out, ihl);
  }

  lemma StoredTotal4(pkt: seq<byte>, ihl: nat, at: nat, c: nat)
    requires 20 <= ihl <= at && (at - ihl) % 2 == 0 && at + 2 <= |pkt| <= ihl + 0xffff
    requires pkt[at] == 0 && pkt[at + 1] == 0 && c == ChecksumOf(Total4(pkt, ihl)) && c <= 0xffff
    ensures Fold(Total4(Put16(pkt, at, c), ihl)) == 0xffff
  {
    hide WordSum, Fold;
    var out := Put16(pkt, at, c);
    assert out[12..20] == pkt[12..20];
    assert out[ihl..] == Put16(pkt[ihl..], at - ihl, c);
    WordSumStore(pkt[ihl..], at - ihl, c);
    TotalFits(pkt[12..20], |pkt| - ihl, NEXT_HEADER_TCP, pkt[ihl..]);
    ChecksumCompletes(Total4(pkt, ihl), c);
  }

  lemma CoveredBytes4(out: seq<byte>, ihl: nat)
    requires 20 <= ihl <= |out|
    ensures Covered4(out, ihl) == out[12..20] + [0, 6] + Be16(|out| - ihl) + out[ihl..]
  {
    assert out[12..20] == out[12..16] + out[16..20];
  }

  // ---- the loops ----------------------------------------------------------

  function Word(s: seq<byte>, i: nat): nat
    requires i + 2 <= |s|
  {
    High(s[i]) + s[i + 1]
  }

  lemma WordSumExtend(s: seq<byte>, from: nat, i: nat)
    requires from <= i <= |s| && (i - from) % 2 == 0
    ensures i + 2 <= |s| ==> WordSum(s[from..i + 2]) == WordSum(s[from..i]) + Word(s, i)
    ensures i + 1 == |s| ==> WordSum(s[from..]) == WordSum(s[from..i]) + High(s[i])
  {
    if i + 2 <= |s| {
      assert s[from..i + 2] == s[from..i] + s[i..i + 2];
      WordSumConcat(s[from..i], s[i..i + 2]);
      assert s[i..i + 2][2..] == [];
    } else if i + 1 == |s| {
      assert s[from..] == s[from..i] + s[i..];
      WordSumConcat(s[from..i], s[i..]);
    }
  }

  function Wrap(sum: nat): nat {
    sum % TWO32
  }

  lemma WordSumSlices(pkt: array<byte>, from: nat, i: nat)
    requires from <= i <= pkt.Length && (i - from) % 2 == 0
    ensures WordSum(pkt[from..from]) == 0
    ensures i + 2 <= pkt.Length ==> WordSum(pkt[from..i + 2]) == WordSum(pkt[from..i]) + (High(pkt[i]) + pkt[i + 1])
    ensures i + 1 == pkt.Length ==> WordSum(pkt[from..]) == WordSum(pkt[from..i]) + High(pkt[i])
    ensures i == pkt.Length ==> WordSum(pkt[from..]) == WordSum(pkt[from..i])
  {
    WordSumExtend(pkt[..], from, i);
    assert pkt[..][from..i] == pkt[from..i] && pkt[..][from..] == pkt[from..];
    if i + 2 <= pkt.Length {
      assert pkt[..][from..i + 2] == pkt[from..i + 2];
    } else if i == pkt.Length {
      assert pkt[from..i] == pkt[from..];
    }
  }

  /** Adds the words of pkt[from..] to a 32-bit accumulator. */
  method AddWords(pkt: array<byte>, from: nat, start: nat) returns (sum: nat)
    requires from <= pkt.Length && start < TWO32
    ensures sum == Wrap(start + WordSum(pkt[from..]))
  {
    hide WordSum;
    sum := start;
    var i := from;
    WordSumSlices(pkt, from, from);
    while i + 1 < pkt.Length
      invariant from <= i <= pkt.Length && (i - from) % 2 == 0
      invariant sum == Wrap(start + WordSum(pkt[from..i]))
    {
      WordSumSlices(pkt, from, i);
      WrapWrap(start + WordSum(pkt[from..i]), High(pkt[i]) + pkt[i + 1]);
      sum := Wrap(sum + (High(pkt[i]) + pkt[i + 1]));
      i := i + 2;
    }
    WordSumSlices(pkt, from, i);
    if (pkt.Length - from) % 2 == 1 {
      WrapWrap(start + WordSum(pkt[from..i]), High(pkt[i]));
      sum := Wrap(sum + High(pkt[pkt.Length - 1]));
    }
  }

  method FoldSum(start: nat) returns (sum: nat)
    ensures sum == Fold(start) && sum <= 0xffff
  {
    sum := start;
    while sum > 0xffff
      invariant Fold(sum) == Fold(start)
    {
      sum := sum % 0x10000 + sum / 0x10000;
    }
  }

  /** The words of the two IPv6 addresses. */
  method AddressSum(pkt: array<byte>) returns (sum: nat)
    requires pkt.Length >= IPV6_HEADER
    ensures sum == WordSum(pkt[8..40])
  {
    sum := 0;
    var i := 8;
    while i < IPV6_HEADER
      invariant 8 <= i <= 40 && i % 2 == 0
      invariant sum == WordSum(pkt[8..i])
    {
      WordSumExtend(pkt[..], 8, i);
      assert pkt[..][8..i] == pkt[8..i] && pkt[..][8..i + 2] == pkt[8..i + 2];
      WordSumBound(pkt[8..i]);
      sum := Wrap(sum + (High(pkt[i]) + pkt[i + 1]));
      i := i + 2;
    }
  }

  lemma WrapWrap(a: nat, b: nat)
    ensures Wrap(Wrap(a) + b) == Wrap(a + b)
  {
  }

  method ComputeTransportChecksum(pkt: array<byte>, proto: byte) returns (c: nat)
    requires pkt.Length >= IPV6_HEADER
    ensures c == TransportChecksum(pkt[..], proto)
  {
    hide WordSum, Fold;
    var addresses := AddressSum(pkt);
    var plen := pkt.Length - IPV6_HEADER;
    var sum := Wrap(addresses + plen / 0x10000);
    WrapWrap(addresses + plen / 0x10000, plen % 0x10000);
    sum := Wrap(sum + plen % 0x10000);
    WrapWrap(addresses + plen / 0x10000 + plen % 0x10000, proto);
    sum := Wrap(sum + proto);
    WrapWrap(addresses + plen / 0x10000 + plen % 0x10000 + proto, WordSum(pkt[40..]));
    sum := AddWords(pkt, IPV6_HEADER, sum);
    assert pkt[..][8..40] == pkt[8..40] && pkt[..][40..] == pkt[40..];
    sum := FoldSum(sum);
    c := 0xffff - sum;
    if proto == NEXT_HEADER_UDP && c == 0 {
      c := 0xffff;
    }
  }

  method ComputeIPv4TCPChecksum(pkt: array<byte>, ihl: nat) returns (c: nat)
    requires 20 <= ihl <= pkt.Length
    ensures c == ChecksumOf(Total4(pkt[..], ihl))
  {
    hide WordSum, Fold;
    var sum := High(pkt[12]) + pkt[13];
    sum := sum + (High(pkt[14]) + pkt[15]);
    sum := sum + (High(pkt[16]) + pkt[17]);
    sum := sum + (High(pkt[18]) + pkt[19]);
    AddressWords(pkt[..][12..20]);
    sum := sum + NEXT_HEADER_TCP;
    var tcpLen := pkt.Length - ihl;
    ghost var head := sum;
    sum := Wrap(sum + tcpLen / 0x10000);
    WrapWrap(head + tcpLen / 0x10000, tcpLen % 0x10000);
    sum := Wrap(sum + tcpLen % 0x10000);
    WrapWrap(head + tcpLen / 0x10000 + tcpLen % 0x10000, WordSum(pkt[ihl..]));
    sum := AddWords(pkt, ihl, sum);
    assert pkt[..][ihl..] == pkt[ihl..];
    sum := FoldSum(sum);
    c := 0xffff - sum;
  }

  lemma AddressWords(a: seq<byte>)
    requires |a| == 8
    ensures WordSum(a) == Word(a, 0) + Word(a, 2) + Word(a, 4) + Word(a, 6)
  {
    WordSumExtend(a, 0, 0);
    WordSumExtend(a, 0, 2);
    WordSumExtend(a, 0, 4);
    WordSumExtend(a, 0, 6);
    assert a[0..8] == a;
  }
}
