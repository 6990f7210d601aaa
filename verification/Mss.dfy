// MSS clamping of TCP SYNs (RFC 9293 sections 3.1 and 3.2): the option walk,
// its copy on first write, and the checksum stored after it.
module Mss {
  import opened Base
  import opened Checksum

  const TCP_HEADER := 20
  const OPT_END: byte := 0
  const OPT_NOP: byte := 1
  const OPT_MSS: byte := 2

  /** An option other than end-of-list and no-op. */
  predicate WholeOption(o: seq<byte>) {
    |o| >= 2 && o[0] != OPT_END && o[0] != OPT_NOP && 2 <= o[1] <= |o|
  }

  predicate BigMss(o: seq<byte>, mss: nat) {
    WholeOption(o) && o[0] == OPT_MSS && o[1] == 4 && Word(o, 2) > mss
  }

  /** Option bytes with every 4-byte MSS above mss lowered to it. The walk
      ends at end-of-list and at the first malformed option. */
  function Clamp(o: seq<byte>, mss: nat): seq<byte>
    requires mss <= 0xffff
  {
    if o == [] || o[0] == OPT_END then o
    else if o[0] == OPT_NOP then [OPT_NOP] + Clamp(o[1..], mss)
    else if !WholeOption(o) then o
    else (if BigMss(o, mss) then Put16(o, 2, mss)[..4] else o[..o[1]]) + Clamp(o[o[1]..], mss)
  }

  // ---- what the walk means ------------------------------------------------

  datatype TcpOption = Nop | Plain(kind: byte, data: seq<byte>)

  /** The option list a receiver reads out of the bytes. */
  function Parse(o: seq<byte>): seq<TcpOption> {
    if o == [] || o[0] == OPT_END then []
    else if o[0] == OPT_NOP then [Nop] + Parse(o[1..])
    else if !WholeOption(o) then []
    else [Plain(o[0], o[2..o[1]])] + Parse(o[o[1]..])
  }

  /** The bytes of an option, as a sender lays it out. */
  function EncodeOption(t: TcpOption): seq<byte>
    requires Encodable(t)
  {
    match t
    case Nop => [1]
    case Plain(kind, data) => [kind, 2 + |data|] + data
  }

  predicate Encodable(t: TcpOption) {
    t.Plain? ==> t.kind > 1 && |t.data| <= 253
  }

  function Encode(ts: seq<TcpOption>): seq<byte>
    requires forall t | t in ts :: Encodable(t)
  {
    if ts == [] then [] else EncodeOption(ts[0]) + Encode(ts[1..])
  }

  /** Parsing reads back any option list, whatever follows an end-of-list. */
  lemma {:induction false} ParseInvertsEncode(ts: seq<TcpOption>, padding: seq<byte>)
    requires (forall t | t in ts :: Encodable(t)) && (padding == [] || padding[0] == 0)
    ensures Parse(Encode(ts) + padding) == ts
  {
    if ts == [] {
      assert Encode(ts) + padding == padding;
    } else {
      ParseInvertsEncode(ts[1..], padding);
      var rest := Encode(ts[1..]) + padding;
      assert Encode(ts) + padding == EncodeOption(ts[0]) + rest;
      hide Parse;
      ParseOne(ts[0], rest);
    }
  }

  lemma ParseOne(t: TcpOption, rest: seq<byte>)
    requires Encodable(t)
    ensures Parse(EncodeOption(t) + rest) == [t] + Parse(rest)
  {
    var o := EncodeOption(t) + rest;
    if t.Nop? {
      assert o[1..] == rest;
    } else {
      assert o[2..o[1]] == t.data && o[o[1]..] == rest;
    }
  }

  function ClampOption(t: TcpOption, mss: nat): TcpOption
    requires mss <= 0xffff
  {
    if t.Plain? && t.kind == OPT_MSS && |t.data| == 2 && Word(t.data, 0) > mss
    then Plain(OPT_MSS, [mss / 256, mss % 256]) else t
  }

  /** Byte k is part of the value of an MSS option above mss. */
  predicate InBigMss(o: seq<byte>, mss: nat, k: nat)
    requires k < |o|
  {
    if o[0] == OPT_END then false
    else if o[0] == OPT_NOP then k > 0 && InBigMss(o[1..], mss, k - 1)
    else if !WholeOption(o) then false
    else if k < o[1] then BigMss(o, mss) && k >= 2
    else InBigMss(o[o[1]..], mss, k - o[1])
  }

  lemma {:induction false} ClampLength(o: seq<byte>, mss: nat)
    requires mss <= 0xffff
    ensures |Clamp(o, mss)| == |o|
  {
    if o != [] && o[0] != OPT_END {
      if o[0] == OPT_NOP {
        ClampLength(o[1..], mss);
      } else if WholeOption(o) {
        ClampLength(o[o[1]..], mss);
      }
    }
  }

  /** The parsed list survives, every MSS lowered to at most mss. */
  lemma {:induction false} ClampOnParsed(o: seq<byte>, mss: nat)
    requires mss <= 0xffff
    ensures |Parse(Clamp(o, mss))| == |Parse(o)|
    ensures forall i | 0 <= i < |Parse(o)| :: Parse(Clamp(o, mss))[i] == ClampOption(Parse(o)[i], mss)
  {
    if o != [] && o[0] != OPT_END {
      var c := Clamp(o, mss);
      if o[0] == OPT_NOP {
        ClampOnParsed(o[1..], mss);
        assert c[1..] == Clamp(o[1..], mss);
      } else if WholeOption(o) {
        var l := o[1] as int;
        ClampOnParsed(o[l..], mss);
        ClampLength(o[l..], mss);
        assert c[l..] == Clamp(o[l..], mss);
        assert c[0] == o[0] && c[1] == o[1];
        if BigMss(o, mss) {
          assert c[2..l] == [mss / 256, mss % 256];
          assert Word(o[2..l], 0) == Word(o, 2);
        } else {
          assert c[2..l] == o[2..l];
          assert l == 4 ==> Word(o[2..l], 0) == Word(o, 2);
        }
      }
    }
  }

  lemma {:induction false} ClampTouchesOnlyMss(o: seq<byte>, mss: nat, k: nat)
    requires mss <= 0xffff && k < |o| && |Clamp(o, mss)| == |o| && !InBigMss(o, mss, k)
    ensures Clamp(o, mss)[k] == o[k]
  {
    if o[0] == OPT_NOP {
      ClampLength(o[1..], mss);
      if k > 0 {
        ClampTouchesOnlyMss(o[1..], mss, k - 1);
      }
    } else if o[0] != OPT_END && WholeOption(o) {
      var l := o[1] as int;
      ClampLength(o[l..], mss);
      if k >= l {
        ClampTouchesOnlyMss(o[l..], mss, k - l);
      }
    }
  }

  lemma {:induction false} ClampIdempotent(o: seq<byte>, mss: nat)
    requires mss <= 0xffff
    ensures Clamp(Clamp(o, mss), mss) == Clamp(o, mss)
  {
    if o != [] && o[0] != OPT_END {
      var c := Clamp(o, mss);
      if o[0] == OPT_NOP {
        ClampIdempotent(o[1..], mss);
        assert c[1..] == Clamp(o[1..], mss);
      } else if WholeOption(o) {
        var l := o[1] as int;
        ClampIdempotent(o[l..], mss);
        ClampLength(o[l..], mss);
        assert c[l..] == Clamp(o[l..], mss);
        assert c[0] == o[0] && c[1] == o[1];
        if BigMss(o, mss) {
          assert Word(c, 2) == mss;
        } else {
          assert l == 4 ==> Word(c, 2) == Word(o, 2);
        }
        assert c == c[..l] + c[l..];
      }
    }
  }

  // ---- whole packets ------------------------------------------------------

  /** Where the TCP header of a SYN worth clamping starts. */
  function TcpBase6(p: seq<byte>): Option<nat> {
    if |p| < IPV6_HEADER + TCP_HEADER || p[6] != NEXT_HEADER_TCP then None
    else if !SynWithOptions(p, IPV6_HEADER) then None
    else Some(IPV6_HEADER)
  }

  function TcpBase4(p: seq<byte>): Option<nat> {
    if |p| < 20 then None else
    var ihl := (p[0] % 16) as int * 4;
    if ihl < 20 || ihl + TCP_HEADER > |p| || p[9] != NEXT_HEADER_TCP then None
    else if !SynWithOptions(p, ihl) then None
    else Some(ihl)
  }

  function DataOffset(p: seq<byte>, base: nat): nat
    requires base + TCP_HEADER <= |p|
  {
    (p[base + 12] / 16) as int * 4
  }

  /** SYN set, and a data offset that fits the packet. */
  predicate SynWithOptions(p: seq<byte>, base: nat)
    requires base + TCP_HEADER <= |p|
  {
    (p[base + 13] / 2) % 2 == 1 && TCP_HEADER <= DataOffset(p, base) && base + DataOffset(p, base) <= |p|
  }

  predicate HasOptions(p: seq<byte>, base: nat) {
    base + TCP_HEADER <= |p| && SynWithOptions(p, base)
  }

  function OptionsOf(p: seq<byte>, base: nat): seq<byte>
    requires HasOptions(p, base)
  {
    p[base + TCP_HEADER..base + DataOffset(p, base)]
  }

  /** The packet after the option walk. */
  function Walked(p: seq<byte>, base: nat, mss: nat): seq<byte>
    requires HasOptions(p, base) && mss <= 0xffff
  {
    p[..base + TCP_HEADER] + Clamp(OptionsOf(p, base), mss) + p[base + DataOffset(p, base)..]
  }

  lemma WalkedLength(p: seq<byte>, base: nat, mss: nat)
    requires HasOptions(p, base) && mss <= 0xffff
    ensures |Walked(p, base, mss)| == |p|
    ensures forall k | 0 <= k < base + TCP_HEADER :: Walked(p, base, mss)[k] == p[k]
    ensures forall k | base + DataOffset(p, base) <= k < |p| :: Walked(p, base, mss)[k] == p[k]
    ensures Walked(p, base, mss)[base + TCP_HEADER..base + DataOffset(p, base)] == Clamp(OptionsOf(p, base), mss)
  {
    ClampLength(OptionsOf(p, base), mss);
  }

  /** The checksum field cleared, for the sum to be taken. */
  function Cleared(p: seq<byte>, base: nat): seq<byte>
    requires base + TCP_HEADER <= |p|
  {
    Put16(p, base + 16, 0)
  }

  function Checksummed(v6: bool, w: seq<byte>, base: nat): seq<byte>
    requires (if v6 then IPV6_HEADER else 20) <= base && base + TCP_HEADER <= |w|
  {
    var z := Cleared(w, base);
    Put16(z, base + 16, if v6 then TransportChecksum(z, NEXT_HEADER_TCP) else ChecksumOf(Total4(z, base)))
  }

  function HeaderAt(v6: bool, p: seq<byte>): (base: Option<nat>)
    ensures base.Some? ==> HasOptions(p, base.value) && (if v6 then IPV6_HEADER else 20) <= base.value
  {
    if v6 then TcpBase6(p) else TcpBase4(p)
  }

  /** The whole transformation: clampTCPMSS for v6, clampIPv4TCPMSS otherwise. */
  function Clamped(v6: bool, p: seq<byte>, mss: nat): seq<byte>
    requires mss <= 0xffff
  {
    var base := HeaderAt(v6, p);
    if base.None? then p else
    var w := Walked(p, base.value, mss);
    if w == p then p else
    WalkedLength(p, base.value, mss);
    Checksummed(v6, w, base.value)
  }

  /** Away from the options and the checksum. */
  predicate Fixed(p: seq<byte>, base: nat, k: nat)
    requires HasOptions(p, base)
  {
    !(base + 16 <= k < base + 18) && !(base + TCP_HEADER <= k < base + DataOffset(p, base))
  }

  lemma ChecksummedShape(v6: bool, p: seq<byte>, base: nat, mss: nat)
    requires HasOptions(p, base) && mss <= 0xffff && (if v6 then IPV6_HEADER else 20) <= base
    requires |Walked(p, base, mss)| == |p|
    ensures var out := Checksummed(v6, Walked(p, base, mss), base);
            && |out| == |p|
            && (forall k | 0 <= k < |p| && Fixed(p, base, k) :: out[k] == p[k])
            && out[base + TCP_HEADER..base + DataOffset(p, base)] == Clamp(OptionsOf(p, base), mss)
  {
    WalkedLength(p, base, mss);
    var w := Walked(p, base, mss);
    var out := Checksummed(v6, w, base);
    assert out[base + TCP_HEADER..base + DataOffset(p, base)] == w[base + TCP_HEADER..base + DataOffset(p, base)];
  }

  /** Clamping leaves the packet alone, or keeps its shape: same length, same
      header position, and outside the checksum the walked bytes. */
  lemma ClampedShape(v6: bool, p: seq<byte>, mss: nat)
    requires mss <= 0xffff
    ensures |Clamped(v6, p, mss)| == |p| && HeaderAt(v6, Clamped(v6, p, mss)) == HeaderAt(v6, p)
    ensures HeaderAt(v6, p).None? ==> Clamped(v6, p, mss) == p
    ensures HeaderAt(v6, p).Some? ==>
              var b := HeaderAt(v6, p).value;
              && OptionsOf(Clamped(v6, p, mss), b) == Clamp(OptionsOf(p, b), mss)
              && DataOffset(Clamped(v6, p, mss), b) == DataOffset(p, b)
              && forall k | 0 <= k < |p| && Fixed(p, b, k) :: Clamped(v6, p, mss)[k] == p[k]
  {
    hide Checksummed, Clamp, InBigMss;
    if HeaderAt(v6, p).Some? {
      var b := HeaderAt(v6, p).value;
      WalkedLength(p, b, mss);
      ChecksummedShape(v6, p, b, mss);
      var out := Clamped(v6, p, mss);
      assert Fixed(p, b, 0) && Fixed(p, b, 6) && Fixed(p, b, 9) && Fixed(p, b, b + 12) && Fixed(p, b, b + 13);
    }
  }

  /** The options a receiver parses differ only in each MSS, now at most mss. */
  lemma {:induction false} ClampKeepsOptions(v6: bool, p: seq<byte>, mss: nat)
    requires mss <= 0xffff && HeaderAt(v6, p).Some?
    ensures var b := HeaderAt(v6, p).value;
            var out := Clamped(v6, p, mss);
            && HeaderAt(v6, out) == Some(b)
            && |Parse(OptionsOf(out, b))| == |Parse(OptionsOf(p, b))|
            && forall i | 0 <= i < |Parse(OptionsOf(p, b))| ::
                 Parse(OptionsOf(out, b))[i] == ClampOption(Parse(OptionsOf(p, b))[i], mss)
  {
    ClampedShape(v6, p, mss);
    ClampOnParsed(OptionsOf(p, HeaderAt(v6, p).value), mss);
  }

  /** Every byte outside the checksum and the lowered MSS values is kept. */
  lemma {:induction false} ClampChangesOnlyMssAndChecksum(v6: bool, p: seq<byte>, mss: nat, k: nat)
    requires mss <= 0xffff && k < |p| && |Clamped(v6, p, mss)| == |p|
    requires Clamped(v6, p, mss)[k] != p[k]
    ensures HeaderAt(v6, p).Some?
    ensures var b := HeaderAt(v6, p).value;
            || b + 16 <= k < b + 18
            || (b + TCP_HEADER <= k < b + DataOffset(p, b) && InBigMss(OptionsOf(p, b), mss, k - b - TCP_HEADER))
  {
    hide Clamp, InBigMss, Clamped, HeaderAt;
    ClampedShape(v6, p, mss);
    var b := HeaderAt(v6, p).value;
    assert !Fixed(p, b, k);
    if b + TCP_HEADER <= k < b + DataOffset(p, b) {
      OptionByteChanged(p, Clamped(v6, p, mss), b, mss, k);
    }
  }

  lemma OptionByteChanged(p: seq<byte>, out: seq<byte>, b: nat, mss: nat, k: nat)
    requires mss <= 0xffff && HasOptions(p, b) && HasOptions(out, b) && |out| == |p|
    requires OptionsOf(out, b) == Clamp(OptionsOf(p, b), mss)
    requires b + TCP_HEADER <= k < b + DataOffset(p, b) && out[k] != p[k]
    ensures InBigMss(OptionsOf(p, b), mss, k - b - TCP_HEADER)
  {
    var o := OptionsOf(p, b);
    var i := k - b - TCP_HEADER;
    ClampLength(o, mss);
    assert o[i] == p[k] && OptionsOf(out, b)[i] == out[k];
    if !InBigMss(o, mss, i) {
      ClampTouchesOnlyMss(o, mss, i);
    }
  }

  lemma {:induction false} ClampTwiceIsOnce(v6: bool, p: seq<byte>, mss: nat)
    requires mss <= 0xffff
    ensures Clamped(v6, Clamped(v6, p, mss), mss) == Clamped(v6, p, mss)
  {
    hide Checksummed, Clamp, TcpBase6, TcpBase4, InBigMss;
    ClampedShape(v6, p, mss);
    if HeaderAt(v6, p).Some? {
      var b := HeaderAt(v6, p).value;
      var out := Clamped(v6, p, mss);
      ClampIdempotent(OptionsOf(p, b), mss);
      assert Walked(out, b, mss) == out;
    }
  }

  lemma ChecksummedVerifies(v6: bool, w: seq<byte>, base: nat)
    requires (if v6 then base == IPV6_HEADER else 20 <= base) && base + TCP_HEADER <= |w| <= 0xffff
    ensures if v6 then Verifies6(Checksummed(v6, w, base), NEXT_HEADER_TCP) else Verifies4(Checksummed(v6, w, base), base)
  {
    var z := Cleared(w, base);
    if v6 {
      StoredChecksumVerifies(z, NEXT_HEADER_TCP, base + 16);
    } else {
      StoredChecksumVerifies4(z, base, base + 16);
    }
  }

  /** A packet the walk changed leaves with a checksum its receiver accepts. */
  lemma ClampedPacketVerifies(v6: bool, p: seq<byte>, mss: nat)
    requires mss <= 0xffff && |p| <= 0xffff && Clamped(v6, p, mss) != p
    ensures var b := HeaderAt(v6, p);
            && b.Some? && |Clamped(v6, p, mss)| == |p|
            && if v6 then Verifies6(Clamped(v6, p, mss), NEXT_HEADER_TCP) else Verifies4(Clamped(v6, p, mss), b.value)
  {
    var b := HeaderAt(v6, p).value;
    WalkedLength(p, b, mss);
    ClampedShape(v6, p, mss);
    ChecksummedVerifies(v6, Walked(p, b, mss), b);
  }

  // ---- read off the packet's bytes ----------------------------------------

  /** A TCP SYN over IPv6 or IPv4 whose options lie in p[base + 20..end]. */
  predicate SynAt(v6: bool, p: seq<byte>, base: nat, end: nat) {
    && (if v6 then |p| >= 60 && p[6] == 6 && base == 40
        else |p| >= 20 && p[9] == 6 && base == p[0] as int % 16 * 4 && 20 <= base && base + 20 <= |p|)
    && end == base + p[base + 12] as int / 16 * 4 && base + 20 <= end <= |p|
    && (p[base + 13] as bv8) & 0x02 != 0
  }

  predicate LargeMss(t: TcpOption, mss: nat) {
    t.Plain? && t.kind == 2 && |t.data| == 2 && t.data[0] as int * 256 + t.data[1] > mss
  }

  lemma SynBit(flags: byte)
    ensures (flags as bv8) & 0x02 != 0 <==> (flags / 2) % 2 == 1
  {
    SynBitVector(flags as bv8);
  }

  lemma SynBitVector(flags: bv8)
    ensures flags & 2 != 0 <==> (flags / 2) % 2 == 1
  {
  }

  lemma SynHasHeader(v6: bool, p: seq<byte>, base: nat, end: nat)
    ensures SynAt(v6, p, base, end) <==> HeaderAt(v6, p) == Some(base) && end == base + DataOffset(p, base)
  {
    if base + 20 <= |p| {
      SynBit(p[base + 13]);
    }
  }

  /** Every SYN with options leaves with each MSS at most the limit and all
      other options as they were. */
  lemma {:induction false} SynIsClamped(v6: bool, p: seq<byte>, mss: nat, base: nat, end: nat)
    requires mss <= 0xffff && SynAt(v6, p, base, end)
    ensures |Clamped(v6, p, mss)| == |p| && SynAt(v6, Clamped(v6, p, mss), base, end)
    ensures var before, after := Parse(p[base + 20..end]), Parse(Clamped(v6, p, mss)[base + 20..end]);
            |after| == |before| &&
            forall i | 0 <= i < |before| ::
              && !LargeMss(after[i], mss)
              && after[i] == if LargeMss(before[i], mss) then Plain(2, [mss / 256, mss % 256]) else before[i]
  {
    hide Clamped, Parse, DataOffset;
    SynHasHeader(v6, p, base, end);
    ClampedShape(v6, p, mss);
    SynHasHeader(v6, Clamped(v6, p, mss), base, end);
    ClampKeepsOptions(v6, p, mss);
  }

  predicate HasLargeMss(ts: seq<TcpOption>, mss: nat) {
    exists i | 0 <= i < |ts| :: LargeMss(ts[i], mss)
  }

  predicate LargeSyn(v6: bool, p: seq<byte>, mss: nat, base: nat, end: nat) {
    SynAt(v6, p, base, end) && HasLargeMss(Parse(p[base + 20..end]), mss)
  }

  /** A packet is changed exactly when it is a SYN with an MSS option above the
      limit. */
  lemma {:induction false} ClampedIff(v6: bool, p: seq<byte>, mss: nat)
    requires mss <= 0xffff
    ensures Clamped(v6, p, mss) != p <==> exists base: nat, end: nat :: LargeSyn(v6, p, mss, base, end)
  {
    if Clamped(v6, p, mss) != p {
      ChangedIsLarge(v6, p, mss);
    }
    if base: nat, end: nat :| LargeSyn(v6, p, mss, base, end) {
      SynIsClamped(v6, p, mss, base, end);
    }
  }

  lemma ChangedIsLarge(v6: bool, p: seq<byte>, mss: nat)
    requires mss <= 0xffff && Clamped(v6, p, mss) != p
    ensures HeaderAt(v6, p).Some?
    ensures var base := HeaderAt(v6, p).value; LargeSyn(v6, p, mss, base, base + DataOffset(p, base))
  {
    hide Parse, Clamp, Checksummed, DataOffset;
    var base := HeaderAt(v6, p).value;
    var end := base + DataOffset(p, base);
    SynHasHeader(v6, p, base, end);
    if !HasLargeMss(Parse(p[base + 20..end]), mss) {
      OnlyLargeMssChanges(OptionsOf(p, base), mss);
    }
  }

  lemma {:induction false} OnlyLargeMssChanges(o: seq<byte>, mss: nat)
    requires mss <= 0xffff && !HasLargeMss(Parse(o), mss)
    ensures Clamp(o, mss) == o
  {
    if o != [] && o[0] != OPT_END {
      if o[0] == OPT_NOP {
        LaterOptions(Nop, Parse(o[1..]), mss);
        OnlyLargeMssChanges(o[1..], mss);
      } else if WholeOption(o) {
        LaterOptions(Plain(o[0], o[2..o[1]]), Parse(o[o[1]..]), mss);
        OnlyLargeMssChanges(o[o[1]..], mss);
        hide HasLargeMss, Parse;
        SmallMss(o, mss);
        assert o == o[..o[1]] + o[o[1]..];
      }
    }
  }

  lemma SmallMss(o: seq<byte>, mss: nat)
    requires WholeOption(o) && !LargeMss(Plain(o[0], o[2..o[1]]), mss)
    ensures !BigMss(o, mss)
  {
    if o[1] == 4 {
      assert Word(o, 2) == o[2..4][0] as int * 256 + o[2..4][1];
    }
  }

  lemma LaterOptions(t: TcpOption, ts: seq<TcpOption>, mss: nat)
    requires !HasLargeMss([t] + ts, mss)
    ensures !LargeMss(t, mss) && !HasLargeMss(ts, mss)
  {
    assert ([t] + ts)[0] == t;
    assert forall i | 0 <= i < |ts| :: ([t] + ts)[i + 1] == ts[i];
  }

  // ---- the loops ----------------------------------------------------------

  /** The final bytes, as seen with the walk at position i. */
  function Pending(cur: seq<byte>, i: nat, end: nat, mss: nat): seq<byte>
    requires i <= end <= |cur| && mss <= 0xffff
  {
    cur[..i] + Clamp(cur[i..end], mss) + cur[end..]
  }

  lemma PendingSkips(cur: seq<byte>, i: nat, end: nat, mss: nat, l: nat)
    requires i < end <= |cur| && mss <= 0xffff
    requires var o := cur[i..end];
             if o[0] == OPT_NOP then l == 1 else WholeOption(o) && l == o[1] && !BigMss(o, mss)
    ensures Pending(cur, i, end, mss) == Pending(cur, i + l, end, mss)
  {
  }

  lemma PendingLowers(cur: seq<byte>, i: nat, end: nat, mss: nat)
    requires i + 4 <= end <= |cur| && mss <= 0xffff && BigMss(cur[i..end], mss)
    ensures Pending(cur, i, end, mss) == Pending(Put16(cur, i + 2, mss), i + 4, end, mss)
    ensures Pending(cur, i, end, mss) != cur
  {
  }

  /** Nothing is pending once the walk stops. */
  lemma PendingDone(cur: seq<byte>, i: nat, end: nat, mss: nat)
    requires i <= end <= |cur| && mss <= 0xffff
    requires var o := cur[i..end]; o == [] || o[0] == OPT_END || (o[0] != OPT_NOP && !WholeOption(o))
    ensures Pending(cur, i, end, mss) == cur
  {
  }

  lemma WalkStarts(p: seq<byte>, base: nat, mss: nat)
    requires HasOptions(p, base) && mss <= 0xffff
    ensures Walked(p, base, mss) == Pending(p, base + TCP_HEADER, base + DataOffset(p, base), mss)
  {
  }

  /** Writes a lowered MSS, into a copy unless the buffer is one already. */
  method Lower(buf: array<byte>, owned: bool, at: nat, mss: nat) returns (out: array<byte>)
    requires at + 2 <= buf.Length && mss <= 0xffff
    modifies if owned then {buf} else {}
    ensures out[..] == Put16(old(buf[..]), at, mss)
    ensures if owned then out == buf else fresh(out)
  {
    out := buf;
    if !owned {
      out := Copy(buf);
    }
    WriteWord(out, at, mss);
  }

  /** The option walk at header position base. `out` is the input itself until
      the first option has to change, then a copy. */
  method WalkOptions(pkt: array<byte>, base: nat, mss: nat) returns (out: array<byte>, changed: bool)
    requires HasOptions(pkt[..], base) && mss <= 0xffff
    ensures out[..] == Walked(pkt[..], base, mss)
    ensures changed <==> Walked(pkt[..], base, mss) != pkt[..]
    ensures if changed then fresh(out) else out == pkt
  {
    hide Clamp, Pending, Walked;
    out, changed := pkt, false;
    var i := base + TCP_HEADER;
    var end := base + DataOffset(pkt[..], base);
    ghost var goal := Walked(pkt[..], base, mss);
    WalkStarts(pkt[..], base, mss);
    while i < end
      invariant base + TCP_HEADER <= i <= end <= out.Length
      invariant goal == Pending(out[..], i, end, mss)
      invariant if changed then fresh(out) && goal != pkt[..] else out == pkt
      decreases end - i
    {
      var kind := out[i];
      ghost var o := out[..][i..end];
      if kind == OPT_END {
        break;
      }
      if kind == OPT_NOP {
        PendingSkips(out[..], i, end, mss, 1);
        i := i + 1;
        continue;
      }
      if i + 1 >= end {
        break;
      }
      var l := out[i + 1] as int;
      if l < 2 || i + l > end {
        break;
      }
      if kind == OPT_MSS && l == 4 && High(out[i + 2]) + out[i + 3] > mss {
        PendingLowers(out[..], i, end, mss);
        out := Lower(out, changed, i + 2, mss);
        changed := true;
      } else {
        PendingSkips(out[..], i, end, mss, l);
      }
      i := i + l;
    }
    PendingDone(out[..], i, end, mss);
  }

  method WriteWord(a: array<byte>, at: nat, v: nat)
    requires at + 2 <= a.Length && v <= 0xffff
    modifies a
    ensures a[..] == Put16(old(a[..]), at, v)
  {
    a[at], a[at + 1] := v / 256, v % 256;
  }

  method Copy(a: array<byte>) returns (b: array<byte>)
    ensures fresh(b) && b[..] == a[..]
  {
    b := new byte[a.Length](i requires 0 <= i < a.Length reads a => a[i]);
    assert forall i | 0 <= i < a.Length :: b[i] == a[i];
  }

  method StoreTCPChecksum(v6: bool, out: array<byte>, base: nat)
    requires (if v6 then base == IPV6_HEADER else 20 <= base) && base + TCP_HEADER <= out.Length
    modifies out
    ensures out[..] == Checksummed(v6, old(out[..]), base)
  {
    WriteWord(out, base + 16, 0);
    var sum;
    if v6 {
      sum := ComputeTransportChecksum(out, NEXT_HEADER_TCP);
    } else {
      sum := ComputeIPv4TCPChecksum(out, base);
    }
    WriteWord(out, base + 16, sum);
  }

  method ClampTCPMSS(pkt: array<byte>, mss: nat) returns (out: array<byte>)
    requires mss <= 0xffff
    ensures out[..] == Clamped(true, pkt[..], mss)
    ensures out == pkt || fresh(out)
  {
    if pkt.Length < IPV6_HEADER + TCP_HEADER || pkt[6] != NEXT_HEADER_TCP {
      return pkt;
    }
    var doff := (pkt[IPV6_HEADER + 12] / 16) as int * 4;
    if doff < TCP_HEADER || IPV6_HEADER + doff > pkt.Length {
      return pkt;
    }
    if (pkt[IPV6_HEADER + 13] / 2) % 2 == 0 {
      return pkt;
    }
    var changed;
    out, changed := WalkOptions(pkt, IPV6_HEADER, mss);
    if changed {
      WalkedLength(pkt[..], IPV6_HEADER, mss);
      StoreTCPChecksum(true, out, IPV6_HEADER);
    }
  }

  method ClampIPv4TCPMSS(pkt: array<byte>, mss: nat) returns (out: array<byte>)
    requires mss <= 0xffff
    ensures out[..] == Clamped(false, pkt[..], mss)
    ensures out == pkt || fresh(out)
  {
    if pkt.Length < 20 {
      return pkt;
    }
    var ihl := (pkt[0] % 16) as int * 4;
    if ihl < 20 || ihl + TCP_HEADER > pkt.Length || pkt[9] != NEXT_HEADER_TCP {
      return pkt;
    }
    if (pkt[ihl + 13] / 2) % 2 == 0 {
      return pkt;
    }
    var doff := (pkt[ihl + 12] / 16) as int * 4;
    if doff < TCP_HEADER || ihl + doff > pkt.Length {
      return pkt;
    }
    var changed;
    out, changed := WalkOptions(pkt, ihl, mss);
    if changed {
      WalkedLength(pkt[..], ihl, mss);
      StoreTCPChecksum(false, out, ihl);
    }
  }
}
