// Netlink route attributes: nla and nlaU32 (internal/tun/tun_linux.go) and
// parseRtAttrs (internal/tun/rtnetlink_linux.go), for either byte order.
module Netlink {
  import opened Base
  import Buffers

  const ATTR_HEADER := 4
  const LONGEST := 65531     // data bytes a 16-bit length can announce

  datatype Order = Little | Big

  type u16 = n: nat | n < 0x1_0000
  type u32 = n: nat | n < 0x1_0000_0000

  datatype Attr = Attr(typ: u16, data: seq<byte>)

  type Attrs = map<u16, seq<byte>>

  function Bytes16(o: Order, v: u16): (b: seq<byte>)
    ensures |b| == 2
  {
    if o.Big? then [v / 256, v % 256] else [v % 256, v / 256]
  }

  function Value16(o: Order, b: seq<byte>): u16
    requires |b| >= 2
  {
    if o.Big? then b[0] as int * 256 + b[1] else b[1] as int * 256 + b[0]
  }

  function Bytes32(o: Order, v: u32): (b: seq<byte>)
    ensures |b| == 4
  {
    if o.Big? then Bytes16(o, v / 0x1_0000) + Bytes16(o, v % 0x1_0000) else Bytes16(o, v % 0x1_0000) + Bytes16(o, v / 0x1_0000)
  }

  function Value32(o: Order, b: seq<byte>): u32
    requires |b| >= 4
  {
    if o.Big? then Value16(o, b) as int * 0x1_0000 + Value16(o, b[2..]) else Value16(o, b[2..]) as int * 0x1_0000 + Value16(o, b)
  }

  /** Rounded up to a multiple of four. */
  function Pad(l: nat): (p: nat)
    ensures l <= p < l + 4 && p % 4 == 0
  {
    (l + 3) / 4 * 4
  }

  function Zeros(n: nat): (b: seq<byte>)
    ensures |b| == n
  {
    seq(n, _ => 0)
  }

  /** One attribute block; the length field keeps 16 bits of the length. */
  function Nla(o: Order, a: Attr): seq<byte> {
    var l := ATTR_HEADER + |a.data|;
    Bytes16(o, l % 0x1_0000) + Bytes16(o, a.typ) + a.data + Zeros(Pad(l) - l)
  }

  lemma NlaSize(o: Order, a: Attr)
    ensures |Nla(o, a)| == Pad(4 + |a.data|)
  {
  }

  function NlaU32(o: Order, typ: u16, v: u32): seq<byte> {
    Nla(o, Attr(typ, Bytes32(o, v)))
  }

  function ParseInto(o: Order, b: seq<byte>, attrs: Attrs): Attrs
    decreases |b|
  {
    if |b| < ATTR_HEADER then attrs else
    var l := Value16(o, b);
    if l < ATTR_HEADER then attrs else
    var typ := Value16(o, b[2..]);
    var attrs' := if ATTR_HEADER < l <= |b| then attrs[typ := b[ATTR_HEADER..l]] else attrs;
    if Pad(l) > |b| then attrs' else ParseInto(o, b[Pad(l)..], attrs')
  }

  function Parse(o: Order, b: seq<byte>): Attrs {
    ParseInto(o, b, map[])
  }

  function Blocks(o: Order, attrs: seq<Attr>): seq<byte> {
    if attrs == [] then [] else Nla(o, attrs[0]) + Blocks(o, attrs[1..])
  }

  // ---- what parsing means -------------------------------------------------

  /** The value of a type in a list of attributes: the last one that is not
      empty. */
  function LastOf(attrs: seq<Attr>, typ: u16): Option<seq<byte>> {
    if attrs == [] then None
    else
      var last := attrs[|attrs| - 1];
      if last.typ == typ && last.data != [] then Some(last.data) else LastOf(attrs[..|attrs| - 1], typ)
  }

  lemma LastOfPrepend(a: Attr, attrs: seq<Attr>, typ: u16)
    ensures LastOf([a] + attrs, typ) ==
            if LastOf(attrs, typ).Some? then LastOf(attrs, typ) else if a.typ == typ && a.data != [] then Some(a.data) else None
  {
    if attrs == [] {
      assert ([a] + attrs)[..0] == [];
    } else {
      assert ([a] + attrs)[..|attrs|] == [a] + attrs[..|attrs| - 1];
      LastOfPrepend(a, attrs[..|attrs| - 1], typ);
    }
  }

  lemma Bytes16IsNumber(o: Order, v: u16)
    ensures Number(if o.Big? then Bytes16(o, v) else [Bytes16(o, v)[1], Bytes16(o, v)[0]]) == v
  {
    hide Number;
    NumberOfNothing();
    OneDigitMore([], v / 256);
    OneDigitMore([] + [v / 256], v % 256);
    assert [] + [v / 256] + [v % 256] == [v / 256, v % 256];
  }

  lemma RoundTrip16(o: Order, v: u16, s: seq<byte>)
    ensures Value16(o, Bytes16(o, v) + s) == v
  {
  }

  lemma NlaFields(o: Order, a: Attr, s: seq<byte>)
    requires |a.data| <= LONGEST
    ensures var l := ATTR_HEADER + |a.data|;
            var b := Nla(o, a) + s;
            && |Nla(o, a)| == Pad(l) && Value16(o, b) == l && Value16(o, b[2..]) == a.typ
            && b[ATTR_HEADER..l] == a.data && (forall k | l <= k < Pad(l) :: b[k] == 0) && b[Pad(l)..] == s
  {
    var l := ATTR_HEADER + |a.data|;
    var body := a.data + Zeros(Pad(l) - l) + s;
    var b := Nla(o, a) + s;
    assert b == Bytes16(o, l) + (Bytes16(o, a.typ) + body);
    assert b[2..] == Bytes16(o, a.typ) + body;
    assert b[ATTR_HEADER..] == body && b[ATTR_HEADER..l] == body[..|a.data|];
    RoundTrip16(o, l, Bytes16(o, a.typ) + body);
    RoundTrip16(o, a.typ, body);
  }

  lemma ParseBlock(o: Order, a: Attr, s: seq<byte>, attrs: Attrs)
    requires |a.data| <= LONGEST
    ensures ParseInto(o, Nla(o, a) + s, attrs) == ParseInto(o, s, if a.data == [] then attrs else attrs[a.typ := a.data])
  {
    hide Nla, Value16, Pad;
    NlaFields(o, a, s);
  }

  lemma {:induction false} ParseBlocksInto(o: Order, attrs: seq<Attr>, before: Attrs, typ: u16)
    requires forall i | 0 <= i < |attrs| :: |attrs[i].data| <= LONGEST
    ensures var after := ParseInto(o, Blocks(o, attrs), before);
            (if typ in after then Some(after[typ]) else None) ==
            if LastOf(attrs, typ).Some? then LastOf(attrs, typ) else if typ in before then Some(before[typ]) else None
  {
    hide Nla, LastOf;
    if attrs == [] {
      NoBlocks(o, before, typ);
    } else {
      var a := attrs[0];
      ParseBlock(o, a, Blocks(o, attrs[1..]), before);
      ParseBlocksInto(o, attrs[1..], if a.data == [] then before else before[a.typ := a.data], typ);
      LastOfPrepend(a, attrs[1..], typ);
      assert [a] + attrs[1..] == attrs;
    }
  }

  lemma NoBlocks(o: Order, before: Attrs, typ: u16)
    ensures ParseInto(o, Blocks(o, []), before) == before && LastOf([], typ).None?
  {
  }

  /** Whatever attributes are encoded in a row, padding and all, parsing gives
      back for each type its last non-empty value and nothing else. */
  lemma ParseIsLastWins(o: Order, attrs: seq<Attr>, typ: u16)
    requires forall i | 0 <= i < |attrs| :: |attrs[i].data| <= LONGEST
    ensures var parsed := Parse(o, Blocks(o, attrs));
            && (typ in parsed <==> LastOf(attrs, typ).Some?)
            && (typ in parsed ==> parsed[typ] == LastOf(attrs, typ).value)
  {
    ParseBlocksInto(o, attrs, map[], typ);
  }

  /** Bytes in which no attribute begins: too few, or a length that is too
      small or runs past the end. */
  predicate Broken(o: Order, s: seq<byte>) {
    |s| < 4 || Value16(o, s) < 4 || Value16(o, s) > |s|
  }

  /** Whole attributes are read up to the first broken one, which adds
      nothing, whatever follows. */
  lemma {:induction false} BrokenTailIgnored(o: Order, attrs: seq<Attr>, tail: seq<byte>, before: Attrs)
    requires (forall i | 0 <= i < |attrs| :: |attrs[i].data| <= 65531) && Broken(o, tail)
    ensures ParseInto(o, Blocks(o, attrs) + tail, before) == ParseInto(o, Blocks(o, attrs), before)
  {
    hide Nla, Value16;
    if attrs == [] {
      assert Blocks(o, attrs) + tail == tail;
    } else {
      var a, rest := attrs[0], Blocks(o, attrs[1..]);
      ParseBlock(o, a, rest + tail, before);
      ParseBlock(o, a, rest, before);
      BrokenTailIgnored(o, attrs[1..], tail, if a.data == [] then before else before[a.typ := a.data]);
      assert Blocks(o, attrs) + tail == Nla(o, a) + (rest + tail);
    }
  }

  /** The last attribute may come without its padding. */
  lemma {:induction false} PaddingOptional(o: Order, attrs: seq<Attr>, last: Attr, before: Attrs)
    requires (forall i | 0 <= i < |attrs| :: |attrs[i].data| <= 65531) && 0 < |last.data| <= 65531
    ensures ParseInto(o, Blocks(o, attrs) + Nla(o, last)[..4 + |last.data|], before)
            == ParseInto(o, Blocks(o, attrs), before)[last.typ := last.data]
  {
    NlaSize(o, last);
    hide Nla, Value16;
    var bare := Nla(o, last)[..4 + |last.data|];
    if attrs == [] {
      assert Blocks(o, attrs) + bare == bare && Blocks(o, attrs) == [];
      ParseBare(o, last, before);
      ParseNothing(o, before);
    } else {
      var a, rest := attrs[0], Blocks(o, attrs[1..]);
      ParseBlock(o, a, rest + bare, before);
      ParseBlock(o, a, rest, before);
      PaddingOptional(o, attrs[1..], last, if a.data == [] then before else before[a.typ := a.data]);
      assert Blocks(o, attrs) + bare == Nla(o, a) + (rest + bare);
    }
  }

  lemma ParseBare(o: Order, a: Attr, before: Attrs)
    requires 0 < |a.data| <= 65531
    ensures |Nla(o, a)| >= 4 + |a.data| && ParseInto(o, Nla(o, a)[..4 + |a.data|], before) == before[a.typ := a.data]
  {
    NlaSize(o, a);
    hide Nla, Value16;
    BareBlock(o, a);
    var l := 4 + |a.data|;
    if Pad(l) == l {
      ParseNothing(o, before[a.typ := a.data]);
      assert Nla(o, a)[..l][l..] == [];
    }
  }

  lemma BareBlock(o: Order, a: Attr)
    requires |a.data| <= 65531
    ensures var l := 4 + |a.data|;
            var b := Nla(o, a)[..l];
            |b| == l && Value16(o, b) == l && Value16(o, b[2..]) == a.typ && b[4..l] == a.data
  {
    NlaFields(o, a, []);
    assert Nla(o, a) + [] == Nla(o, a);
  }

  /** From any bytes at all, only values a length field can announce. */
  lemma {:induction false} ParsedSizes(o: Order, b: seq<byte>, attrs: Attrs)
    requires forall t | t in attrs :: 0 < |attrs[t]| <= LONGEST
    ensures forall t | t in ParseInto(o, b, attrs) :: 0 < |ParseInto(o, b, attrs)[t]| <= LONGEST
    decreases |b|
  {
    hide Value16;
    if |b| >= ATTR_HEADER && Value16(o, b) >= ATTR_HEADER {
      var l := Value16(o, b);
      var typ := Value16(o, b[2..]);
      var attrs' := if ATTR_HEADER < l <= |b| then attrs[typ := b[ATTR_HEADER..l]] else attrs;
      assert forall t | t in attrs' :: 0 < |attrs'[t]| <= LONGEST;
      if Pad(l) <= |b| {
        ParsedSizes(o, b[Pad(l)..], attrs');
      }
    }
  }

  /** One attribute survives the trip exactly when it is not empty and its
      length fits the field. */
  lemma RoundTripIff(o: Order, a: Attr)
    ensures Parse(o, Nla(o, a)) == map[a.typ := a.data] <==> 0 < |a.data| <= LONGEST
  {
    hide Nla, ParseInto;
    if |a.data| <= LONGEST {
      ParseBlock(o, a, [], map[]);
      assert Nla(o, a) + [] == Nla(o, a);
      ParseNothing(o, if a.data == [] then map[] else map[][a.typ := a.data]);
      assert a.typ in map[a.typ := a.data];
    } else {
      ParsedSizes(o, Nla(o, a), map[]);
      assert a.typ in map[a.typ := a.data];
    }
  }

  lemma ParseNothing(o: Order, attrs: Attrs)
    ensures ParseInto(o, [], attrs) == attrs
  {
  }

  lemma NlaU32RoundTrip(o: Order, typ: u16, v: u32)
    ensures var parsed := Parse(o, NlaU32(o, typ, v));
            parsed.Keys == {typ} && |parsed[typ]| == 4 && Value32(o, parsed[typ]) == v
  {
    RoundTripIff(o, Attr(typ, Bytes32(o, v)));
    var b := Bytes32(o, v);
    assert v == v / 0x1_0000 * 0x1_0000 + v % 0x1_0000;
    RoundTrip16(o, if o.Big? then v / 0x1_0000 else v % 0x1_0000, b[2..]);
    RoundTrip16(o, if o.Big? then v % 0x1_0000 else v / 0x1_0000, []);
    assert b == b[..2] + b[2..] && b[2..] + [] == b[2..];
  }

  // ---- the loops ----------------------------------------------------------

  method ParseRtAttrs(o: Order, start: seq<byte>) returns (attrs: Attrs)
    ensures attrs == Parse(o, start)
  {
    attrs := map[];
    var b := start;
    while |b| >= ATTR_HEADER
      invariant ParseInto(o, b, attrs) == Parse(o, start)
      decreases |b|
    {
      var l := Value16(o, b[..2]);
      assert l == Value16(o, b);
      if l < ATTR_HEADER {
        break;
      }
      var typ := Value16(o, b[2..4]);
      assert typ == Value16(o, b[2..]);
      var end := l - ATTR_HEADER;
      if end > 0 && ATTR_HEADER + end <= |b| {
        attrs := attrs[typ := b[ATTR_HEADER..ATTR_HEADER + end]];
      }
      var pad := Pad(l);
      if pad > |b| {
        break;
      }
      b := b[pad..];
    }
  }

  method NlaBuffer(o: Order, typ: u16, data: seq<byte>) returns (b: array<byte>)
    ensures fresh(b) && b[..] == Nla(o, Attr(typ, data))
  {
    var l := ATTR_HEADER + |data|;
    b := Buffers.NewBuffer(Pad(l));
    Buffers.CopyInto(b, 0, Bytes16(o, l % 0x1_0000));
    Buffers.CopyInto(b, 2, Bytes16(o, typ));
    Buffers.CopyInto(b, 4, data);
    assert b[l..] == Zeros(Pad(l) - l);
  }
}
