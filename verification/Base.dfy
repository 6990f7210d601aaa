// Vocabulary shared by every module of the model.
module Base {

  type byte = b: int | 0 <= b < 256

  datatype Option<+T> = None | Some(value: T)

  /** A mesh member, named by its 16-byte overlay address. The program keys
      sessions by NodeID and routes by the ULA derived from it; the model
      identifies the two, which assumes the derivation is injective on the
      nodes of one mesh. */
  datatype Node = Node(ula: seq<byte>)

  /** A 32-bit field, most significant byte first. */
  function Be32(v: nat): (r: seq<byte>)
    ensures |r| == 4
  {
    [v / 256 / 256 / 256 % 256, v / 256 / 256 % 256, v / 256 % 256, v % 256]
  }

  /** A 16-bit field; longer values lose their high bits. */
  function Be16(v: nat): (r: seq<byte>)
    ensures |r| == 2
  {
    [v / 256 % 256, v % 256]
  }

  /** A byte string read as one number, most significant byte first. */
  function Number(s: seq<byte>): nat {
    if s == [] then 0 else 256 * Number(s[..|s| - 1]) + s[|s| - 1]
  }

  lemma OneDigitMore(s: seq<byte>, d: byte)
    ensures Number(s + [d]) == 256 * Number(s) + d
  {
    assert (s + [d])[..|s|] == s;
  }

  lemma Be32IsNumber(v: nat)
    requires v < 0x1_0000_0000
    ensures Number(Be32(v)) == v
  {
    hide Number;
    var b := Be32(v);
    NumberOfNothing();
    OneDigitMore([], b[0]);
    OneDigitMore([] + [b[0]], b[1]);
    OneDigitMore([] + [b[0]] + [b[1]], b[2]);
    OneDigitMore([] + [b[0]] + [b[1]] + [b[2]], b[3]);
    assert b == [] + [b[0]] + [b[1]] + [b[2]] + [b[3]];
  }

  lemma Be16IsNumber(v: nat)
    requires v < 0x1_0000
    ensures Number(Be16(v)) == v
  {
    hide Number;
    NumberOfNothing();
    OneDigitMore([], v / 256);
    OneDigitMore([] + [v / 256], v % 256);
    assert Be16(v) == [] + [v / 256] + [v % 256];
  }

  lemma NumberOfNothing()
    ensures Number([]) == 0
  {
  }

  /** q lists the elements of s once each. */
  ghost predicate Enumerates<T(!new)>(q: seq<T>, s: set<T>) {
    && (forall i, j | 0 <= i < j < |q| :: q[i] != q[j])
    && (forall e :: e in q <==> e in s)
  }

  lemma {:induction false} EnumerationSize<T(!new)>(q: seq<T>, s: set<T>)
    requires Enumerates(q, s)
    ensures |q| == |s|
  {
    if q == [] {
      assert s == {};
    } else {
      var front, last := q[..|q| - 1], q[|q| - 1];
      assert last in q && q == front + [last];
      assert forall e :: e in front <==> e in s - {last};
      EnumerationSize(front, s - {last});
    }
  }

  lemma {:induction false} Enumerate<T(!new)>(s: set<T>) returns (q: seq<T>)
    ensures Enumerates(q, s)
    decreases |s|
  {
    q := [];
    if s != {} {
      var e :| e in s;
      var rest := Enumerate(s - {e});
      q := rest + [e];
      assert forall x :: x in q <==> x in rest || x == e;
    }
  }

  /** One end of a session: the node that holds it and the peer it leads to. */
  type Link = (Node, Node)
}
