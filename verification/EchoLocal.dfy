// What one node makes of one echo or reply: who is written to, who waits, and
// who is told, for any waiters and any sessions.
module EchoLocal {
  import opened Base
  import opened Echo
  import EchoFlood

  /** A flood writes the message once to every session that accepts it, except
      the one it came from. */
  lemma {:induction false} FloodIsExact(order: seq<Node>, from: Option<Node>, m: Msg, t: Turn, p: Node)
    ensures (p, m) in Flood(order, from, m, t) <==> p in order && Some(p) != from && p in t.accepts
    ensures (forall i, j | 0 <= i < j < |order| :: order[i] != order[j]) ==>
              forall i, j | 0 <= i < j < |Flood(order, from, m, t)| :: Flood(order, from, m, t)[i] != Flood(order, from, m, t)[j]
  {
    if order != [] {
      var front, last := order[..|order| - 1], order[|order| - 1];
      FloodIsExact(front, from, m, t, p);
      assert order == front + [last];
      FloodIsExact(front, from, m, t, last);
      if last in front {
        var i :| 0 <= i < |front| && front[i] == last;
        assert order[i] == order[|order| - 1];
      }
    }
  }

  /** Who gets a message that a node passes on: the session it knows by the
      name, unless the message came from there, else every other session. */
  predicate Gets(sessions: Sessions, from: Option<Node>, t: Turn, p: Node) {
    p in t.accepts && if t.named.Some? && t.named != from then Some(p) == t.named else p in sessions && Some(p) != from
  }

  /** There is nobody but the sender to write to. */
  predicate Alone(sessions: Sessions, from: Option<Node>) {
    forall p | p in sessions :: Some(p) == from
  }

  lemma {:induction false} DispatchIsExact(sessions: Sessions, from: Option<Node>, m: Msg, t: Turn)
    requires m.Echo? && ValidTurn(sessions, m.name, t)
    ensures var (out, err) := Dispatch(from, m, t);
            && (forall i | 0 <= i < |out| :: out[i].1 == m)
            && (forall p :: (p, m) in out <==> Gets(sessions, from, t, p))
            && (err.None? <==> exists p :: Gets(sessions, from, t, p))
            && (err.Some? ==> err.value == if Alone(sessions, from) then "no route to " + m.name else t.fault)
  {
    var (out, err) := Dispatch(from, m, t);
    forall p ensures (p, m) in out <==> Gets(sessions, from, t, p) {
      FloodIsExact(t.order, from, m, t, p);
      assert p in t.order <==> p in sessions.Keys;
    }
    if out != [] {
      assert out[0].1 == m && (out[0].0, m) in out;
    }
    assert forall p :: p in t.order <==> p in sessions.Keys;
  }

  /** What becomes of an echo, when its sender's session takes a write. A holder
      answers; a name that does not parse and a call already waited for are
      dropped; otherwise it is passed on with its hop counted and the way back
      kept, or the sender is told why not and nothing is kept. */
  lemma {:induction false} EchoSettled(site: Site, sessions: Sessions, waits: Waits, from: Node, m: Msg, t: Turn, name: string)
    requires m.Echo? && from in t.accepts && ParseName(m.name) == Some(name) && ValidTurn(sessions, name, t)
    ensures var e := HandleEcho(site, waits, from, m, t);
            var path := m.path + [if |site.names| > 0 then site.names[0] else site.short];
            var next := Echo(m.key, name, m.ttl - 1, path);
            e.answer.None? &&
            if name in site.names then e.waits == waits && e.out == [(from, EchoOk(m.key, name, site.ula, path))]
            else if m.key in waits then e.waits == waits && e.out == []
            else if m.ttl < 1 then e.waits == waits && e.out == [(from, EchoErr(m.key, name, "ttl exceeded"))]
            else if exists p :: Gets(sessions, Some(from), t, p) then
              && e.waits == waits[m.key := Back(from)] && (forall i | 0 <= i < |e.out| :: e.out[i].1 == next)
              && forall p :: (p, next) in e.out <==> Gets(sessions, Some(from), t, p)
            else
              && e.waits == waits
              && e.out == [(from, EchoErr(m.key, name, if Alone(sessions, Some(from)) then "no route to " + name else t.fault))]
  {
    hide Dispatch, ParseName, ValidTurn, Gets, Alone;
    if name !in site.names && m.key !in waits {
      assert waits[m.key := Back(from)] - {m.key} == waits;
      DispatchIsExact(sessions, Some(from), Echo(m.key, name, m.ttl - 1, m.path + [HopName(site)]), t);
    }
  }

  lemma UnparsedIsDropped(site: Site, waits: Waits, from: Node, m: Msg, t: Turn)
    requires m.Echo? && ParseName(m.name).None?
    ensures HandleEcho(site, waits, from, m, t) == Effect(waits, [], None)
  {
  }

  /** A reply goes to whoever waits for it, once: back along the way the echo
      came, or to the local call; nobody else hears of it. */
  lemma ReplySettled(site: Site, waits: Waits, from: Node, m: Msg, t: Turn)
    requires !m.Echo?
    ensures var e := Handle(site, waits, from, m, t);
            && m.key !in e.waits && (forall k | k != m.key :: k in e.waits <==> k in waits)
            && (forall k | k in e.waits :: e.waits[k] == waits[k])
            && (e.answer == if m.key in waits && waits[m.key] == Call then Some(m) else None)
            && (e.out == if m.key in waits && waits[m.key].Back? && waits[m.key].peer in t.accepts then [(waits[m.key].peer, m)] else [])
  {
  }

  /** A call that nobody could be written to leaves nothing behind. */
  lemma {:induction false} FailedCallLeavesNothing(sessions: Sessions, waits: Waits, key: Key, name: string, t: Turn)
    requires ValidTurn(sessions, name, t) && key !in waits
    ensures var e := EchoFlood.Launch(waits, key, name, t);
            if exists p :: Gets(sessions, None, t, p) then e.waits == waits[key := Call] && e.out != [] else e == Effect(waits, [], None)
  {
    hide ValidTurn, Dispatch;
    DispatchIsExact(sessions, None, Echo(key, name, 128, []), t);
    assert waits[key := Call] - {key} == waits;
    if p :| Gets(sessions, None, t, p) {
      assert (p, Echo(key, name, 128, [])) in Dispatch(None, Echo(key, name, 128, []), t).0;
    }
  }

  /** A call leaves with 128 hops to go and an empty path. */
  lemma {:induction false} CallLeaves(sessions: Sessions, waits: Waits, key: Key, name: string, t: Turn)
    requires ValidTurn(sessions, name, t)
    ensures var (e, err) := StartCall(waits, key, name, t);
            var m := Echo(key, name, 128, []);
            && e.waits == waits[key := Call] && e.answer.None?
            && (forall p :: (p, m) in e.out <==> Gets(sessions, None, t, p))
            && (forall i | 0 <= i < |e.out| :: e.out[i].1 == m)
            && (err.None? <==> exists p :: Gets(sessions, None, t, p))
            && (err.Some? ==> err.value == if sessions == map[] then "no route to " + name else t.fault)
  {
    hide ValidTurn, Dispatch;
    DispatchIsExact(sessions, None, Echo(key, name, 128, []), t);
    assert Alone(sessions, None) <==> sessions == map[];
  }
}
