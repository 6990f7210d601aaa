// The named echo at one node: internal/node/echo.go, as functions on values
// and as the class that updates the waiter table.
module Echo {
  import opened Base

  const ECHO_TTL := 128

  // ---- names --------------------------------------------------------------

  function Lower(c: char): char {
    if 'A' <= c <= 'Z' then ((c as int - 'A' as int) + 'a' as int) as char else c
  }

  predicate Blank(c: char) {
    c == ' ' || '\t' <= c <= '\r'
  }

  function TrimLeft(s: string): (r: string)
    ensures r == [] || !Blank(r[0])
  {
    if s != [] && Blank(s[0]) then TrimLeft(s[1..]) else s
  }

  function TrimRight(s: string): (r: string)
    ensures r <= s && (r == [] || !Blank(r[|r| - 1]))
  {
    if s != [] && Blank(s[|s| - 1]) then TrimRight(s[..|s| - 1]) else s
  }

  predicate ValidName(s: string) {
    && 0 < |s| <= 63 && 'a' <= s[0] <= 'z'
    && forall i | 0 < i < |s| :: 'a' <= s[i] <= 'z' || '0' <= s[i] <= '9' || s[i] == '-'
  }

  /** Trims, lowercases and validates a node name. */
  function ParseName(s: string): Option<string> {
    var t := TrimRight(TrimLeft(s));
    var n := seq(|t|, i requires 0 <= i < |t| => Lower(t[i]));
    if ValidName(n) then Some(n) else None
  }

  /** Parsing is a projection: what it returns parses to itself, so a name
      parsed by the caller is the name every relay sees. */
  lemma ParsedNameIsFixed(s: string)
    ensures ParseName(s).Some? ==> ParseName(ParseName(s).value) == ParseName(s)
    ensures ValidName(s) ==> ParseName(s) == Some(s)
  {
    if ParseName(s).Some? {
      ValidNameIsFixed(ParseName(s).value);
    }
    if ValidName(s) {
      ValidNameIsFixed(s);
    }
  }

  lemma ValidNameIsFixed(s: string)
    requires ValidName(s)
    ensures ParseName(s) == Some(s)
  {
    assert !Blank(s[0]) && !Blank(s[|s| - 1]);
    assert seq(|s|, i requires 0 <= i < |s| => Lower(s[i])) == s;
  }

  // ---- one node's part of a flood -----------------------------------------

  /** The call a message belongs to. */
  datatype Key = Key(origin: Node, rpc: nat)

  datatype Msg =
    | Echo(key: Key, name: string, ttl: int, path: seq<string>)
    | EchoOk(key: Key, name: string, ula: string, path: seq<string>)
    | EchoErr(key: Key, name: string, error: string)

  datatype Waiter = Back(peer: Node) | Call

  type Waits = map<Key, Waiter>

  /** What a node says about itself. */
  datatype Site = Site(names: seq<string>, short: string, ula: string)

  function HopName(site: Site): string {
    if site.names != [] then site.names[0] else site.short
  }

  /** A live session by peer, with the names the peer goes by. */
  type Sessions = map<Node, seq<string>>

  /** What the node does not decide in one handling: the order in which it
      lists its sessions, the named session it finds first, which writes the
      transport accepts and what a failed one reports. */
  datatype Turn = Turn(order: seq<Node>, named: Option<Node>, accepts: set<Node>, fault: string)

  predicate FindsName(sessions: Sessions, name: string, named: Option<Node>) {
    match named
    case Some(p) => p in sessions && name in sessions[p]
    case None => forall p | p in sessions :: name !in sessions[p]
  }

  ghost predicate ValidTurn(sessions: Sessions, name: string, t: Turn) {
    Enumerates(t.order, sessions.Keys) && FindsName(sessions, name, t.named)
  }

  /** Everything one handling changes: the waiters, what is written to which
      peer, and what a local call receives. */
  datatype Effect = Effect(waits: Waits, out: seq<(Node, Msg)>, answer: Option<Msg>)

  function Write(to: Node, m: Msg, t: Turn): seq<(Node, Msg)> {
    if to in t.accepts then [(to, m)] else []
  }

  function Flood(order: seq<Node>, from: Option<Node>, m: Msg, t: Turn): (out: seq<(Node, Msg)>)
    ensures |out| <= |order|
    ensures forall i | 0 <= i < |out| :: out[i].0 in order && Some(out[i].0) != from && out[i].1 == m
  {
    if order == [] then [] else
    var last := order[|order| - 1];
    Flood(order[..|order| - 1], from, m, t) + if Some(last) == from then [] else Write(last, m, t)
  }

  /** Some session other than the one it came from refused the write. */
  predicate Refused(order: seq<Node>, from: Option<Node>, t: Turn) {
    exists p | p in order :: Some(p) != from && p !in t.accepts
  }

  function Dispatch(from: Option<Node>, m: Msg, t: Turn): (r: (seq<(Node, Msg)>, Option<string>))
    ensures r.1.Some? <==> r.0 == []
  {
    if t.named.Some? && t.named != from then
      var out := Write(t.named.value, m, t);
      (out, if out == [] then Some(t.fault) else None)
    else
      var out := Flood(t.order, from, m, t);
      (out, if out != [] then None else if Refused(t.order, from, t) then Some(t.fault) else Some("no route to " + m.name))
  }

  function Finish(waits: Waits, key: Key, m: Msg, t: Turn): Effect {
    if key !in waits then Effect(waits, [], None)
    else
      match waits[key]
      case Back(p) => Effect(waits - {key}, Write(p, m, t), None)
      case Call => Effect(waits - {key}, [], Some(m))
  }

  function HandleEcho(site: Site, waits: Waits, from: Node, m: Msg, t: Turn): Effect
    requires m.Echo?
  {
    match ParseName(m.name)
    case None => Effect(waits, [], None)
    case Some(name) =>
      var path := m.path + [HopName(site)];
      if name in site.names then Effect(waits, Write(from, EchoOk(m.key, name, site.ula, path), t), None)
      else if m.key in waits then Effect(waits, [], None)
      else
        var waiting := waits[m.key := Back(from)];
        var next := Echo(m.key, name, m.ttl - 1, path);
        if next.ttl < 0 then Finish(waiting, m.key, EchoErr(m.key, name, "ttl exceeded"), t)
        else
          var (out, err) := Dispatch(Some(from), next, t);
          if err.Some? then Finish(waiting, m.key, EchoErr(m.key, name, err.value), t)
          else Effect(waiting, out, None)
  }

  function Handle(site: Site, waits: Waits, from: Node, m: Msg, t: Turn): Effect {
    if m.Echo? then HandleEcho(site, waits, from, m, t) else Finish(waits, m.key, m, t)
  }

  /** A call as it starts: its waiter is in place before the flood leaves. */
  function StartCall(waits: Waits, key: Key, name: string, t: Turn): (Effect, Option<string>) {
    var (out, err) := Dispatch(None, Echo(key, name, ECHO_TTL, []), t);
    (Effect(waits[key := Call], out, None), err)
  }

  /** How far a call gets before it waits. */
  datatype Started = Invalid | Own(path: seq<string>) | Failed(error: string) | Waiting(key: Key)

  // ---- the node as the program keeps it -----------------------------------

  class EchoNode {
    const self: Node
    const site: Site
    var sessions: Sessions
    var waits: Waits
    var rpcSeq: nat
    var outbox: seq<(Node, Msg)>     // written to sessions, oldest first
    var answers: seq<(Key, Msg)>     // put on the channels of local calls

    constructor (self: Node, site: Site, sessions: Sessions)
      ensures this.self == self && this.site == site && this.sessions == sessions
      ensures waits == map[] && rpcSeq == 0 && outbox == [] && answers == []
    {
      this.self, this.site, this.sessions := self, site, sessions;
      waits, rpcSeq, outbox, answers := map[], 0, [], [];
    }

    ghost predicate Did(before: Waits, sent: seq<(Node, Msg)>, told: seq<(Key, Msg)>, key: Key, e: Effect)
      reads this`waits, this`outbox, this`answers
    {
      && waits == e.waits && outbox == sent + e.out
      && answers == told + if e.answer.Some? then [(key, e.answer.value)] else []
    }

    method SessionList() returns (order: seq<Node>)
      ensures Enumerates(order, sessions.Keys)
    {
      order := [];
      var todo := sessions.Keys;
      while todo != {}
        invariant todo <= sessions.Keys && Enumerates(order, sessions.Keys - todo)
        decreases |todo|
      {
        var p :| p in todo;
        order := order + [p];
        todo := todo - {p};
      }
      assert sessions.Keys - {} == sessions.Keys;
    }

    method SessionByName(name: string) returns (named: Option<Node>)
      ensures FindsName(sessions, name, named)
    {
      var order := SessionList();
      var i := 0;
      while i < |order|
        invariant i <= |order|
        invariant forall k | 0 <= k < i :: order[k] in sessions && name !in sessions[order[k]]
      {
        assert order[i] in order;
        if name in sessions[order[i]] {
          return Some(order[i]);
        }
        i := i + 1;
      }
      named := None;
    }

    method WriteTo(to: Node, m: Msg, accepts: set<Node>) returns (ok: bool)
      modifies this`outbox
      ensures ok <==> to in accepts
      ensures outbox == old(outbox) + if ok then [(to, m)] else []
    {
      ok := to in accepts;
      if ok {
        outbox := outbox + [(to, m)];
      }
    }

    /** Writes to every listed session but the one the message came from. */
    method FloodEcho(order: seq<Node>, from: Option<Node>, m: Msg, ghost t: Turn, accepts: set<Node>) returns (sent: nat, refused: bool)
      requires t.accepts == accepts
      modifies this`outbox
      ensures outbox == old(outbox) + Flood(order, from, m, t) && sent == |Flood(order, from, m, t)|
      ensures refused <==> Refused(order, from, t)
    {
      sent, refused := 0, false;
      var i := 0;
      while i < |order|
        invariant i <= |order|
        invariant outbox == old(outbox) + Flood(order[..i], from, m, t) && sent == |Flood(order[..i], from, m, t)|
        invariant refused <==> Refused(order[..i], from, t)
      {
        ghost var front := order[..i + 1];
        assert front[..i] == order[..i] && front == order[..i] + [order[i]];
        if Some(order[i]) != from {
          var ok := WriteTo(order[i], m, accepts);
          if ok {
            sent := sent + 1;
          } else {
            refused := true;
          }
        }
        i := i + 1;
      }
      assert order[..i] == order;
    }

    /** Forwards to a named session if there is one, else to every session but
        the one the message came from. */
    method DispatchEcho(from: Option<Node>, m: Msg, accepts: set<Node>, fault: string) returns (err: Option<string>, ghost t: Turn)
      modifies this`outbox
      ensures ValidTurn(sessions, m.name, t) && t.accepts == accepts && t.fault == fault
      ensures outbox == old(outbox) + Dispatch(from, m, t).0 && err == Dispatch(from, m, t).1
    {
      hide Flood, Refused;
      var named := SessionByName(m.name);
      var order := SessionList();
      t := Turn(order, named, accepts, fault);
      if named.Some? && named != from {
        var ok := WriteTo(named.value, m, accepts);
        err := if ok then None else Some(fault);
        return;
      }
      var sent, refused := FloodEcho(order, from, m, t, accepts);
      err := if sent > 0 then None else if refused then Some(fault) else Some("no route to " + m.name);
    }

    /** Hands a reply to whoever waits for it, once. */
    method FinishEcho(key: Key, m: Msg, accepts: set<Node>, ghost t: Turn)
      requires t.accepts == accepts
      modifies this`waits, this`outbox, this`answers
      ensures Did(old(waits), old(outbox), old(answers), key, Finish(old(waits), key, m, t))
    {
      if key !in waits {
        return;
      }
      var w := waits[key];
      waits := waits - {key};
      match w {
        case Back(p) =>
          var ok := WriteTo(p, m, accepts);
        case Call =>
          answers := answers + [(key, m)];
      }
    }

    method CompleteEcho(m: Msg, accepts: set<Node>, ghost t: Turn)
      requires !m.Echo? && t.accepts == accepts
      modifies this`waits, this`outbox, this`answers
      ensures Did(old(waits), old(outbox), old(answers), m.key, Finish(old(waits), m.key, m, t))
    {
      FinishEcho(m.key, m, accepts, t);
    }

    method ClearEcho(key: Key)
      modifies this`waits
      ensures waits == old(waits) - {key}
    {
      waits := waits - {key};
    }

    /** An echo from a session: answer it, drop a duplicate, or pass it on and
        remember the way back. */
    method HandleEchoMsg(from: Node, m: Msg, accepts: set<Node>, fault: string) returns (ghost t: Turn)
      requires m.Echo?
      modifies this`waits, this`outbox, this`answers
      ensures ParseName(m.name).Some? ==> ValidTurn(sessions, ParseName(m.name).value, t)
      ensures t.accepts == accepts && t.fault == fault
      ensures Did(old(waits), old(outbox), old(answers), m.key, HandleEcho(site, old(waits), from, m, t))
    {
      var parsed := ParseName(m.name);
      t := Turn([], None, accepts, fault);
      if parsed.None? {
        return;
      }
      var name := parsed.value;
      var named := SessionByName(name);
      var order := SessionList();
      t := Turn(order, named, accepts, fault);
      if name in site.names {
        var ok := WriteTo(from, EchoOk(m.key, name, site.ula, m.path + [HopName(site)]), accepts);
        return;
      }
      if m.key in waits {
        return;
      }
      waits := waits[m.key := Back(from)];
      var next := Echo(m.key, name, m.ttl - 1, m.path + [HopName(site)]);
      if next.ttl < 0 {
        FinishEcho(m.key, EchoErr(m.key, name, "ttl exceeded"), accepts, t);
        return;
      }
      var err;
      err, t := DispatchEcho(Some(from), next, accepts, fault);
      if err.Some? {
        FinishEcho(m.key, EchoErr(m.key, name, err.value), accepts, t);
      }
    }

    /** A call up to the point where it waits: a fresh number, a waiter, the
        flood. The node's own name needs none; a failed dispatch clears the
        waiter again. */
    method StartEcho(rawName: string, accepts: set<Node>, fault: string) returns (r: Started, ghost t: Turn)
      modifies this`waits, this`rpcSeq, this`outbox
      ensures r.Invalid? <==> ParseName(rawName).None?
      ensures r.Own? <==> ParseName(rawName).Some? && ParseName(rawName).value in site.names
      ensures r.Own? ==> r.path == [HopName(site)]
      ensures r.Invalid? || r.Own? ==> rpcSeq == old(rpcSeq) && waits == old(waits) && outbox == old(outbox)
      ensures r.Failed? || r.Waiting? ==>
                var key := Key(self, old(rpcSeq) + 1);
                var (e, failed) := StartCall(old(waits), key, ParseName(rawName).value, t);
                && ValidTurn(sessions, ParseName(rawName).value, t) && t.accepts == accepts && t.fault == fault
                && rpcSeq == key.rpc && outbox == old(outbox) + e.out
                && r == (if failed.Some? then Failed(failed.value) else Waiting(key))
                && waits == if failed.Some? then e.waits - {key} else e.waits
    {
      var parsed := ParseName(rawName);
      t := Turn([], None, accepts, fault);
      if parsed.None? {
        return Invalid, t;
      }
      var name := parsed.value;
      if name in site.names {
        return Own([HopName(site)]), t;
      }
      rpcSeq := rpcSeq + 1;
      var key := Key(self, rpcSeq);
      waits := waits[key := Call];
      var err;
      err, t := DispatchEcho(None, Echo(key, name, ECHO_TTL, []), accepts, fault);
      if err.Some? {
        ClearEcho(key);
        return Failed(err.value), t;
      }
      r := Waiting(key);
    }
  }
}
