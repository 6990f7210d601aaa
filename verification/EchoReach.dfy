// What a named echo finds and what it may miss: a name held by a session peer
// is always found, but a dead end's error can answer the call first when the
// holder is further away.
module EchoReach {
  import opened Base
  import opened Echo
  import opened EchoFlood
  import opened EchoPath
  import opened EchoExact

  lemma Listed(order: seq<Node>, s: set<Node>, n: Node)
    requires Enumerates(order, s) && n in s
    ensures n in order
  {
  }

  /** A neighbour of the caller with no other session and not the name. */
  ghost predicate DeadEnd(g: Graph, o: Node, a: Node, name: string) {
    && ValidName(name) && a != o
    && name !in g.site(o).names && name !in g.site(a).names
    && a in g.sessions(o) && g.sessions(a).Keys == {o}
    && forall p | p in g.sessions(o) :: name !in g.sessions(o)[p]
  }

  /** The caller's flood, with the copy for the dead end at position i. */
  lemma {:induction false} FloodLeaves(g: Graph, o: Node, a: Node, name: string) returns (t: Turn, i: nat, s: State)
    requires DeadEnd(g, o, a, name)
    ensures Enabled(g, Start, StartsCall(o, name, t)) && s == Step(g, Start, StartsCall(o, name, t))
    ensures i < |s.flight| && s.flight[i] == Flight(o, a, Echo(Key(o, 1), name, ECHO_TTL, []))
    ensures WaitsOf(s, o) == map[Key(o, 1) := Call] && WaitsOf(s, a) == map[] && s.answers == []
  {
    hide ParseName, ValidName, Flood, Refused, Enumerates;
    ParsedNameIsFixed(name);
    var order := Enumerate(g.sessions(o).Keys);
    assert a in order by {
      Listed(order, g.sessions(o).Keys, a);
    }
    t := Turn(order, None, g.sessions(o).Keys, "");
    var m := Echo(Key(o, 1), name, ECHO_TTL, []);
    i := FloodReaches(order, None, m, t, a);
    s := Step(g, Start, StartsCall(o, name, t));
    var out := Flood(order, None, m, t);
    assert Dispatch(None, m, t) == (out, None);
    assert s.flight == [] + Sent(o, out);
  }

  /** The dead end has nowhere to pass the echo on to. */
  lemma {:induction false} DeadEndRefuses(g: Graph, o: Node, a: Node, name: string) returns (t: Turn)
    requires DeadEnd(g, o, a, name)
    ensures ParseName(name) == Some(name) && ValidTurn(g.sessions(a), name, t)
    ensures var key := Key(o, 1);
            Handle(g.site(a), map[], o, Echo(key, name, ECHO_TTL, []), t)
            == Effect(map[], [(o, EchoErr(key, name, "no route to " + name))], None)
  {
    hide ParseName, ValidName;
    ParsedNameIsFixed(name);
    var named := if name in g.sessions(a)[o] then Some(o) else None;
    t := Turn([o], named, {o}, "");
    var key := Key(o, 1);
    var next := Echo(key, name, ECHO_TTL - 1, [] + [HopName(g.site(a))]);
    assert Flood([o], Some(o), next, t) == [] by {
      assert [o][..0] == [];
    }
    assert !Refused(t.order, Some(o), t);
    assert Dispatch(Some(o), next, t) == ([], Some("no route to " + name));
    var waiting: Waits := map[][key := Back(o)];
    assert waiting - {key} == map[];
  }

  /** Whatever the rest of the mesh looks like, and whoever holds the name: one
      dead end beside the caller suffices for the call to be told there is no
      route. */
  lemma {:induction false} DeadEndDefeatsCall(g: Graph, o: Node, a: Node, name: string) returns (run: seq<Event>)
    requires DeadEnd(g, o, a, name)
    ensures ValidRun(g, Start, run) && Calls(run) == 1
    ensures Exec(g, Start, run).answers == [(o, Key(o, 1), EchoErr(Key(o, 1), name, "no route to " + name))]
  {
    var key := Key(o, 1);
    var err := EchoErr(key, name, "no route to " + name);
    var t0, i, s1 := FloodLeaves(g, o, a, name);
    var t1 := DeadEndRefuses(g, o, a, name);
    var s2 := DeadEndReplies(g, o, a, name, s1, i, t1);
    var j := |s2.flight| - 1;
    var s3 := Step(g, s2, Deliver(j, t1));
    assert s3.answers == [(o, key, err)];
    run := [StartsCall(o, name, t0), Deliver(i, t1), Deliver(j, t1)];
    ThreeSteps(g, run, s1, s2, s3);
  }

  lemma {:induction false} DeadEndReplies(g: Graph, o: Node, a: Node, name: string, s: State, i: nat, t: Turn) returns (s': State)
    requires DeadEnd(g, o, a, name) && ParseName(name) == Some(name) && ValidTurn(g.sessions(a), name, t)
    requires i < |s.flight| && s.flight[i] == Flight(o, a, Echo(Key(o, 1), name, ECHO_TTL, []))
    requires WaitsOf(s, o) == map[Key(o, 1) := Call] && WaitsOf(s, a) == map[] && s.answers == []
    requires Handle(g.site(a), map[], o, Echo(Key(o, 1), name, ECHO_TTL, []), t)
             == Effect(map[], [(o, EchoErr(Key(o, 1), name, "no route to " + name))], None)
    ensures Enabled(g, s, Deliver(i, t)) && s' == Step(g, s, Deliver(i, t))
    ensures s'.flight != [] && s'.flight[|s'.flight| - 1] == Flight(a, o, EchoErr(Key(o, 1), name, "no route to " + name))
    ensures WaitsOf(s', o) == map[Key(o, 1) := Call] && s'.answers == []
  {
    hide ParseName, ValidName, ValidTurn, Handle;
    s' := Step(g, s, Deliver(i, t));
  }

  lemma {:induction false} ThreeSteps(g: Graph, run: seq<Event>, s1: State, s2: State, s3: State)
    requires |run| == 3
    requires Enabled(g, Start, run[0]) && s1 == Step(g, Start, run[0])
    requires Enabled(g, s1, run[1]) && s2 == Step(g, s1, run[1])
    requires Enabled(g, s2, run[2]) && s3 == Step(g, s2, run[2])
    ensures ValidRun(g, Start, run) && Exec(g, Start, run) == s3
    ensures Calls(run) == (if run[0].StartsCall? then 1 else 0) + (if run[1].StartsCall? then 1 else 0) + (if run[2].StartsCall? then 1 else 0)
  {
    hide Enabled, Step;
    var r1, r2, r3 := run[1..], run[1..][1..], run[1..][1..][1..];
    assert r1[0] == run[1] && r2[0] == run[2] && r3 == [];
    assert ValidRun(g, s3, r3) && Exec(g, s3, r3) == s3 && Calls(r3) == 0;
    assert Calls(r2) == (if run[2].StartsCall? then 1 else 0) + Calls(r3) && Calls(r1) == (if run[1].StartsCall? then 1 else 0) + Calls(r2);
    assert ValidRun(g, s2, r2) && Exec(g, s2, r2) == s3;
    assert ValidRun(g, s1, r1) && Exec(g, s1, r1) == s3;
  }

  // ---- a name held next door ----------------------------------------------

  /** Some session peer of o goes by the name, and all that do hold it. */
  ghost predicate HeldNextDoor(g: Graph, o: Node, name: string) {
    && ValidName(name) && name !in g.site(o).names && o !in g.sessions(o)
    && (exists p :: p in g.sessions(o) && name in g.sessions(o)[p])
    && forall p :: p in g.sessions(o) && name in g.sessions(o)[p] ==> name in g.site(p).names
  }

  lemma {:induction false} AsksNextDoor(g: Graph, o: Node, name: string, t: Turn) returns (h: Node, s: State)
    requires HeldNextDoor(g, o, name) && ValidTurn(g.sessions(o), name, t) && g.sessions(o).Keys <= t.accepts
    ensures t.named == Some(h) && h in g.sessions(o) && name in g.sessions(o)[h]
    ensures Enabled(g, Start, StartsCall(o, name, t)) && s == Step(g, Start, StartsCall(o, name, t))
    ensures s.flight == [Flight(o, h, Echo(Key(o, 1), name, ECHO_TTL, []))]
    ensures WaitsOf(s, o) == map[Key(o, 1) := Call] && s.answers == []
  {
    hide ParseName, ValidName, Flood, Refused, Enumerates;
    ParsedNameIsFixed(name);
    s := Step(g, Start, StartsCall(o, name, t));
    assert t.named.Some?;
    h := t.named.value;
    assert Dispatch(None, Echo(Key(o, 1), name, ECHO_TTL, []), t) == ([(h, Echo(Key(o, 1), name, ECHO_TTL, []))], None);
  }

  lemma {:induction false} AnswersNextDoor(g: Graph, o: Node, h: Node, name: string, s: State, t: Turn) returns (s': State)
    requires ValidName(name) && name in g.site(h).names && ValidTurn(g.sessions(h), name, t) && o in t.accepts && o != h
    requires s.flight == [Flight(o, h, Echo(Key(o, 1), name, ECHO_TTL, []))]
    requires WaitsOf(s, o) == map[Key(o, 1) := Call] && s.answers == []
    ensures Enabled(g, s, Deliver(0, t)) && s' == Step(g, s, Deliver(0, t))
    ensures s'.flight == [Flight(h, o, EchoOk(Key(o, 1), name, g.site(h).ula, [HopName(g.site(h))]))]
    ensures WaitsOf(s', o) == map[Key(o, 1) := Call] && s'.answers == []
  {
    hide ParseName, ValidName, ValidTurn;
    ParsedNameIsFixed(name);
    s' := Step(g, s, Deliver(0, t));
    assert [] + [HopName(g.site(h))] == [HopName(g.site(h))];
  }

  /** Whatever order sessions are listed in, and whatever else the mesh holds:
      if the two writes go through, the call is told the address of one of the
      holders next door over the one-hop path. */
  lemma {:induction false} NeighbourIsFound(g: Graph, o: Node, name: string, asking: Turn, answering: Turn, last: Turn)
    requires HeldNextDoor(g, o, name)
    requires ValidTurn(g.sessions(o), name, asking) && g.sessions(o).Keys <= asking.accepts
    requires asking.named.Some? ==> ValidTurn(g.sessions(asking.named.value), name, answering) && o in answering.accepts
    ensures asking.named.Some?
    ensures var h := asking.named.value;
            var run := [StartsCall(o, name, asking), Deliver(0, answering), Deliver(0, last)];
            && h in g.sessions(o) && name in g.site(h).names && ValidRun(g, Start, run)
            && Exec(g, Start, run).answers
               == [(o, Key(o, 1), EchoOk(Key(o, 1), name, g.site(h).ula, [HopName(g.site(h))]))]
  {
    hide ValidTurn;
    var run := [StartsCall(o, name, asking), Deliver(0, answering), Deliver(0, last)];
    var h, s1 := AsksNextDoor(g, o, name, asking);
    var s2 := AnswersNextDoor(g, o, h, name, s1, answering);
    var s3 := Step(g, s2, Deliver(0, last));
    ThreeSteps(g, run, s1, s2, s3);
  }

  // ---- along a line -------------------------------------------------------

  /** Distinct nodes, one session apart, none a holder, and none but the last
      with a session to a holder. */
  ghost predicate Line(g: Graph, name: string, w: seq<Node>) {
    && 1 <= |w| <= ECHO_TTL + 1 && Walk(g, w) && (forall i, j | 0 <= i < j < |w| :: w[i] != w[j])
    && (forall i | 0 <= i < |w| - 1 :: Quiet(g, w[i], name)) && !Holds(g, w[|w| - 1], name)
  }

  /** w[k] knows the way back. */
  ghost predicate BackAt(s: State, key: Key, w: seq<Node>, k: nat) {
    1 <= k < |w| && key in WaitsOf(s, w[k]) && WaitsOf(s, w[k])[key] == Back(w[k - 1])
  }

  /** The call waits at the head of the line, and up to position i the nodes
      know the way back. */
  ghost predicate WaitingTo(s: State, key: Key, w: seq<Node>, i: nat) {
    && w != [] && Awaits(WaitsOf(s, w[0]), key) && s.answers == []
    && forall k | 1 <= k < i :: BackAt(s, key, w, k)
  }

  /** From position i on nobody has heard of the call. */
  ghost predicate SilentFrom(s: State, key: Key, w: seq<Node>, i: nat) {
    forall k | i <= k < |w| :: key !in WaitsOf(s, w[k])
  }

  /** The echo is on its way from w[i - 1] to w[i]. */
  ghost predicate AtFront(s: State, key: Key, name: string, w: seq<Node>, i: nat, at: nat) {
    && 1 <= i < |w| && WaitingTo(s, key, w, i) && SilentFrom(s, key, w, i) && at < |s.flight|
    && var f := s.flight[at];
       f.from == w[i - 1] && f.to == w[i] && f.msg.Echo? && f.msg.key == key && f.msg.name == name && f.msg.ttl == ECHO_TTL - (i - 1)
  }

  /** The echo is on its way from the end of the line to a holder. */
  ghost predicate Asked(g: Graph, s: State, key: Key, name: string, w: seq<Node>, at: nat, h: Node) {
    && w != [] && at < |s.flight| && Holds(g, h, name) && WaitingTo(s, key, w, |w|)
    && var f := s.flight[at];
       f.from == w[|w| - 1] && f.to == h && f.msg.Echo? && f.msg.key == key && f.msg.name == name
  }

  /** A reply is on its way to w[i], and from there the way back is open. */
  ghost predicate AtBack(s: State, w: seq<Node>, i: nat, at: nat, m: Msg) {
    i < |w| && at < |s.flight| && s.flight[at].to == w[i] && s.flight[at].msg == m && !m.Echo? && WaitingTo(s, m.key, w, i + 1)
  }

  lemma {:induction false} Prepend(g: Graph, name: string, s: State, e: Event, rest: seq<Event>)
    requires Enabled(g, s, e) && ValidRun(g, Step(g, s, e), rest) && PlainFaults(rest, name)
    requires !e.EndsCall? ==> e.turn.fault != NoRoute(name)
    ensures ValidRun(g, s, [e] + rest) && Exec(g, s, [e] + rest) == Exec(g, Step(g, s, e), rest) && PlainFaults([e] + rest, name)
  {
    hide Step, Enabled;
    assert ([e] + rest)[1..] == rest;
  }

  lemma {:induction false} TurnAt(g: Graph, n: Node, name: string, from: set<Node>) returns (t: Turn)
    requires TrueGraph(g)
    ensures ValidTurn(g.sessions(n), name, t) && t.accepts == g.sessions(n).Keys + from && t.fault != NoRoute(name)
    ensures t.named.None? <==> forall p :: p in g.sessions(n) ==> !Holds(g, p, name)
    ensures t.named.Some? ==> t.named.value in g.sessions(n) && Holds(g, t.named.value, name)
  {
    var order := Enumerate(g.sessions(n).Keys);
    t := Turn(order, None, g.sessions(n).Keys + from, "");
    if p :| p in g.sessions(n) && Holds(g, p, name) {
      t := t.(named := Some(p));
    }
  }

  /** A delivery, for those who only care what its handling did. */
  lemma {:induction false} Delivered(g: Graph, s: State, at: nat, t: Turn, e: Effect) returns (s': State)
    requires Enabled(g, s, Deliver(at, t))
    requires var f := s.flight[at]; e == Handle(g.site(f.to), WaitsOf(s, f.to), f.from, f.msg, t)
    ensures s' == Step(g, s, Deliver(at, t))
    ensures var n := s.flight[at].to;
            && WaitsOf(s', n) == e.waits && (forall x | x != n :: WaitsOf(s', x) == WaitsOf(s, x))
            && s'.answers == s.answers + (if e.answer.Some? then [(n, s.flight[at].msg.key, e.answer.value)] else [])
            && |s'.flight| == |s.flight| - 1 + |e.out|
            && forall k | 0 <= k < |e.out| :: s'.flight[|s.flight| - 1 + k] == Flight(n, e.out[k].0, e.out[k].1)
  {
    hide Handle, ValidTurn;
    s' := Step(g, s, Deliver(at, t));
  }

  lemma Distinct(g: Graph, name: string, w: seq<Node>)
    requires Line(g, name, w)
    ensures forall i, j | 0 <= i < |w| && 0 <= j < |w| && i != j :: w[i] != w[j]
  {
  }

  /** The line's waiters after w[i] has taken note of the call. */
  lemma {:induction false} Advances(g: Graph, name: string, s: State, s': State, key: Key, w: seq<Node>, i: nat)
    requires Line(g, name, w) && 1 <= i < |w| && WaitingTo(s, key, w, i) && SilentFrom(s, key, w, i) && s'.answers == []
    requires forall x | x != w[i] :: WaitsOf(s', x) == WaitsOf(s, x)
    requires WaitsOf(s', w[i]) == WaitsOf(s, w[i])[key := Back(w[i - 1])]
    ensures WaitingTo(s', key, w, i + 1) && SilentFrom(s', key, w, i + 1)
  {
    Distinct(g, name, w);
    forall k: nat | 1 <= k < i + 1 ensures BackAt(s', key, w, k) {
      if k < i {
        assert BackAt(s, key, w, k);
      }
    }
  }

  /** A quiet node hearing of a call for the first time passes it to each of
      its other sessions. */
  lemma {:induction false} FloodsOn(g: Graph, name: string, n: Node, waits: Waits, from: Node, m: Msg, to: Node)
    returns (t: Turn, e: Effect, k: nat)
    requires TrueGraph(g) && ValidName(name) && Quiet(g, n, name) && to in g.sessions(n) && to != from
    requires m.Echo? && m.name == name && m.key !in waits && m.ttl >= 1
    ensures ValidTurn(g.sessions(n), name, t) && ParseName(name) == Some(name) && t.fault != NoRoute(name)
    ensures e == Handle(g.site(n), waits, from, m, t) && e.answer.None? && e.waits == waits[m.key := Back(from)]
    ensures k < |e.out| && e.out[k] == (to, Echo(m.key, name, m.ttl - 1, m.path + [HopName(g.site(n))]))
  {
    t := TurnAt(g, n, name, {});
    ParsedNameIsFixed(name);
    hide ParseName, ValidName, TrueGraph, Flood, Refused, Handle;
    var next := Echo(m.key, name, m.ttl - 1, m.path + [HopName(g.site(n))]);
    InOrder(t.order, g.sessions(n).Keys, to);
    k := FloodReaches(t.order, Some(from), next, t, to);
    e := ForwardEffect(g, n, name, waits, from, m, t);
  }

  /** One hop further along the line. */
  lemma {:induction false} StepsForward(g: Graph, name: string, key: Key, w: seq<Node>, s: State, i: nat, at: nat)
    returns (t: Turn, s': State, at': nat)
    requires TrueGraph(g) && ValidName(name) && Line(g, name, w) && AtFront(s, key, name, w, i, at) && i < |w| - 1
    ensures Enabled(g, s, Deliver(at, t)) && s' == Step(g, s, Deliver(at, t)) && t.fault != NoRoute(name)
    ensures AtFront(s', key, name, w, i + 1, at')
  {
    var f, n, to := s.flight[at], w[i], w[i + 1];
    LineAt(g, name, w, i);
    assert key !in WaitsOf(s, n);
    hide ParseName, ValidName, TrueGraph, Line, ValidTurn, Step, Handle, Quiet, SilentFrom, WaitingTo;
    var e, k;
    t, e, k := FloodsOn(g, name, n, WaitsOf(s, n), f.from, f.msg, to);
    s' := Delivered(g, s, at, t, e);
    at' := |s.flight| - 1 + k;
    NoAnswerYet(s, key, w, i);
    Advances(g, name, s, s', key, w, i);
  }

  lemma LineAt(g: Graph, name: string, w: seq<Node>, i: nat)
    requires Line(g, name, w) && 1 <= i < |w| - 1
    ensures Quiet(g, w[i], name) && w[i + 1] in g.sessions(w[i]) && w[i + 1] != w[i - 1] && i < ECHO_TTL
  {
  }

  lemma NoAnswerYet(s: State, key: Key, w: seq<Node>, i: nat)
    requires WaitingTo(s, key, w, i)
    ensures s.answers == []
  {
  }

  lemma InOrder(order: seq<Node>, s: set<Node>, n: Node)
    requires Enumerates(order, s) && n in s
    ensures n in order
  {
  }

  /** A quiet node hearing of a call for the first time floods it. */
  lemma {:induction false} ForwardEffect(g: Graph, n: Node, name: string, waits: Waits, from: Node, m: Msg, t: Turn) returns (e: Effect)
    requires m.Echo? && m.name == name && ParseName(name) == Some(name) && !Holds(g, n, name) && m.key !in waits && m.ttl >= 1
    requires t.named.None?
    requires Flood(t.order, Some(from), Echo(m.key, name, m.ttl - 1, m.path + [HopName(g.site(n))]), t) != []
    ensures e == Handle(g.site(n), waits, from, m, t)
    ensures e == Effect(waits[m.key := Back(from)],
                        Flood(t.order, Some(from), Echo(m.key, name, m.ttl - 1, m.path + [HopName(g.site(n))]), t), None)
  {
    hide ParseName, Flood;
    e := Handle(g.site(n), waits, from, m, t);
  }

  /** One hop back along the line. */
  lemma {:induction false} StepsBack(g: Graph, name: string, w: seq<Node>, s: State, i: nat, at: nat, m: Msg)
    returns (t: Turn, s': State, at': nat)
    requires Line(g, name, w) && AtBack(s, w, i, at, m)
    ensures Enabled(g, s, Deliver(at, t)) && s' == Step(g, s, Deliver(at, t)) && t.fault != NoRoute(name)
    ensures if i == 0 then s'.answers == [(w[0], m.key, m)] else AtBack(s', w, i - 1, at', m)
  {
    Distinct(g, name, w);
    hide Line, Step;
    t := Turn([], None, if i > 0 then {w[i - 1]} else {}, "");
    var e := Handle(g.site(w[i]), WaitsOf(s, w[i]), s.flight[at].from, m, t);
    s' := Delivered(g, s, at, t, e);
    at' := |s.flight| - 1;
    if i > 0 {
      assert BackAt(s, m.key, w, i);
      assert e == Effect(WaitsOf(s, w[i]) - {m.key}, [(w[i - 1], m)], None);
      assert s'.flight[|s.flight| - 1 + 0] == Flight(w[i], w[i - 1], m);
      forall k: nat | 1 <= k < i ensures BackAt(s', m.key, w, k) {
        assert BackAt(s, m.key, w, k);
      }
    }
  }

  lemma {:induction false} Returns(g: Graph, name: string, w: seq<Node>, s: State, i: nat, at: nat, m: Msg) returns (run: seq<Event>)
    requires Line(g, name, w) && AtBack(s, w, i, at, m)
    ensures ValidRun(g, s, run) && PlainFaults(run, name) && Exec(g, s, run).answers == [(w[0], m.key, m)]
    decreases i
  {
    hide Step, Enabled, AtBack, Line;
    var t, s', at' := StepsBack(g, name, w, s, i, at, m);
    var rest := [];
    if i > 0 {
      rest := Returns(g, name, w, s', i - 1, at', m);
    }
    run := [Deliver(at, t)] + rest;
    Prepend(g, name, s, Deliver(at, t), rest);
  }

  /** Does the reply say what the line's end makes it say? */
  predicate Says(m: Msg, name: string, found: bool) {
    if found then m.EchoOk? && m.name == name else SaysNoRoute(m, name)
  }

  /** The end of the line: a node with no session but the one behind it, or
      one with a session to a holder. */
  ghost predicate Ends(g: Graph, name: string, w: seq<Node>, found: bool) {
    w != [] &&
    var y := w[|w| - 1];
    if found then !Quiet(g, y, name) else |w| >= 2 && g.sessions(y).Keys == {w[|w| - 2]}
  }

  lemma {:induction false} DeadEndTurnsBack(g: Graph, name: string, key: Key, w: seq<Node>, s: State, at: nat)
    returns (t: Turn, s': State, at': nat, m: Msg)
    requires TrueGraph(g) && ValidName(name) && Line(g, name, w) && AtFront(s, key, name, w, |w| - 1, at)
    requires Ends(g, name, w, false)
    ensures Enabled(g, s, Deliver(at, t)) && s' == Step(g, s, Deliver(at, t)) && t.fault != NoRoute(name)
    ensures SaysNoRoute(m, name) && m.key == key && AtBack(s', w, |w| - 2, at', m)
  {
    var i := |w| - 1;
    var f, n := s.flight[at], w[i];
    t := TurnAt(g, n, name, {f.from});
    ParsedNameIsFixed(name);
    Distinct(g, name, w);
    assert Quiet(g, f.from, name) && key !in WaitsOf(s, n) && !Holds(g, n, name);
    assert t.named.None? && (forall p | p in t.order :: p == f.from);
    hide ParseName, ValidName, TrueGraph, Line, Ends, Step, Quiet, SilentFrom;
    m := EchoErr(key, name, NoRoute(name));
    var e := TurnBackEffect(g, n, name, WaitsOf(s, n), f.from, f.msg, t);
    s' := Delivered(g, s, at, t, e);
    at' := |s.flight| - 1;
    assert s'.flight[|s.flight| - 1 + 0] == Flight(n, f.from, m);
    forall k: nat | 1 <= k < i ensures BackAt(s', key, w, k) {
      assert BackAt(s, key, w, k);
    }
  }

  lemma {:induction false} TurnBackEffect(g: Graph, n: Node, name: string, waits: Waits, from: Node, m: Msg, t: Turn) returns (e: Effect)
    requires m.Echo? && m.name == name && ParseName(name) == Some(name) && !Holds(g, n, name) && m.key !in waits && m.ttl >= 1
    requires t.named.None? && from in t.accepts && forall p | p in t.order :: p == from
    ensures e == Handle(g.site(n), waits, from, m, t)
    ensures e == Effect(waits, [(from, EchoErr(m.key, name, NoRoute(name)))], None)
  {
    hide ParseName;
    var next := Echo(m.key, name, m.ttl - 1, m.path + [HopName(g.site(n))]);
    NothingElse(t.order, from, next, t);
    assert Dispatch(Some(from), next, t) == ([], Some(NoRoute(name)));
    hide Dispatch;
    e := Handle(g.site(n), waits, from, m, t);
    assert waits[m.key := Back(from)] - {m.key} == waits;
  }

  lemma {:induction false} NothingElse(order: seq<Node>, from: Node, m: Msg, t: Turn)
    requires forall p | p in order :: p == from
    ensures Flood(order, Some(from), m, t) == []
  {
    if order != [] {
      var front := order[..|order| - 1];
      assert order == front + [order[|order| - 1]];
      forall p | p in front ensures p == from {
        assert p in order;
      }
      assert order[|order| - 1] in order;
      NothingElse(front, from, m, t);
    }
  }

  /** A node with a session to a holder passes the echo there and nowhere else. */
  lemma {:induction false} AsksHolder(g: Graph, name: string, key: Key, w: seq<Node>, s: State, at: nat)
    returns (t: Turn, s': State, at': nat, h: Node)
    requires TrueGraph(g) && ValidName(name) && Line(g, name, w) && AtFront(s, key, name, w, |w| - 1, at)
    requires Ends(g, name, w, true)
    ensures Enabled(g, s, Deliver(at, t)) && s' == Step(g, s, Deliver(at, t)) && t.fault != NoRoute(name)
    ensures Asked(g, s', key, name, w, at', h)
  {
    var i := |w| - 1;
    var f, n := s.flight[at], w[i];
    t := TurnAt(g, n, name, {});
    ParsedNameIsFixed(name);
    assert Quiet(g, f.from, name) && key !in WaitsOf(s, n) && !Holds(g, n, name);
    h := t.named.value;
    assert h != f.from && h in t.accepts;
    hide ParseName, ValidName, TrueGraph, Line, Ends, Step, Quiet, SilentFrom, WaitingTo;
    var e := AskEffect(g, n, name, WaitsOf(s, n), f.from, f.msg, t);
    s' := Delivered(g, s, at, t, e);
    at' := |s.flight| - 1;
    assert s'.flight[|s.flight| - 1 + 0].to == h;
    assert s.answers == [] by {
      NoAnswerYet(s, key, w, i);
    }
    Advances(g, name, s, s', key, w, i);
  }

  lemma {:induction false} AskEffect(g: Graph, n: Node, name: string, waits: Waits, from: Node, m: Msg, t: Turn) returns (e: Effect)
    requires m.Echo? && m.name == name && ParseName(name) == Some(name) && !Holds(g, n, name) && m.key !in waits && m.ttl >= 1
    requires t.named.Some? && t.named != Some(from) && t.named.value in t.accepts
    ensures e == Handle(g.site(n), waits, from, m, t)
    ensures e == Effect(waits[m.key := Back(from)],
                        [(t.named.value, Echo(m.key, name, m.ttl - 1, m.path + [HopName(g.site(n))]))], None)
  {
    hide ParseName, Flood;
    e := Handle(g.site(n), waits, from, m, t);
  }

  lemma {:induction false} HolderReplies(g: Graph, name: string, key: Key, w: seq<Node>, s: State, at: nat, h: Node)
    returns (t: Turn, s': State, at': nat, m: Msg)
    requires TrueGraph(g) && ValidName(name) && Asked(g, s, key, name, w, at, h)
    ensures Enabled(g, s, Deliver(at, t)) && s' == Step(g, s, Deliver(at, t)) && t.fault != NoRoute(name)
    ensures w != [] && m.EchoOk? && m.name == name && m.key == key && AtBack(s', w, |w| - 1, at', m)
  {
    var f := s.flight[at];
    t := TurnAt(g, h, name, {f.from});
    ParsedNameIsFixed(name);
    hide ParseName, ValidName, TrueGraph, Step;
    m := EchoOk(key, name, g.site(h).ula, f.msg.path + [HopName(g.site(h))]);
    var e := Handle(g.site(h), WaitsOf(s, h), f.from, f.msg, t);
    assert e == Effect(WaitsOf(s, h), [(f.from, m)], None);
    s' := Delivered(g, s, at, t, e);
    at' := |s.flight| - 1;
    assert s'.flight[|s.flight| - 1 + 0] == Flight(h, f.from, m);
    forall k: nat | 1 <= k < |w| ensures BackAt(s', key, w, k) {
      assert BackAt(s, key, w, k);
    }
  }

  lemma {:induction false} FoundReturns(g: Graph, name: string, key: Key, w: seq<Node>, s: State, at: nat, h: Node) returns (run: seq<Event>, m: Msg)
    requires TrueGraph(g) && ValidName(name) && Line(g, name, w) && Asked(g, s, key, name, w, at, h)
    ensures ValidRun(g, s, run) && PlainFaults(run, name) && Exec(g, s, run).answers == [(w[0], key, m)] && Says(m, name, true)
  {
    hide Step, Enabled, AtBack, Line, TrueGraph, ValidName;
    var t, s', at', m' := HolderReplies(g, name, key, w, s, at, h);
    m := m';
    var rest := Returns(g, name, w, s', |w| - 1, at', m);
    run := [Deliver(at, t)] + rest;
    Prepend(g, name, s, Deliver(at, t), rest);
  }

  /** The echo travels the rest of the line, and the reply its length back. */
  lemma {:induction false} Travels(g: Graph, name: string, key: Key, w: seq<Node>, s: State, i: nat, at: nat, found: bool)
    returns (run: seq<Event>, m: Msg)
    requires TrueGraph(g) && ValidName(name) && Line(g, name, w) && AtFront(s, key, name, w, i, at) && Ends(g, name, w, found)
    ensures ValidRun(g, s, run) && PlainFaults(run, name) && Exec(g, s, run).answers == [(w[0], key, m)] && Says(m, name, found)
    decreases |w| - i
  {
    assert 1 <= i < |w|;
    hide Step, Enabled, AtBack, AtFront, Line, Asked, TrueGraph, ValidName, Ends;
    var t, s', at', rest;
    if i < |w| - 1 {
      t, s', at' := StepsForward(g, name, key, w, s, i, at);
      rest, m := Travels(g, name, key, w, s', i + 1, at', found);
    } else if found {
      var h;
      t, s', at', h := AsksHolder(g, name, key, w, s, at);
      rest, m := FoundReturns(g, name, key, w, s', at', h);
    } else {
      t, s', at', m := DeadEndTurnsBack(g, name, key, w, s, at);
      rest := Returns(g, name, w, s', |w| - 2, at', m);
    }
    run := [Deliver(at, t)] + rest;
    Prepend(g, name, s, Deliver(at, t), rest);
  }

  lemma {:induction false} FloodsOut(g: Graph, name: string, o: Node, to: Node) returns (t: Turn, e: Effect, k: nat)
    requires TrueGraph(g) && ValidName(name) && Quiet(g, o, name) && to in g.sessions(o)
    ensures ValidTurn(g.sessions(o), name, t) && ParseName(name) == Some(name) && t.fault != NoRoute(name)
    ensures e == Launch(map[], Key(o, 1), name, t) && e.answer.None? && e.waits == map[Key(o, 1) := Call]
    ensures k < |e.out| && e.out[k] == (to, Echo(Key(o, 1), name, ECHO_TTL, []))
  {
    t := TurnAt(g, o, name, {});
    ParsedNameIsFixed(name);
    hide ParseName, ValidName, TrueGraph, Refused;
    var m := Echo(Key(o, 1), name, ECHO_TTL, []);
    InOrder(t.order, g.sessions(o).Keys, to);
    k := FloodReaches(t.order, None, m, t, to);
    hide Flood;
    assert Dispatch(None, m, t) == (Flood(t.order, None, m, t), None);
    e := Launch(map[], Key(o, 1), name, t);
  }

  /** A call leaves along the line. */
  lemma {:induction false} Sets(g: Graph, name: string, w: seq<Node>) returns (t: Turn, s: State, at: nat)
    requires TrueGraph(g) && ValidName(name) && Line(g, name, w) && |w| >= 2
    ensures Enabled(g, Start, StartsCall(w[0], name, t)) && s == Step(g, Start, StartsCall(w[0], name, t)) && t.fault != NoRoute(name)
    ensures AtFront(s, Key(w[0], 1), name, w, 1, at)
  {
    var o, to := w[0], w[1];
    assert Quiet(g, o, name) && !Holds(g, o, name) && to in g.sessions(o);
    Distinct(g, name, w);
    hide ParseName, ValidName, TrueGraph, ValidTurn, Line, Quiet, Launch;
    var e;
    t, e, at := FloodsOut(g, name, o, to);
    s := Step(g, Start, StartsCall(o, name, t));
    assert s.flight == [] + Sent(o, e.out);
    assert WaitsOf(s, o) == map[Key(o, 1) := Call];
  }

  lemma {:induction false} AsksAtOnce(g: Graph, name: string, o: Node) returns (t: Turn, s: State, h: Node)
    requires TrueGraph(g) && ValidName(name) && Line(g, name, [o]) && Ends(g, name, [o], true)
    ensures Enabled(g, Start, StartsCall(o, name, t)) && s == Step(g, Start, StartsCall(o, name, t)) && t.fault != NoRoute(name)
    ensures Asked(g, s, Key(o, 1), name, [o], 0, h)
  {
    t := TurnAt(g, o, name, {});
    ParsedNameIsFixed(name);
    hide ParseName, ValidName, Flood, Refused;
    h := t.named.value;
    var m := Echo(Key(o, 1), name, ECHO_TTL, []);
    assert Dispatch(None, m, t) == ([(h, m)], None);
    s := Step(g, Start, StartsCall(o, name, t));
    assert s.flight == [Flight(o, h, m)];
    assert WaitsOf(s, o) == map[Key(o, 1) := Call];
  }

  lemma {:induction false} LineAnswers(g: Graph, name: string, w: seq<Node>, found: bool) returns (run: seq<Event>, m: Msg)
    requires TrueGraph(g) && ValidName(name) && Line(g, name, w) && Ends(g, name, w, found)
    ensures ValidRun(g, Start, run) && PlainFaults(run, name)
    ensures Exec(g, Start, run).answers == [(w[0], Key(w[0], 1), m)] && Says(m, name, found)
  {
    assert w != [] && (!found ==> |w| >= 2);
    var t, s, rest;
    if |w| >= 2 {
      var at;
      t, s, at := Sets(g, name, w);
      rest, m := Travels(g, name, Key(w[0], 1), w, s, 1, at, found);
    } else {
      assert w == [w[0]];
      var h;
      t, s, h := AsksAtOnce(g, name, w[0]);
      rest, m := FoundReturns(g, name, Key(w[0], 1), w, s, 0, h);
    }
    hide Step, Enabled;
    run := [StartsCall(w[0], name, t)] + rest;
    Prepend(g, name, Start, StartsCall(w[0], name, t), rest);
  }

  // ---- from walks to lines ------------------------------------------------

  lemma {:induction false} WalkCut(g: Graph, w: seq<Node>, i: nat, j: nat)
    requires Walk(g, w) && i < j < |w| && w[i] == w[j]
    ensures Walk(g, w[..i] + w[j..])
  {
    var c := w[..i] + w[j..];
    forall a, b | 0 <= a && a + 1 == b < |c| ensures c[b] in g.sessions(c[a]) {
      if b < i {
        assert c[a] == w[a] && c[b] == w[b];
      } else if b == i {
        assert c[a] == w[a] && c[b] == w[j] == w[i] && a + 1 == i;
      } else {
        var a', b' := a - i + j, b - i + j;
        assert a' + 1 == b' && c[a] == w[a'] && c[b] == w[b'];
      }
    }
  }

  lemma {:induction false} DeadEndLine(g: Graph, o: Node, name: string, w: seq<Node>) returns (l: seq<Node>)
    requires TrueGraph(g) && DeadEndWalk(g, o, name, w)
    ensures Line(g, name, l) && l[0] == o && Ends(g, name, l, false)
    decreases |w|
  {
    if i, j :| 0 <= i < j < |w| && w[i] == w[j] {
      var c := w[..i] + w[j..];
      WalkCut(g, w, i, j);
      assert c[|c| - 1] == w[|w| - 1];
      if j == |w| - 1 {
        assert i > 0 && w[i] in g.sessions(w[i - 1]);
        assert c[|c| - 2] == w[i - 1] && w[i - 1] in g.sessions(w[|w| - 1]).Keys;
      } else {
        assert c[|c| - 2] == w[|w| - 2];
      }
      forall k | 0 <= k < |c| - 1 ensures Quiet(g, c[k], name) {
        if k >= i {
          assert c[k] == w[k - i + j];
        }
      }
      l := DeadEndLine(g, o, name, c);
    } else {
      l := w;
    }
  }

  /** A walk of at most 129 hops from o to a holder. */
  ghost predicate HolderWalk(g: Graph, o: Node, name: string, w: seq<Node>) {
    2 <= |w| <= 130 && w[0] == o && Walk(g, w) && Holds(g, w[|w| - 1], name)
  }

  lemma {:induction false} HolderLine(g: Graph, o: Node, name: string, w: seq<Node>) returns (l: seq<Node>)
    requires TrueGraph(g) && HolderWalk(g, o, name, w) && !Holds(g, o, name)
    ensures Line(g, name, l) && l[0] == o && Ends(g, name, l, true)
    decreases |w|
  {
    var last := |w| - 1;
    if i :| 0 <= i < last && Holds(g, w[i], name) {
      l := HolderLine(g, o, name, w[..i + 1]);
    } else if i :| 0 <= i < last - 1 && !Quiet(g, w[i], name) {
      var p :| p in g.sessions(w[i]) && Holds(g, p, name);
      var c := w[..i + 1] + [p];
      forall a, b | 0 <= a && a + 1 == b < |c| ensures c[b] in g.sessions(c[a]) {
        assert c[a] == w[a];
      }
      l := HolderLine(g, o, name, c);
    } else if i, j :| 0 <= i < j < last && w[i] == w[j] {
      WalkCut(g, w, i, j);
      l := HolderLine(g, o, name, w[..i] + w[j..]);
    } else {
      l := w[..last];
      assert w[last] in g.sessions(w[last - 1]);
    }
  }

  // ---- exactly when -------------------------------------------------------

  /** Some run has o's call for the name answered in this way. */
  ghost predicate CanBeTold(g: Graph, o: Node, name: string, found: bool) {
    exists run, i ::
      && ValidRun(g, Start, run) && PlainFaults(run, name) && 0 <= i < |Exec(g, Start, run).answers|
      && Exec(g, Start, run).answers[i].0 == o && Says(Exec(g, Start, run).answers[i].2, name, found)
  }

  /** A call can be told "no route" exactly when a dead end is in reach, some
      other node within 128 hops that has no session but the one the echo
      comes by, past nodes with no holder beside them. Who holds the name
      elsewhere does not matter, nor what other calls are about. */
  lemma {:induction false} NoRouteIff(g: Graph, o: Node, name: string)
    requires TrueGraph(g) && ValidName(name)
    ensures CanBeTold(g, o, name, false) <==> DeadEndInReach(g, o, name)
  {
    hide ValidRun, Exec, DeadEndWalk, Line, Ends;
    if CanBeTold(g, o, name, false) {
      var run, i :| ValidRun(g, Start, run) && PlainFaults(run, name) && 0 <= i < |Exec(g, Start, run).answers|
                    && Exec(g, Start, run).answers[i].0 == o && Says(Exec(g, Start, run).answers[i].2, name, false);
      assert EchoPath.Inv(g, Start) && ErrInv(g, name, Start);
      RunKeepsErrInv(g, name, Start, run);
    }
    if DeadEndInReach(g, o, name) {
      var w :| DeadEndWalk(g, o, name, w);
      var l := DeadEndLine(g, o, name, w);
      var run, m := LineAnswers(g, name, l, false);
      assert Exec(g, Start, run).answers[0].0 == o && Says(Exec(g, Start, run).answers[0].2, name, false);
    }
  }

  lemma {:induction false} AnswerIsTrue(g: Graph, run: seq<Event>, i: nat)
    requires ValidRun(g, Start, run) && i < |Exec(g, Start, run).answers|
    ensures TrueAnswer(g, Exec(g, Start, run), Exec(g, Start, run).answers[i])
  {
    hide TrueAnswer, ValidRun, Exec;
    AcceptedRepliesAreTrue(g, run);
  }

  lemma {:induction false} AnswerHasWalk(g: Graph, s: State, a: (Node, Key, Msg))
    requires TrueAnswer(g, s, a) && a.2.EchoOk?
    ensures exists w :: HolderWalk(g, a.0, a.2.name, w)
  {
    var m := a.2;
    var nodes :| Trail(g, m.key.origin, m.path, nodes) &&
                 var holder := g.site(nodes[|nodes| - 1]); m.name in holder.names && m.ula == holder.ula;
    assert HolderWalk(g, a.0, m.name, nodes);
  }

  /** A call can be told of a holder exactly when one is within 129 hops. */
  lemma {:induction false} FoundIff(g: Graph, o: Node, name: string)
    requires TrueGraph(g) && ValidName(name) && !Holds(g, o, name)
    ensures CanBeTold(g, o, name, true) <==> exists w :: HolderWalk(g, o, name, w)
  {
    hide ValidRun, Exec, HolderWalk, Line, Ends, TrueReply;
    if CanBeTold(g, o, name, true) {
      var run, i :| ValidRun(g, Start, run) && PlainFaults(run, name) && 0 <= i < |Exec(g, Start, run).answers|
                    && Exec(g, Start, run).answers[i].0 == o && Says(Exec(g, Start, run).answers[i].2, name, true);
      AnswerIsTrue(g, run, i);
      AnswerHasWalk(g, Exec(g, Start, run), Exec(g, Start, run).answers[i]);
    }
    if w :| HolderWalk(g, o, name, w) {
      var l := HolderLine(g, o, name, w);
      var run, m := LineAnswers(g, name, l, true);
      assert Exec(g, Start, run).answers[0].0 == o && Says(Exec(g, Start, run).answers[0].2, name, true);
    }
  }
}
