// When a call may be told there is no route, and when it may be told of a
// holder: exactly, over all runs of a mesh whose session names are true.
module EchoExact {
  import opened Base
  import opened Echo
  import opened EchoFlood
  import opened EchoPath

  // ---- the graphs and the runs --------------------------------------------

  /** A session has two ends, and its peer goes by its own names there. */
  ghost predicate TrueGraph(g: Graph) {
    && (forall a, b :: b in g.sessions(a) ==> a in g.sessions(b) && a != b)
    && forall a, b :: b in g.sessions(a) ==> g.sessions(a)[b] == g.site(b).names
  }

  predicate Holds(g: Graph, n: Node, name: string) {
    name in g.site(n).names
  }

  /** n neither holds the name nor has a session to a node that does. */
  ghost predicate Quiet(g: Graph, n: Node, name: string) {
    !Holds(g, n, name) && forall p :: p in g.sessions(n) ==> !Holds(g, p, name)
  }

  function NoRoute(name: string): string {
    "no route to " + name
  }

  /** Writes may fail, but not with the words of a missing route. */
  predicate PlainFaults(run: seq<Event>, name: string) {
    forall e | e in run :: !e.EndsCall? ==> e.turn.fault != NoRoute(name)
  }

  ghost predicate Walk(g: Graph, w: seq<Node>) {
    forall i, j | 0 <= i && i + 1 == j < |w| :: w[j] in g.sessions(w[i])
  }

  /** A walk of at most 128 hops from o to another node that has no session but
      the one it is reached by, past nodes that know of no holder. */
  ghost predicate DeadEndWalk(g: Graph, o: Node, name: string, w: seq<Node>) {
    && 2 <= |w| <= 129 && w[0] == o && Walk(g, w)
    && (forall i | 0 <= i < |w| - 1 :: Quiet(g, w[i], name))
    && var y := w[|w| - 1];
       y != o && !Holds(g, y, name) && g.sessions(y).Keys == {w[|w| - 2]}
  }

  ghost predicate DeadEndInReach(g: Graph, o: Node, name: string) {
    exists w :: DeadEndWalk(g, o, name, w)
  }

  // ---- only a dead end in reach says "no route" ---------------------------

  /** An echo travels past quiet nodes only, or is on its way to a holder. */
  ghost predicate QuietSoFar(g: Graph, from: Node, to: Node, m: Msg)
    requires m.Echo?
  {
    exists nodes ::
      Trail(g, m.key.origin, m.path, nodes) && nodes[|nodes| - 1] == from &&
      (Holds(g, to, m.name) || forall i | 0 <= i < |nodes| :: Quiet(g, nodes[i], m.name))
  }

  predicate SaysNoRoute(m: Msg, name: string) {
    m.EchoErr? && m.name == name && m.error == NoRoute(name)
  }

  /** Such an error has a dead end behind it, or comes too late to count. */
  ghost predicate Explained(g: Graph, name: string, s: State, m: Msg) {
    SaysNoRoute(m, name) ==>
      m.key in s.asked && (DeadEndInReach(g, m.key.origin, name) || !Awaits(WaitsOf(s, m.key.origin), m.key))
  }

  ghost predicate ErrInv(g: Graph, name: string, s: State) {
    && (forall i | 0 <= i < |s.flight| ::
          Accounted(g, name, s, s.flight[i].from, (s.flight[i].to, s.flight[i].msg)))
    && (forall i | 0 <= i < |s.answers| :: SaysNoRoute(s.answers[i].2, name) ==> DeadEndInReach(g, s.answers[i].0, name))
  }

  /** A dispatch goes to a holder, or floods from a node that knows none; it
      fails for want of a route only where there is no other session. */
  lemma DispatchKnows(g: Graph, n: Node, from: Option<Node>, m: Msg, t: Turn)
    requires TrueGraph(g) && ValidTurn(g.sessions(n), m.name, t) && !Holds(g, n, m.name)
    requires from.Some? ==> from.value in g.sessions(n) && Quiet(g, from.value, m.name)
    ensures var (out, err) := Dispatch(from, m, t);
            && (forall i | 0 <= i < |out| :: out[i].1 == m && (Holds(g, out[i].0, m.name) || Quiet(g, n, m.name)))
            && (err == Some(NoRoute(m.name)) && t.fault != NoRoute(m.name) ==>
                  forall p :: p in g.sessions(n) ==> Some(p) == from)
  {
    if t.named.Some? {
      assert t.named.value in g.sessions(n) && Holds(g, t.named.value, m.name);
    }
    var (out, err) := Dispatch(from, m, t);
    if err == Some(NoRoute(m.name)) && t.fault != NoRoute(m.name) {
      forall p | p in g.sessions(n) ensures Some(p) == from {
        assert p in t.order;
        if Some(p) != from {
          var _ := FloodReaches(t.order, from, m, t, p);
        }
      }
    }
  }

  lemma {:induction false} FloodReaches(order: seq<Node>, from: Option<Node>, m: Msg, t: Turn, a: Node) returns (i: nat)
    requires a in order && Some(a) != from
    ensures a in t.accepts ==> i < |Flood(order, from, m, t)| && Flood(order, from, m, t)[i] == (a, m)
    ensures a !in t.accepts ==> Refused(order, from, t)
  {
    i := 0;
    if a in t.accepts {
      var last := order[|order| - 1];
      var front := order[..|order| - 1];
      if last == a {
        i := |Flood(front, from, m, t)|;
      } else {
        assert order == front + [last] && a in front;
        i := FloodReaches(front, from, m, t, a);
      }
    }
  }

  lemma {:induction false} QuietNodes(g: Graph, from: Node, to: Node, m: Msg) returns (nodes: seq<Node>)
    requires m.Echo? && QuietSoFar(g, from, to, m) && !Holds(g, to, m.name)
    ensures Trail(g, m.key.origin, m.path, nodes) && |nodes| == |m.path| + 1 && nodes[|nodes| - 1] == from
    ensures forall i | 0 <= i < |nodes| :: Quiet(g, nodes[i], m.name)
  {
    nodes :| Trail(g, m.key.origin, m.path, nodes) && nodes[|nodes| - 1] == from &&
             (Holds(g, to, m.name) || forall i | 0 <= i < |nodes| :: Quiet(g, nodes[i], m.name));
  }

  lemma QuietWitness(g: Graph, from: Node, to: Node, m: Msg, nodes: seq<Node>)
    requires m.Echo? && Trail(g, m.key.origin, m.path, nodes) && nodes[|nodes| - 1] == from
    requires Holds(g, to, m.name) || forall i | 0 <= i < |nodes| :: Quiet(g, nodes[i], m.name)
    ensures QuietSoFar(g, from, to, m)
  {
  }

  /** The three ways to handle an echo: answer it, drop it, or pass it on. */
  lemma {:induction false} HandlingCases(site: Site, waits: Waits, from: Node, m: Msg, t: Turn)
    requires m.Echo? && ParseName(m.name) == Some(m.name)
    ensures var e := HandleEcho(site, waits, from, m, t);
            var next := Echo(m.key, m.name, m.ttl - 1, m.path + [HopName(site)]);
            var (out, err) := Dispatch(Some(from), next, t);
            && e.answer.None?
            && if m.name in site.names then forall i | 0 <= i < |e.out| :: e.out[i].1.EchoOk?
               else if m.key in waits then e.out == []
               else if m.ttl > 0 && err.None? then e.out == out
               else
                 && m.key !in e.waits
                 && forall i | 0 <= i < |e.out| ::
                      e.out[i].1 == EchoErr(m.key, m.name, if m.ttl > 0 then err.value else "ttl exceeded")
  {
    hide ParseName, Dispatch;
  }

  ghost predicate Accounted(g: Graph, name: string, s: State, from: Node, o: (Node, Msg)) {
    if o.1.Echo? then QuietSoFar(g, from, o.0, o.1) else Explained(g, name, s, o.1)
  }

  /** What handling an echo writes. */
  lemma {:induction false} EchoExplains(g: Graph, name: string, s: State, f: Flight, t: Turn, s': State)
    requires TrueGraph(g) && f.msg.Echo? && TrueEcho(g, s.asked, f.from, f.to, f.msg) && QuietSoFar(g, f.from, f.to, f.msg)
    requires ValidTurn(g.sessions(f.to), f.msg.name, t) && ParseName(f.msg.name) == Some(f.msg.name) && t.fault != NoRoute(name)
    requires var e := HandleEcho(g.site(f.to), WaitsOf(s, f.to), f.from, f.msg, t); WaitsOf(s', f.to) == e.waits && s'.asked == s.asked
    ensures var e := HandleEcho(g.site(f.to), WaitsOf(s, f.to), f.from, f.msg, t);
            e.answer.None? && forall i | 0 <= i < |e.out| :: Accounted(g, name, s', f.to, e.out[i])
  {
    var m, n := f.msg, f.to;
    HandlingCases(g.site(n), WaitsOf(s, n), f.from, m, t);
    if !Holds(g, n, m.name) && m.key !in WaitsOf(s, n) {
      NotTheSame(m.name);
      if m.ttl > 0 {
        OnwardExplains(g, f.from, n, m, t);
      }
    }
  }

  /** Passing an echo on keeps it quiet, and only a dead end has no route. */
  lemma {:induction false} OnwardExplains(g: Graph, from: Node, n: Node, m: Msg, t: Turn)
    requires TrueGraph(g) && m.Echo? && QuietSoFar(g, from, n, m) && !Holds(g, n, m.name) && n in g.sessions(from)
    requires ValidTurn(g.sessions(n), m.name, t) && m.ttl > 0 && |m.path| + m.ttl == ECHO_TTL
    ensures var next := Echo(m.key, m.name, m.ttl - 1, m.path + [HopName(g.site(n))]);
            var (out, err) := Dispatch(Some(from), next, t);
            && (forall i | 0 <= i < |out| :: out[i].1 == next && QuietSoFar(g, n, out[i].0, next))
            && (err == Some(NoRoute(m.name)) && t.fault != NoRoute(m.name) && n != m.key.origin ==>
                  DeadEndInReach(g, m.key.origin, m.name))
  {
    assert from in g.sessions(n);
    hide Dispatch, ValidTurn, Quiet, DeadEndInReach, Trail, QuietSoFar, TrueGraph;
    var next := Echo(m.key, m.name, m.ttl - 1, m.path + [HopName(g.site(n))]);
    var (out, err) := Dispatch(Some(from), next, t);
    var nodes := QuietNodes(g, from, n, m);
    DispatchKnows(g, n, Some(from), next, t);
    TrailExtends(g, m.key.origin, m.path, nodes, n);
    var longer := nodes + [n];
    forall i | 0 <= i < |out| ensures QuietSoFar(g, n, out[i].0, next) {
      QuietWitness(g, n, out[i].0, next, longer);
    }
    if err == Some(NoRoute(m.name)) && t.fault != NoRoute(m.name) && n != m.key.origin {
      EndsDead(g, m.key.origin, m.name, nodes, m.path, n);
    }
  }

  lemma NotTheSame(name: string)
    ensures "ttl exceeded" != NoRoute(name)
  {
    assert "ttl exceeded"[0] == 't' && NoRoute(name)[0] == 'n';
  }

  lemma EndsDead(g: Graph, o: Node, name: string, nodes: seq<Node>, path: seq<string>, n: Node)
    requires TrueGraph(g) && Trail(g, o, path, nodes) && |path| < ECHO_TTL && n != o && !Holds(g, n, name)
    requires (forall i | 0 <= i < |nodes| :: Quiet(g, nodes[i], name)) && n in g.sessions(nodes[|nodes| - 1])
    requires forall p :: p in g.sessions(n) ==> p == nodes[|nodes| - 1]
    ensures DeadEndInReach(g, o, name)
  {
    var w := nodes + [n];
    assert g.sessions(n).Keys == {nodes[|nodes| - 1]};
    assert DeadEndWalk(g, o, name, w);
  }

  lemma DeliverKeepsErrInv(g: Graph, name: string, s: State, i: nat, t: Turn)
    requires TrueGraph(g) && EchoPath.Inv(g, s) && ErrInv(g, name, s) && Enabled(g, s, Deliver(i, t)) && t.fault != NoRoute(name)
    ensures ErrInv(g, name, Step(g, s, Deliver(i, t)))
  {
    hide QuietSoFar, DeadEndInReach, TrueEcho, TrueReply, HandleEcho, ValidTurn, ValidName;
    var f := s.flight[i];
    var s' := Step(g, s, Deliver(i, t));
    var e := Handle(g.site(f.to), WaitsOf(s, f.to), f.from, f.msg, t);
    assert TrueFlight(g, s.asked, f);
    HandleIsTrue(g, s.asked, WaitsOf(s, f.to), f, t);
    forall m: Msg | Explained(g, name, s, m) ensures Explained(g, name, s', m) {
    }
    if f.msg.Echo? {
      assert ValidName(f.msg.name) by {
        EchoNameIsValid(g, s.asked, f);
      }
      ParsedNameIsFixed(f.msg.name);
      EchoExplains(g, name, s, f, t, s');
    } else {
      assert CallInv(s, f.to, f.msg.key);
      FinishRelays(g, WaitsOf(s, f.to), f, t);
    }
    forall j | 0 <= j < |s'.flight|
      ensures Accounted(g, name, s', s'.flight[j].from, (s'.flight[j].to, s'.flight[j].msg))
    {
      if j >= |s.flight| - 1 {
        var o := e.out[j - (|s.flight| - 1)];
        assert s'.flight[j] == Flight(f.to, o.0, o.1);
      }
    }
  }

  lemma EchoNameIsValid(g: Graph, asked: map<Key, string>, f: Flight)
    requires f.msg.Echo? && TrueFlight(g, asked, f)
    ensures ValidName(f.msg.name) && TrueEcho(g, asked, f.from, f.to, f.msg)
  {
  }

  lemma FinishRelays(g: Graph, waits: Waits, f: Flight, t: Turn)
    requires !f.msg.Echo?
    ensures var e := Handle(g.site(f.to), waits, f.from, f.msg, t);
            && (forall i | 0 <= i < |e.out| :: e.out[i].1 == f.msg)
            && (e.answer.Some? ==> e.answer.value == f.msg && Awaits(waits, f.msg.key))
  {
  }

  lemma StartKeepsErrInv(g: Graph, name: string, s: State, n: Node, rawName: string, t: Turn)
    requires TrueGraph(g) && EchoPath.Inv(g, s) && ErrInv(g, name, s) && Enabled(g, s, StartsCall(n, rawName, t))
    ensures ErrInv(g, name, Step(g, s, StartsCall(n, rawName, t)))
  {
    hide DeadEndInReach, TrueFlight, TrueAnswer, ValidTurn, Dispatch, Quiet, ParseName;
    var s' := Step(g, s, StartsCall(n, rawName, t));
    var asked := ParseName(rawName).value;
    var key := Key(n, RpcOf(s, n) + 1);
    var m := Echo(key, asked, ECHO_TTL, []);
    DispatchKnows(g, n, None, m, t);
    var out := Dispatch(None, m, t).0;
    assert key !in s.asked;
    assert Trail(g, n, [], [n]) && [n][|[n]| - 1] == n;
    forall x: Msg | Explained(g, name, s, x) ensures Explained(g, name, s', x) {
    }
    forall j | 0 <= j < |s'.flight|
      ensures Accounted(g, name, s', s'.flight[j].from, (s'.flight[j].to, s'.flight[j].msg))
    {
      if j >= |s.flight| {
        assert s'.flight[j] == Flight(n, out[j - |s.flight|].0, m);
      }
    }
  }

  lemma EndKeepsErrInv(g: Graph, name: string, s: State, key: Key)
    requires ErrInv(g, name, s)
    ensures ErrInv(g, name, Step(g, s, EndsCall(key)))
  {
    hide DeadEndInReach, QuietSoFar;
  }

  lemma {:induction false} RunKeepsErrInv(g: Graph, name: string, s: State, run: seq<Event>)
    requires TrueGraph(g) && EchoPath.Inv(g, s) && ErrInv(g, name, s) && ValidRun(g, s, run) && PlainFaults(run, name)
    ensures ErrInv(g, name, Exec(g, s, run))
    decreases |run|
  {
    hide EchoPath.Inv, ErrInv, Step, Enabled, TrueGraph;
    if run != [] {
      assert run[0] in run;
      assert PlainFaults(run[1..], name);
      match run[0] {
        case StartsCall(n, rawName, t) =>
          StartKeepsErrInv(g, name, s, n, rawName, t);
          StartKeepsInv(g, s, n, rawName, t);
        case Deliver(i, t) =>
          DeliverKeepsErrInv(g, name, s, i, t);
          DeliverKeepsInv(g, s, i, t);
        case EndsCall(key) =>
          EndKeepsErrInv(g, name, s, key);
          EndKeepsInv(g, s, key);
      }
      RunKeepsErrInv(g, name, Step(g, s, run[0]), run[1..]);
    }
  }
}
