// What a named echo may answer: every accepted reply describes a real walk
// over sessions to a node that holds the name, and no call is answered twice.
module EchoPath {
  import opened Base
  import opened Echo
  import opened EchoFlood

  /** `nodes` is a session walk from origin whose later nodes are those named
      in the path. */
  ghost predicate Trail(g: Graph, origin: Node, path: seq<string>, nodes: seq<Node>) {
    && |nodes| == |path| + 1 && nodes[0] == origin
    && forall i, j | 0 <= i && i + 1 == j < |nodes| ::
         nodes[j] in g.sessions(nodes[i]) && path[i] == HopName(g.site(nodes[j]))
  }

  /** An echo in flight has counted its hops and recorded where it has been. */
  ghost predicate TrueEcho(g: Graph, asked: map<Key, string>, from: Node, to: Node, m: Msg)
    requires m.Echo?
  {
    && to in g.sessions(from) && m.key in asked && m.name == asked[m.key] && ValidName(m.name)
    && m.ttl >= 0 && |m.path| + m.ttl == 128
    && exists nodes :: Trail(g, m.key.origin, m.path, nodes) && nodes[|nodes| - 1] == from
  }

  /** The path of a positive reply is a session walk from a neighbour of the
      origin to a node that holds the name the call asked for. */
  ghost predicate TrueReply(g: Graph, asked: map<Key, string>, m: Msg) {
    m.EchoOk? ==>
      && m.key in asked && m.name == asked[m.key] && 1 <= |m.path| <= 129
      && exists nodes ::
           Trail(g, m.key.origin, m.path, nodes) &&
           var holder := g.site(nodes[|nodes| - 1]); m.name in holder.names && m.ula == holder.ula
  }

  ghost predicate TrueFlight(g: Graph, asked: map<Key, string>, f: Flight) {
    if f.msg.Echo? then TrueEcho(g, asked, f.from, f.to, f.msg) else TrueReply(g, asked, f.msg)
  }

  predicate Awaits(waits: Waits, k: Key) {
    k in waits && waits[k].Call?
  }

  predicate Answered(s: State, k: Key) {
    exists i | 0 <= i < |s.answers| :: s.answers[i].1 == k
  }

  ghost predicate TrueAnswer(g: Graph, s: State, a: (Node, Key, Msg)) {
    a.0 == a.1.origin && a.1 in s.asked && a.2.key == a.1 && TrueReply(g, s.asked, a.2)
  }

  ghost predicate CallInv(s: State, n: Node, k: Key) {
    Awaits(WaitsOf(s, n), k) ==> k.origin == n && k in s.asked && !Answered(s, k)
  }

  ghost predicate Inv(g: Graph, s: State) {
    && (forall k | k in s.asked :: k.rpc <= RpcOf(s, k.origin))
    && (forall i | 0 <= i < |s.flight| :: TrueFlight(g, s.asked, s.flight[i]))
    && (forall n, k :: CallInv(s, n, k))
    && (forall i | 0 <= i < |s.answers| :: TrueAnswer(g, s, s.answers[i]))
    && (forall i, j | 0 <= i < j < |s.answers| :: s.answers[i].1 != s.answers[j].1)
  }

  // ---- what one handling says and forgets ---------------------------------

  lemma FinishFacts(g: Graph, asked: map<Key, string>, waits: Waits, key: Key, m: Msg, t: Turn)
    requires !m.Echo? && m.key == key && TrueReply(g, asked, m)
    ensures var e := Finish(waits, key, m, t);
            && (forall k :: Awaits(e.waits, k) ==> Awaits(waits, k) && (e.answer.Some? ==> k != key))
            && (e.answer.Some? ==> Awaits(waits, key) && e.answer.value == m)
            && (forall i | 0 <= i < |e.out| :: e.out[i].1 == m)
  {
  }

  lemma TrailExtends(g: Graph, origin: Node, path: seq<string>, nodes: seq<Node>, n: Node)
    requires Trail(g, origin, path, nodes) && n in g.sessions(nodes[|nodes| - 1])
    ensures Trail(g, origin, path + [HopName(g.site(n))], nodes + [n])
  {
  }

  ghost predicate TrueEffect(g: Graph, asked: map<Key, string>, n: Node, waits: Waits, key: Key, e: Effect) {
    && (forall k :: Awaits(e.waits, k) ==> Awaits(waits, k) && (e.answer.Some? ==> k != key))
    && (e.answer.Some? ==> Awaits(waits, key) && e.answer.value.key == key && TrueReply(g, asked, e.answer.value))
    && (forall i | 0 <= i < |e.out| :: TrueFlight(g, asked, Flight(n, e.out[i].0, e.out[i].1)))
  }

  /** Where a dispatched echo may go. */
  lemma DispatchTargets(sessions: Sessions, from: Option<Node>, m: Msg, t: Turn)
    requires ValidTurn(sessions, m.name, t)
    ensures var out := Dispatch(from, m, t).0;
            forall i | 0 <= i < |out| :: out[i].0 in sessions && out[i].1 == m
  {
  }

  lemma HandleIsTrue(g: Graph, asked: map<Key, string>, waits: Waits, f: Flight, t: Turn)
    requires TrueFlight(g, asked, f)
    requires f.msg.Echo? && ParseName(f.msg.name).Some? ==> ValidTurn(g.sessions(f.to), ParseName(f.msg.name).value, t)
    ensures TrueEffect(g, asked, f.to, waits, f.msg.key, Handle(g.site(f.to), waits, f.from, f.msg, t))
  {
    if f.msg.Echo? {
      EchoIsTrue(g, asked, waits, f, t);
    } else {
      FinishFacts(g, asked, waits, f.msg.key, f.msg, t);
    }
  }

  lemma EchoIsTrue(g: Graph, asked: map<Key, string>, waits: Waits, f: Flight, t: Turn)
    requires f.msg.Echo? && TrueEcho(g, asked, f.from, f.to, f.msg)
    requires ParseName(f.msg.name).Some? ==> ValidTurn(g.sessions(f.to), ParseName(f.msg.name).value, t)
    ensures TrueEffect(g, asked, f.to, waits, f.msg.key, HandleEcho(g.site(f.to), waits, f.from, f.msg, t))
  {
    hide ParseName, ValidName, Dispatch, ValidTurn, Refused;
    var m, site := f.msg, g.site(f.to);
    ParsedNameIsFixed(m.name);
    var nodes :| Trail(g, m.key.origin, m.path, nodes) && nodes[|nodes| - 1] == f.from;
    TrailExtends(g, m.key.origin, m.path, nodes, f.to);
    var path := m.path + [HopName(site)];
    assert (nodes + [f.to])[|nodes + [f.to]| - 1] == f.to;
    assert m.name in site.names ==> TrueReply(g, asked, EchoOk(m.key, m.name, site.ula, path));
    if m.name !in site.names && m.key !in waits {
      var waiting := waits[m.key := Back(f.from)];
      var next := Echo(m.key, m.name, m.ttl - 1, path);
      FinishFacts(g, asked, waiting, m.key, EchoErr(m.key, m.name, "ttl exceeded"), t);
      if next.ttl >= 0 {
        var (out, err) := Dispatch(Some(f.from), next, t);
        DispatchTargets(g.sessions(f.to), Some(f.from), next, t);
        forall i | 0 <= i < |out| ensures TrueFlight(g, asked, Flight(f.to, out[i].0, out[i].1)) {
          assert TrueEcho(g, asked, f.to, out[i].0, next);
        }
        if err.Some? {
          FinishFacts(g, asked, waiting, m.key, EchoErr(m.key, m.name, err.value), t);
        }
      }
    }
  }

  // ---- the invariant ------------------------------------------------------

  lemma SettleKeepsInv(g: Graph, s: State, n: Node, key: Key, e: Effect)
    requires Inv(g, s) && TrueEffect(g, s.asked, n, WaitsOf(s, n), key, e)
    ensures Inv(g, Settle(s, n, key, e))
  {
    hide TrueReply, TrueEcho;
    var s' := Settle(s, n, key, e);
    assert CallInv(s, n, key);
    forall i | 0 <= i < |s'.flight| ensures TrueFlight(g, s'.asked, s'.flight[i]) {
      if i >= |s.flight| {
        var o := e.out[i - |s.flight|];
        assert s'.flight[i] == Flight(n, o.0, o.1);
      }
    }
    forall m, k ensures CallInv(s', m, k) {
      assert CallInv(s, m, k);
      assert Answered(s', k) ==> Answered(s, k) || (e.answer.Some? && k == key);
    }
    forall i | 0 <= i < |s'.answers| ensures TrueAnswer(g, s', s'.answers[i]) {
      if i < |s.answers| {
        assert TrueAnswer(g, s, s.answers[i]);
      }
    }
    forall i, j | 0 <= i < j < |s'.answers| ensures s'.answers[i].1 != s'.answers[j].1 {
      assert s.answers[i].1 == key ==> Answered(s, key);
    }
  }

  lemma DeliverKeepsInv(g: Graph, s: State, i: nat, t: Turn)
    requires Inv(g, s) && Enabled(g, s, Deliver(i, t))
    ensures Inv(g, Step(g, s, Deliver(i, t)))
  {
    hide TrueFlight, TrueAnswer, Handle;
    var f := s.flight[i];
    var left := s.(flight := Without(s.flight, i));
    forall n, k ensures CallInv(left, n, k) {
      assert CallInv(s, n, k);
    }
    forall j | 0 <= j < |left.answers| ensures TrueAnswer(g, left, left.answers[j]) {
      SameAnswer(g, s, left, left.answers[j]);
    }
    HandleIsTrue(g, s.asked, WaitsOf(s, f.to), f, t);
    SettleKeepsInv(g, left, f.to, f.msg.key, Handle(g.site(f.to), WaitsOf(s, f.to), f.from, f.msg, t));
  }

  /** A reply stays true as more calls are made. */
  lemma SameAnswer(g: Graph, s: State, s': State, a: (Node, Key, Msg))
    requires TrueAnswer(g, s, a) && (forall k | k in s.asked :: k in s'.asked && s'.asked[k] == s.asked[k])
    ensures TrueAnswer(g, s', a)
  {
  }

  lemma SameFlight(g: Graph, asked: map<Key, string>, asked': map<Key, string>, f: Flight)
    requires TrueFlight(g, asked, f) && (forall k | k in asked :: k in asked' && asked'[k] == asked[k])
    ensures TrueFlight(g, asked', f)
  {
  }

  lemma EndKeepsInv(g: Graph, s: State, key: Key)
    requires Inv(g, s)
    ensures Inv(g, Step(g, s, EndsCall(key)))
  {
    hide TrueFlight, TrueAnswer;
    var s' := Step(g, s, EndsCall(key));
    forall n, k ensures CallInv(s', n, k) {
      assert CallInv(s, n, k);
    }
    forall j | 0 <= j < |s'.answers| ensures TrueAnswer(g, s', s'.answers[j]) {
      SameAnswer(g, s, s', s'.answers[j]);
    }
  }

  /** A call's number is fresh, so nothing in the mesh knows it yet. */
  lemma AskKeepsInv(g: Graph, s: State, n: Node, name: string) returns (s': State)
    requires Inv(g, s)
    ensures var key := Key(n, RpcOf(s, n) + 1);
            && s' == s.(rpc := s.rpc[n := key.rpc], asked := s.asked[key := name], waits := s.waits[n := WaitsOf(s, n)[key := Call]])
            && Inv(g, s')
  {
    hide TrueFlight, TrueAnswer;
    var key := Key(n, RpcOf(s, n) + 1);
    s' := s.(rpc := s.rpc[n := key.rpc], asked := s.asked[key := name], waits := s.waits[n := WaitsOf(s, n)[key := Call]]);
    assert key !in s.asked;
    forall m, k ensures CallInv(s', m, k) {
      assert CallInv(s, m, k);
      if Answered(s, key) {
        NotAskedNotAnswered(g, s, key);
      }
    }
    forall i | 0 <= i < |s'.flight| ensures TrueFlight(g, s'.asked, s'.flight[i]) {
      SameFlight(g, s.asked, s'.asked, s.flight[i]);
    }
    forall j | 0 <= j < |s'.answers| ensures TrueAnswer(g, s', s'.answers[j]) {
      SameAnswer(g, s, s', s'.answers[j]);
    }
  }

  lemma NotAskedNotAnswered(g: Graph, s: State, k: Key)
    requires Inv(g, s) && k !in s.asked
    ensures !Answered(s, k)
  {
  }

  lemma CallIsTrue(g: Graph, asked: map<Key, string>, n: Node, waits: Waits, key: Key, name: string, t: Turn)
    requires ValidName(name) && key in asked && asked[key] == name && key.origin == n && ValidTurn(g.sessions(n), name, t)
    ensures TrueEffect(g, asked, n, waits[key := Call], key, Launch(waits, key, name, t))
  {
    hide Dispatch, ValidTurn, ValidName;
    var m := Echo(key, name, ECHO_TTL, []);
    DispatchTargets(g.sessions(n), None, m, t);
    var out := Dispatch(None, m, t).0;
    assert Trail(g, n, [], [n]) && [n][|[n]| - 1] == n;
    forall i | 0 <= i < |out| ensures TrueFlight(g, asked, Flight(n, out[i].0, out[i].1)) {
      assert TrueEcho(g, asked, n, out[i].0, m);
    }
  }

  lemma StartKeepsInv(g: Graph, s: State, n: Node, rawName: string, t: Turn)
    requires Inv(g, s) && Enabled(g, s, StartsCall(n, rawName, t))
    ensures Inv(g, Step(g, s, StartsCall(n, rawName, t)))
  {
    hide Inv, TrueEffect, ValidTurn, Launch;
    var name := ParseName(rawName).value;
    var key := Key(n, RpcOf(s, n) + 1);
    var s1 := AskKeepsInv(g, s, n, name);
    CallIsTrue(g, s1.asked, n, WaitsOf(s, n), key, name, t);
    var done := Launch(WaitsOf(s, n), key, name, t);
    SettleKeepsInv(g, s1, n, key, done);
    var s0 := s.(rpc := s.rpc[n := key.rpc], asked := s.asked[key := name]);
    assert s1.waits[n := done.waits] == s0.waits[n := done.waits];
    assert Settle(s1, n, key, done) == Settle(s0, n, key, done);
  }

  lemma {:induction false} RunKeepsInv(g: Graph, s: State, run: seq<Event>)
    requires Inv(g, s) && ValidRun(g, s, run)
    ensures Inv(g, Exec(g, s, run))
    decreases |run|
  {
    hide Inv, Step, Enabled;
    if run != [] {
      match run[0] {
        case StartsCall(n, rawName, t) => StartKeepsInv(g, s, n, rawName, t);
        case Deliver(i, t) => DeliverKeepsInv(g, s, i, t);
        case EndsCall(key) => EndKeepsInv(g, s, key);
      }
      RunKeepsInv(g, Step(g, s, run[0]), run[1..]);
    }
  }

  /** In every run, whatever a call accepts as found is a session walk of at
      most 129 hops from the caller to a node holding the very name asked for,
      with that node's address; and each call is completed at most once. */
  lemma {:induction false} AcceptedRepliesAreTrue(g: Graph, run: seq<Event>)
    requires ValidRun(g, Start, run)
    ensures var s := Exec(g, Start, run);
            && (forall i | 0 <= i < |s.answers| :: TrueAnswer(g, s, s.answers[i]))
            && (forall i, j | 0 <= i < j < |s.answers| :: s.answers[i].1 != s.answers[j].1)
  {
    assert Inv(g, Start);
    RunKeepsInv(g, Start, run);
  }
}
