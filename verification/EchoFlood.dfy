// Named echoes over a whole mesh with a fixed session graph: messages may be
// delivered in any order, floods meet themselves on cycles, and replies free
// waiters early, so a node can forward the same call again.
module EchoFlood {
  import opened Base
  import opened Echo

  /** Who the nodes are and which sessions each holds. */
  datatype Graph = Graph(site: Node -> Site, sessions: Node -> Sessions)

  datatype Flight = Flight(from: Node, to: Node, msg: Msg)

  datatype State = State(
    waits: map<Node, Waits>,
    rpc: map<Node, nat>,
    flight: seq<Flight>,                 // written, not yet handled
    answers: seq<(Node, Key, Msg)>,      // received by local calls
    asked: map<Key, string>)             // what each call asked for

  datatype Event =
    | StartsCall(n: Node, rawName: string, turn: Turn)
    | Deliver(i: nat, turn: Turn)
    | EndsCall(key: Key)                 // the call returns and clears its waiter

  const Start := State(map[], map[], [], [], map[])

  function WaitsOf(s: State, n: Node): Waits {
    if n in s.waits then s.waits[n] else map[]
  }

  function RpcOf(s: State, n: Node): nat {
    if n in s.rpc then s.rpc[n] else 0
  }

  function Sent(from: Node, out: seq<(Node, Msg)>): seq<Flight> {
    seq(|out|, i requires 0 <= i < |out| => Flight(from, out[i].0, out[i].1))
  }

  function Settle(s: State, n: Node, key: Key, e: Effect): State {
    s.(waits := s.waits[n := e.waits],
       flight := s.flight + Sent(n, e.out),
       answers := s.answers + if e.answer.Some? then [(n, key, e.answer.value)] else [])
  }

  /** A call as it leaves; a failed dispatch clears its waiter again. */
  function Launch(waits: Waits, key: Key, name: string, t: Turn): Effect {
    var (e, err) := StartCall(waits, key, name, t);
    if err.Some? then e.(waits := e.waits - {key}) else e
  }

  function Without(fs: seq<Flight>, i: nat): seq<Flight>
    requires i < |fs|
  {
    fs[..i] + fs[i + 1..]
  }

  /** A call for a name the caller does not hold itself; others need no mesh. */
  predicate Floods(g: Graph, n: Node, rawName: string) {
    ParseName(rawName).Some? && ParseName(rawName).value !in g.site(n).names
  }

  ghost predicate Enabled(g: Graph, s: State, e: Event) {
    match e
    case StartsCall(n, rawName, t) =>
      Floods(g, n, rawName) && ValidTurn(g.sessions(n), ParseName(rawName).value, t)
    case Deliver(i, t) =>
      && i < |s.flight|
      && var f := s.flight[i];
         f.msg.Echo? && ParseName(f.msg.name).Some? ==> ValidTurn(g.sessions(f.to), ParseName(f.msg.name).value, t)
    case EndsCall(key) => true
  }

  ghost function Step(g: Graph, s: State, e: Event): State
    requires Enabled(g, s, e)
  {
    match e
    case StartsCall(n, rawName, t) =>
      var key := Key(n, RpcOf(s, n) + 1);
      Settle(s.(rpc := s.rpc[n := key.rpc], asked := s.asked[key := ParseName(rawName).value]), n, key,
             Launch(WaitsOf(s, n), key, ParseName(rawName).value, t))
    case Deliver(i, t) =>
      var f := s.flight[i];
      Settle(s.(flight := Without(s.flight, i)), f.to, f.msg.key,
             Handle(g.site(f.to), WaitsOf(s, f.to), f.from, f.msg, t))
    case EndsCall(key) =>
      s.(waits := s.waits[key.origin := WaitsOf(s, key.origin) - {key}])
  }

  ghost predicate ValidRun(g: Graph, s: State, run: seq<Event>)
    decreases |run|
  {
    run == [] || (Enabled(g, s, run[0]) && ValidRun(g, Step(g, s, run[0]), run[1..]))
  }

  ghost function Exec(g: Graph, s: State, run: seq<Event>): State
    requires ValidRun(g, s, run)
    decreases |run|
  {
    if run == [] then s else Exec(g, Step(g, s, run[0]), run[1..])
  }

  // ---- the flood ends -----------------------------------------------------

  function Pow(b: nat, e: nat): (r: nat)
    ensures b > 0 ==> r > 0
  {
    if e == 0 then 1 else b * Pow(b, e - 1)
  }

  /** What a message can still cost on a graph of degree d. */
  function Weight(d: nat, m: Msg): nat {
    if !m.Echo? then 1 else Pow(d + 2, if m.ttl < 0 then 1 else m.ttl + 1)
  }

  function OutWeight(d: nat, out: seq<(Node, Msg)>): nat {
    if out == [] then 0 else OutWeight(d, out[..|out| - 1]) + Weight(d, out[|out| - 1].1)
  }

  function FlightWeight(d: nat, fs: seq<Flight>): nat {
    if fs == [] then 0 else FlightWeight(d, fs[..|fs| - 1]) + Weight(d, fs[|fs| - 1].msg)
  }

  ghost function Waiting(waits: map<Node, Waits>): set<(Node, Key)> {
    set n, k | n in waits && k in waits[n] :: (n, k)
  }

  ghost function Energy(d: nat, s: State): nat {
    FlightWeight(d, s.flight) + |Waiting(s.waits)|
  }

  ghost predicate DegreeAtMost(g: Graph, d: nat) {
    forall n :: |g.sessions(n)| <= d
  }

  lemma {:induction false} UniformWeight(d: nat, out: seq<(Node, Msg)>, w: nat, c: nat)
    requires |out| <= c && forall i | 0 <= i < |out| :: Weight(d, out[i].1) == w
    ensures OutWeight(d, out) <= c * w
  {
    if out == [] {
      assert 0 <= c * w;
    } else {
      UniformWeight(d, out[..|out| - 1], w, c - 1);
      assert (c - 1) * w + w == c * w;
    }
  }

  /** One dispatch costs at most d copies. */
  lemma DispatchWeight(d: nat, sessions: Sessions, from: Option<Node>, m: Msg, t: Turn)
    requires |sessions| <= d && ValidTurn(sessions, m.name, t)
    ensures OutWeight(d, Dispatch(from, m, t).0) <= d * Weight(d, m)
  {
    EnumerationSize(t.order, sessions.Keys);
    var out := Dispatch(from, m, t).0;
    if out != [] && t.named.Some? {
      assert t.named.value in sessions.Keys && sessions.Keys != {};
    }
    UniformWeight(d, out, Weight(d, m), d);
  }

  lemma WeightFalls(d: nat, m: Msg, next: Msg)
    requires m.Echo? && next.Echo? && next.ttl == m.ttl - 1 && next.ttl >= 0
    ensures d * Weight(d, next) + 1 < Weight(d, m)
  {
  }

  lemma EchoOutweighsReply(d: nat, m: Msg)
    requires m.Echo?
    ensures Weight(d, m) >= 2
  {
  }

  lemma OneOut(d: nat, p: Node, m: Msg)
    ensures OutWeight(d, [(p, m)]) == Weight(d, m) && OutWeight(d, []) == 0
  {
  }

  lemma FinishSpends(d: nat, waits: Waits, key: Key, m: Msg, t: Turn)
    requires !m.Echo?
    ensures var e := Finish(waits, key, m, t);
            if key in waits then OutWeight(d, e.out) + |e.waits| <= |waits| else e == Effect(waits, [], None)
    ensures OutWeight(d, []) == 0
  {
  }

  lemma Removed(waits: Waits, key: Key)
    requires key in waits
    ensures |waits - {key}| == |waits| - 1
  {
  }

  lemma Added(waits: Waits, key: Key, w: Waiter)
    ensures |waits[key := w]| <= |waits| + 1
  {
  }

  /** Handling a message spends more than it leaves behind, waiters counted. */
  lemma {:induction false} HandleSpends(d: nat, sessions: Sessions, site: Site, waits: Waits, from: Node, m: Msg, t: Turn)
    requires |sessions| <= d
    requires m.Echo? && ParseName(m.name).Some? ==> ValidTurn(sessions, ParseName(m.name).value, t)
    ensures var e := Handle(site, waits, from, m, t); OutWeight(d, e.out) + |e.waits| < Weight(d, m) + |waits|
  {
    hide ParseName, Dispatch, ValidTurn;
    if !m.Echo? {
      FinishSpends(d, waits, m.key, m, t);
    } else {
      EchoOutweighsReply(d, m);
      OneOut(d, from, m);
      if ParseName(m.name).Some? {
        EchoSpends(d, sessions, site, waits, from, m, t);
      }
    }
  }

  lemma EchoSpends(d: nat, sessions: Sessions, site: Site, waits: Waits, from: Node, m: Msg, t: Turn)
    requires |sessions| <= d && m.Echo? && ParseName(m.name).Some? && ValidTurn(sessions, ParseName(m.name).value, t)
    ensures var e := Handle(site, waits, from, m, t); OutWeight(d, e.out) + |e.waits| < Weight(d, m) + |waits|
  {
    hide ParseName, Dispatch, ValidTurn, Weight;
    EchoOutweighsReply(d, m);
    var name := ParseName(m.name).value;
    var path := m.path + [HopName(site)];
    if name in site.names {
      ReplyWeight(d, from, EchoOk(m.key, name, site.ula, path));
    } else if m.key in waits {
      ReplyWeight(d, from, EchoOk(m.key, name, site.ula, path));
    } else {
      var waiting := waits[m.key := Back(from)];
      var next := Echo(m.key, name, m.ttl - 1, path);
      Added(waits, m.key, Back(from));
      FinishSpends(d, waiting, m.key, EchoErr(m.key, name, "ttl exceeded"), t);
      if next.ttl >= 0 {
        var (out, err) := Dispatch(Some(from), next, t);
        DispatchWeight(d, sessions, Some(from), next, t);
        WeightFalls(d, m, next);
        if err.Some? {
          FinishSpends(d, waiting, m.key, EchoErr(m.key, name, err.value), t);
        }
      }
    }
  }

  lemma ReplyWeight(d: nat, to: Node, m: Msg)
    requires !m.Echo?
    ensures OutWeight(d, [(to, m)]) == 1 && OutWeight(d, []) == 0
  {
  }

  // ---- from one node to the mesh ------------------------------------------

  lemma {:induction false} FlightWeightConcat(d: nat, a: seq<Flight>, b: seq<Flight>)
    ensures FlightWeight(d, a + b) == FlightWeight(d, a) + FlightWeight(d, b)
  {
    if b == [] {
      assert a + b == a;
    } else {
      assert (a + b)[..|a + b| - 1] == a + b[..|b| - 1];
      FlightWeightConcat(d, a, b[..|b| - 1]);
    }
  }

  lemma {:induction false} SentWeight(d: nat, from: Node, out: seq<(Node, Msg)>)
    ensures FlightWeight(d, Sent(from, out)) == OutWeight(d, out)
  {
    if out != [] {
      assert Sent(from, out)[..|out| - 1] == Sent(from, out[..|out| - 1]);
      SentWeight(d, from, out[..|out| - 1]);
    }
  }

  lemma WithoutWeight(d: nat, fs: seq<Flight>, i: nat)
    requires i < |fs|
    ensures FlightWeight(d, Without(fs, i)) + Weight(d, fs[i].msg) == FlightWeight(d, fs)
  {
    assert fs == fs[..i] + ([fs[i]] + fs[i + 1..]);
    FlightWeightConcat(d, fs[..i], [fs[i]] + fs[i + 1..]);
    FlightWeightConcat(d, [fs[i]], fs[i + 1..]);
    FlightWeightConcat(d, fs[..i], fs[i + 1..]);
    assert [fs[i]][..0] == [];
  }

  ghost function At(n: Node, ks: set<Key>): set<(Node, Key)> {
    set k | k in ks :: (n, k)
  }

  lemma {:induction false} AtSize(n: Node, ks: set<Key>)
    ensures |At(n, ks)| == |ks|
  {
    if ks != {} {
      var k :| k in ks;
      AtSize(n, ks - {k});
      assert At(n, ks) == At(n, ks - {k}) + {(n, k)};
    }
  }

  lemma WaitingAfter(s: State, n: Node, w: Waits)
    ensures |Waiting(s.waits[n := w])| + |WaitsOf(s, n)| == |Waiting(s.waits)| + |w|
  {
    var after := s.waits[n := w];
    WaitingSplit(s.waits, n);
    WaitingSplit(after, n);
    assert after - {n} == s.waits - {n};
  }

  lemma InWaiting(waits: map<Node, Waits>, p: (Node, Key))
    ensures p in Waiting(waits) <==> p.0 in waits && p.1 in waits[p.0]
  {
  }

  lemma WaitingSplit(waits: map<Node, Waits>, n: Node)
    ensures |Waiting(waits)| == |Waiting(waits - {n})| + if n in waits then |waits[n]| else 0
  {
    hide Waiting;
    var here := if n in waits then At(n, waits[n].Keys) else {};
    var rest := Waiting(waits - {n});
    forall p: (Node, Key) ensures (p in Waiting(waits) <==> p in rest + here) && (p in here ==> p !in rest) {
      InWaiting(waits, p);
      InWaiting(waits - {n}, p);
    }
    assert Waiting(waits) == rest + here && rest !! here;
    if n in waits {
      AtSize(n, waits[n].Keys);
    }
  }

  lemma SettleEnergy(d: nat, s: State, n: Node, key: Key, e: Effect)
    ensures Energy(d, Settle(s, n, key, e)) + |WaitsOf(s, n)| == Energy(d, s) + OutWeight(d, e.out) + |e.waits|
  {
    FlightWeightConcat(d, s.flight, Sent(n, e.out));
    SentWeight(d, n, e.out);
    WaitingAfter(s, n, e.waits);
  }

  function CallCost(d: nat): nat {
    1 + d * Pow(d + 2, 129)
  }

  /** Every delivery lowers the energy of the mesh; only calls raise it. */
  lemma StepEnergy(g: Graph, d: nat, s: State, e: Event)
    requires DegreeAtMost(g, d) && Enabled(g, s, e)
    ensures e.Deliver? ==> Energy(d, Step(g, s, e)) < Energy(d, s)
    ensures e.EndsCall? ==> Energy(d, Step(g, s, e)) <= Energy(d, s)
    ensures e.StartsCall? ==> Energy(d, Step(g, s, e)) <= Energy(d, s) + CallCost(d)
  {
    match e
    case Deliver(i, t) =>
      var f := s.flight[i];
      WithoutWeight(d, s.flight, i);
      HandleSpends(d, g.sessions(f.to), g.site(f.to), WaitsOf(s, f.to), f.from, f.msg, t);
      SettleEnergy(d, s.(flight := Without(s.flight, i)), f.to, f.msg.key,
                   Handle(g.site(f.to), WaitsOf(s, f.to), f.from, f.msg, t));
    case EndsCall(key) =>
      WaitingAfter(s, key.origin, WaitsOf(s, key.origin) - {key});
      if key in WaitsOf(s, key.origin) {
        Removed(WaitsOf(s, key.origin), key);
      } else {
        assert WaitsOf(s, key.origin) - {key} == WaitsOf(s, key.origin);
      }
    case StartsCall(n, rawName, t) =>
      CallEnergy(g, d, s, n, rawName, t);
  }

  lemma StartSpends(d: nat, sessions: Sessions, waits: Waits, key: Key, name: string, t: Turn)
    requires |sessions| <= d && ValidTurn(sessions, name, t)
    ensures var e := Launch(waits, key, name, t); OutWeight(d, e.out) + |e.waits| <= |waits| + CallCost(d)
  {
    hide Dispatch, Pow, OutWeight, ValidTurn;
    Added(waits, key, Call);
    Removed(waits[key := Call], key);
    DispatchWeight(d, sessions, None, Echo(key, name, ECHO_TTL, []), t);
  }

  lemma CallEnergy(g: Graph, d: nat, s: State, n: Node, rawName: string, t: Turn)
    requires DegreeAtMost(g, d) && Enabled(g, s, StartsCall(n, rawName, t))
    ensures Energy(d, Step(g, s, StartsCall(n, rawName, t))) <= Energy(d, s) + CallCost(d)
  {
    hide ParseName, Launch, OutWeight, FlightWeight, Waiting, CallCost, Settle, ValidTurn;
    var name := ParseName(rawName).value;
    var key := Key(n, RpcOf(s, n) + 1);
    StartSpends(d, g.sessions(n), WaitsOf(s, n), key, name, t);
    var asking := s.(rpc := s.rpc[n := key.rpc], asked := s.asked[key := name]);
    SettleEnergy(d, asking, n, key, Launch(WaitsOf(s, n), key, name, t));
    assert Energy(d, asking) == Energy(d, s) && WaitsOf(asking, n) == WaitsOf(s, n);
  }

  function Deliveries(run: seq<Event>): nat {
    if run == [] then 0 else (if run[0].Deliver? then 1 else 0) + Deliveries(run[1..])
  }

  function Calls(run: seq<Event>): nat {
    if run == [] then 0 else (if run[0].StartsCall? then 1 else 0) + Calls(run[1..])
  }

  lemma {:induction false} RunSpends(g: Graph, d: nat, s: State, run: seq<Event>)
    requires DegreeAtMost(g, d) && ValidRun(g, s, run)
    ensures Deliveries(run) <= Energy(d, s) + Calls(run) * CallCost(d)
    decreases |run|
  {
    hide Energy, CallCost, Step, Enabled;
    if run != [] {
      StepEnergy(g, d, s, run[0]);
      RunSpends(g, d, Step(g, s, run[0]), run[1..]);
      Distributes(Calls(run[1..]), CallCost(d));
    }
  }

  lemma Distributes(k: nat, c: nat)
    ensures (k + 1) * c == k * c + c && k * c >= 0
  {
  }

  /** Named echoes terminate on every finite session graph, cycles included:
      c calls cause at most c * (1 + d * (d + 2)^129) message deliveries. */
  lemma {:induction false} FloodTerminates(g: Graph, d: nat, run: seq<Event>)
    requires DegreeAtMost(g, d) && ValidRun(g, Start, run)
    ensures Deliveries(run) <= Calls(run) * CallCost(d)
  {
    RunSpends(g, d, Start, run);
    assert Waiting(Start.waits) == {};
  }
}
