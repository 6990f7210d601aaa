// Triggered advertisement need not end once one node is an exit: three nodes,
// each with a session to the other two, one of them an exit, reach a state
// from which writes and reads alone lead back to it.
module Storm {
  import opened Base
  import opened Rib
  import opened Mesh
  import opened Termination
  import opened Sentinels
  import opened Convergent

  /** Such a mesh: the exit a, its peers b and c, what each holds for both
      defaults, and the metric at which each advertisement still unread passes
      the defaults on, oldest first. */
  datatype Triangle = Triangle(
    a: Node, b: Node, c: Node,
    ea: Option<Entry>, eb: Option<Entry>, ec: Option<Entry>,
    ab: seq<Option<int>>, ac: seq<Option<int>>, ba: seq<Option<int>>,
    bc: seq<Option<int>>, ca: seq<Option<int>>, cb: seq<Option<int>>)

  predicate Distinct(t: Triangle) {
    t.a != t.b && t.a != t.c && t.b != t.c
  }

  predicate Corner(t: Triangle, n: Node) {
    n == t.a || n == t.b || n == t.c
  }

  predicate Edge(t: Triangle, p: Node, n: Node) {
    Corner(t, p) && Corner(t, n) && p != n
  }

  function Third(t: Triangle, p: Node, n: Node): Node {
    if t.a != p && t.a != n then t.a else if t.b != p && t.b != n then t.b else t.c
  }

  function Held(t: Triangle, n: Node): Option<Entry> {
    if n == t.a then t.ea else if n == t.b then t.eb else t.ec
  }

  function Unread(t: Triangle, p: Node, n: Node): seq<Option<int>> {
    if p == t.a then if n == t.b then t.ab else t.ac
    else if p == t.b then if n == t.a then t.ba else t.bc
    else if n == t.a then t.ca else t.cb
  }

  function WithHeld(t: Triangle, n: Node, e: Option<Entry>): Triangle {
    if n == t.a then t.(ea := e) else if n == t.b then t.(eb := e) else t.(ec := e)
  }

  function WithUnread(t: Triangle, p: Node, n: Node, q: seq<Option<int>>): Triangle {
    if p == t.a then if n == t.b then t.(ab := q) else t.(ac := q)
    else if p == t.b then if n == t.a then t.(ba := q) else t.(bc := q)
    else if n == t.a then t.(ca := q) else t.(cb := q)
  }

  // ---- writing and hearing one advertisement, on the picture --------------

  function Passed(e: Option<Entry>, to: Node): Option<int> {
    if e.Some? && e.value.next != to && e.value.metric < ROUTE_INFINITY then Some(e.value.metric) else None
  }

  function Wrote(t: Triangle, n: Node, to: Node): Triangle {
    WithUnread(t, n, to, Unread(t, n, to) + [Passed(Held(t, n), to)])
  }

  /** The metrics at which an advertisement lists each default. */
  function DefaultsListed(exit: bool, passed: Option<int>): seq<int> {
    (if exit then [0] else []) + (if passed.Some? then [passed.value] else [])
  }

  function Heard(t: Triangle, p: Node, n: Node): Triangle
    requires Unread(t, p, n) != []
  {
    var q := Unread(t, p, n);
    var first := if p == t.a then ApplyListing(Held(t, n), p, 0) else Held(t, n);
    var last := if q[0].Some? then ApplyListing(first, p, q[0].value) else first;
    WithHeld(WithUnread(t, p, n, q[1..]), n, last)
  }

  predicate Stirred(t: Triangle, p: Node, n: Node)
    requires Unread(t, p, n) != []
  {
    var q := Unread(t, p, n);
    var first := if p == t.a then ApplyListing(Held(t, n), p, 0) else Held(t, n);
    first != Held(t, n) || (q[0].Some? && ApplyListing(first, p, q[0].value) != first)
  }

  /** n hears p and, if its handler counts a change, writes to both peers. */
  function Next(t: Triangle, p: Node, n: Node): Triangle
    requires Unread(t, p, n) != []
  {
    if Stirred(t, p, n) then Wrote(Wrote(Heard(t, p, n), n, p), n, Third(t, p, n)) else Heard(t, p, n)
  }

  /** Hearing the oldest advertisement from p sets no holddown mark at n. */
  predicate Hearable(t: Triangle, p: Node, n: Node) {
    && Edge(t, p, n) && Unread(t, p, n) != []
    && (p == t.a || Unread(t, p, n)[0].Some? || !Via(Held(t, n), p))
    && (Unread(t, p, n)[0].Some? ==> 1 <= Unread(t, p, n)[0].value)
  }

  // ---- the mesh the picture stands for ------------------------------------

  function Expect(t: Triangle, n: Node, d: Dest): Option<Entry> {
    if !d.Ula? then Held(t, n)
    else if Corner(t, d.node) && d.node != n then Some(Entry(d.node, 1, None))
    else None
  }

  function Defaults(passed: Option<int>): Ad {
    if passed.Some? then [Route(Some(DefaultV6), passed.value), Route(Some(DefaultV4), passed.value)] else []
  }

  function AdOf(exit: bool, n: Node, third: Node, passed: Option<int>): Ad {
    OwnRoutes(n, exit) + [Route(Some(Ula(third)), 1)] + Defaults(passed)
  }

  function AdsOf(t: Triangle, p: Node, n: Node): seq<Ad> {
    var q := Unread(t, p, n);
    seq(|q|, i requires 0 <= i < |q| => AdOf(p == t.a, p, Third(t, p, n), q[i]))
  }

  ghost predicate Knows(net: Net, t: Triangle, n: Node) {
    forall d :: Lookup(RibOf(net, n), d) == Expect(t, n, d)
  }

  function Sessions(t: Triangle): set<Link> {
    {(t.a, t.b), (t.a, t.c), (t.b, t.a), (t.b, t.c), (t.c, t.a), (t.c, t.b)}
  }

  ghost predicate Shows(net: Net, t: Triangle) {
    && Distinct(t)
    && net.ribs.Keys == {t.a, t.b, t.c} && net.queue.Keys <= Sessions(t)
    && net.reg == Sessions(t) && net.up == Sessions(t) && net.now == 0
    && (forall n | Corner(t, n) :: Knows(net, t, n))
    && (forall p, n | Edge(t, p, n) :: Chan(net, p, n) == AdsOf(t, p, n))
  }

  lemma OutOf(net: Net, t: Triangle, n: Node, p: Node)
    requires Shows(net, t) && Edge(t, n, p)
    ensures Out(net, n) == multiset{(n, p), (n, Third(t, n, p))}
  {
    hide Knows, AdsOf;
    assert (set l | l in net.reg && l.0 == n) == {(n, p), (n, Third(t, n, p))};
  }

  // ---- one write ----------------------------------------------------------

  lemma AdAdvertises(t: Triangle, rib: Table, n: Node, to: Node)
    requires Distinct(t) && Edge(t, n, to) && forall d :: Lookup(rib, d) == Expect(t, n, d)
    ensures Advertises(n, n == t.a, rib, to, AdOf(n == t.a, n, Third(t, n, to), Passed(Held(t, n), to)))
  {
    var passed := Passed(Held(t, n), to);
    var ad := AdOf(n == t.a, n, Third(t, n, to), passed);
    var h := OwnRoutes(n, n == t.a);
    assert ad[|h|] == Route(Some(Ula(Third(t, n, to))), 1);
    assert passed.Some? ==> ad[|h| + 1] == Route(Some(DefaultV6), passed.value) && ad[|h| + 2] == Route(Some(DefaultV4), passed.value);
    forall d | Exported(rib, to, d) ensures exists i :: |h| <= i < |ad| && ad[i].dest == Some(d) {
      assert Lookup(rib, d) == Expect(t, n, d);
      if d.Ula? {
        assert d.node == Third(t, n, to);
      }
    }
    forall i | |h| <= i < |ad|
      ensures ad[i].dest.Some? && Exported(rib, to, ad[i].dest.value) && ad[i].metric == rib[ad[i].dest.value].metric
    {
      assert Lookup(rib, ad[i].dest.value) == Expect(t, n, ad[i].dest.value);
    }
  }

  lemma Write(t: Triangle, net: Net, n: Node, to: Node) returns (e: Event)
    requires Shows(net, t) && Edge(t, n, to) && net.owed[(n, to)] > 0
    ensures e.Send? && Enabled({t.a}, net, e) && Shows(Step(net, e), Wrote(t, n, to))
    ensures Step(net, e).owed == net.owed - multiset{(n, to)}
    ensures Step(net, e).queue.Keys == net.queue.Keys + {(n, to)}
  {
    hide Advertises;
    assert Knows(net, t, n);
    AdAdvertises(t, RibOf(net, n), n, to);
    var ad := AdOf(n == t.a, n, Third(t, n, to), Passed(Held(t, n), to));
    e := Send(n, to, ad);
    var net', t' := Step(net, e), Wrote(t, n, to);
    forall m | Corner(t', m) ensures Knows(net', t', m) {
      assert Knows(net, t, m);
      forall d ensures Lookup(RibOf(net', m), d) == Expect(t', m, d) {
        assert Lookup(RibOf(net, m), d) == Expect(t, m, d);
      }
    }
    forall p, m | Edge(t', p, m) ensures Chan(net', p, m) == AdsOf(t', p, m) {
      assert Edge(t, p, m);
      WroteAds(t, n, to, p, m);
    }
  }

  lemma WroteAds(t: Triangle, n: Node, to: Node, p: Node, m: Node)
    requires Distinct(t) && Edge(t, n, to) && Edge(t, p, m)
    ensures AdsOf(Wrote(t, n, to), p, m) ==
            if (p, m) == (n, to) then AdsOf(t, n, to) + [AdOf(n == t.a, n, Third(t, n, to), Passed(Held(t, n), to))]
            else AdsOf(t, p, m)
  {
    hide AdOf, Passed;
  }

  // ---- one read -----------------------------------------------------------

  lemma DefaultListings(passed: Option<int>, d: Dest)
    ensures ListingsOf(Defaults(passed), d) == if !d.Ula? && passed.Some? then [passed.value] else []
  {
    if passed.Some? {
      var r6, r4 := Route(Some(DefaultV6), passed.value), Route(Some(DefaultV4), passed.value);
      ListingsSingle(r6, d);
      ListingsSingle(r4, d);
      ListingsConcat([r6], [r4], d);
      assert [r6] + [r4] == Defaults(passed);
    }
  }

  lemma {:induction false} AdOfListings(exit: bool, p: Node, third: Node, passed: Option<int>, d: Dest)
    requires p != third
    ensures ListingsOf(AdOf(exit, p, third, passed), d) ==
            if !d.Ula? then DefaultsListed(exit, passed) else if d.node == p then [0] else if d.node == third then [1] else []
  {
    hide ListingsOf, OwnRoutes, Defaults;
    var own, one, rest := OwnRoutes(p, exit), [Route(Some(Ula(third)), 1)], Defaults(passed);
    OwnListings(p, exit, d);
    ListingsSingle(one[0], d);
    DefaultListings(passed, d);
    ListingsConcat(own, one, d);
    ListingsConcat(own + one, rest, d);
  }

  lemma ToldTwice(cur: Option<Entry>, from: Node, exit: bool, passed: Option<int>)
    ensures var first := if exit then ApplyListing(cur, from, 0) else cur;
            var last := if passed.Some? then ApplyListing(first, from, passed.value) else first;
            && Fold(cur, from, DefaultsListed(exit, passed)) == last
            && (Moves(cur, from, DefaultsListed(exit, passed)) <==> first != cur || last != first)
  {
    hide ApplyListing;
    OneListing(cur, from, 0);
    if passed.Some? {
      if exit {
        FoldLast(cur, from, [0], passed.value);
        assert DefaultsListed(exit, passed) == [0] + [passed.value];
      } else {
        OneListing(cur, from, passed.value);
        assert DefaultsListed(exit, passed) == [passed.value];
      }
    } else {
      assert DefaultsListed(exit, passed) == if exit then [0] else [];
    }
  }

  /** What hearing an advertisement does to one destination. */
  lemma {:induction false} HeardAt(t: Triangle, rib: Table, p: Node, n: Node, d: Dest)
    requires Distinct(t) && Hearable(t, p, n) && forall c :: Lookup(rib, c) == Expect(t, n, c)
    ensures var ad := AdOf(p == t.a, p, Third(t, p, n), Unread(t, p, n)[0]);
            && Lookup(ApplyRoutes(rib, n, p, ad), d) == Expect(Heard(t, p, n), n, d)
            && (d != Ula(n) ==> (Moves(Lookup(rib, d), p, ListingsOf(ad, d)) <==> !d.Ula? && Stirred(t, p, n)))
            && (Via(Lookup(ApplyRoutes(rib, n, p, ad), d), p) ==> d in Seen(n, p, ad))
  {
    hide Fold, Moves, ListingsOf, AdOf, Seen;
    var q := Unread(t, p, n);
    var ad := AdOf(p == t.a, p, Third(t, p, n), q[0]);
    SelfUntouched(rib, n, p, ad);
    assert Lookup(rib, d) == Expect(t, n, d);
    AdOfListings(p == t.a, p, Third(t, p, n), q[0], d);
    if d != Ula(n) {
      FoldAt(rib, n, p, ad, d);
      if d.Ula? {
        OneListing(Lookup(rib, d), p, 0);
        OneListing(Lookup(rib, d), p, 1);
      } else {
        ToldTwice(Held(t, n), p, p == t.a, q[0]);
      }
      SeenHere(t, p, n, ad, d);
    }
  }

  lemma SeenHere(t: Triangle, p: Node, n: Node, ad: Ad, d: Dest)
    requires d != Ula(n)
    ensures d == Ula(p) || ListingsOf(ad, d) != [] ==> d in Seen(n, p, ad)
  {
    if d != Ula(p) {
      SeenIfListed(n, p, ad, d);
    }
  }

  lemma {:induction false} HeardTable(t: Triangle, rib: Table, p: Node, n: Node, now: int)
    requires Distinct(t) && Hearable(t, p, n) && forall c :: Lookup(rib, c) == Expect(t, n, c)
    ensures var ad := AdOf(p == t.a, p, Third(t, p, n), Unread(t, p, n)[0]);
            && (forall d :: Lookup(HandleRoutes(rib, n, p, ad, now), d) == Expect(Heard(t, p, n), n, d))
            && (Changed(rib, n, p, ad, now) <==> Stirred(t, p, n))
  {
    var q := Unread(t, p, n);
    var ad := AdOf(p == t.a, p, Third(t, p, n), q[0]);
    assert Lookup(rib, Ula(p)) == Some(Entry(p, 1, None));
    assert InstallDirect(rib, p) == rib;
    hide AdOf, Seen, Moves, ListingsOf, RoutesChanged, ApplyRoutes, Expect, ApplyListing;
    var applied := ApplyRoutes(rib, n, p, ad);
    forall d ensures Via(Lookup(applied, d), p) ==> d in Seen(n, p, ad) {
      HeardAt(t, rib, p, n, d);
    }
    forall d | d in applied ensures !Omitted(applied[d], p, Seen(n, p, ad), d) {
      assert Lookup(applied, d) == Some(applied[d]);
    }
    WithdrawNothing(applied, p, Seen(n, p, ad), now);
    HeardChanged(t, rib, p, n);
    forall d {
      HeardAt(t, rib, p, n, d);
    }
  }

  lemma {:induction false} HeardChanged(t: Triangle, rib: Table, p: Node, n: Node)
    requires Distinct(t) && Hearable(t, p, n) && forall c :: Lookup(rib, c) == Expect(t, n, c)
    ensures RoutesChanged(rib, n, p, AdOf(p == t.a, p, Third(t, p, n), Unread(t, p, n)[0])) <==> Stirred(t, p, n)
  {
    hide AdOf, Moves, ListingsOf, RoutesChanged, ApplyRoutes, Expect, ApplyListing, Seen;
    var ad := AdOf(p == t.a, p, Third(t, p, n), Unread(t, p, n)[0]);
    MovesIff(rib, n, p, ad);
    forall d | d != Ula(n) {
      HeardAt(t, rib, p, n, d);
    }
    HeardAt(t, rib, p, n, DefaultV6);
  }

  lemma Read(t: Triangle, net: Net, p: Node, n: Node)
    requires Shows(net, t) && Hearable(t, p, n)
    ensures var e := Receive(n, p);
            && Enabled({t.a}, net, e) && Shows(Step(net, e), Heard(t, p, n))
            && Step(net, e).owed == net.owed + (if Stirred(t, p, n) then multiset{(n, p), (n, Third(t, p, n))} else multiset{})
            && Step(net, e).queue.Keys == net.queue.Keys + {(p, n)}
    ensures Edge(t, n, p) && Edge(t, n, Third(t, p, n))
  {
    hide HandleRoutes, Changed, AdOf, Stirred, Heard, Knows, AdsOf;
    HeardElsewhere(t, p, n);
    ReadOldest(t, net, p, n);
    var net', t' := Step(net, Receive(n, p)), Heard(t, p, n);
    forall m | Corner(t', m) ensures Knows(net', t', m) {
      ReadTables(t, net, p, n, m);
    }
    forall q, m | Edge(t', q, m) ensures Chan(net', q, m) == AdsOf(t', q, m) {
      assert Edge(t, q, m);
      HeardAds(t, p, n, q, m);
    }
  }

  lemma ReadOldest(t: Triangle, net: Net, p: Node, n: Node)
    requires Shows(net, t) && Hearable(t, p, n)
    ensures Chan(net, p, n) != [] && Chan(net, p, n) == AdsOf(t, p, n)
    ensures Step(net, Receive(n, p)).owed == net.owed + (if Stirred(t, p, n) then multiset{(n, p), (n, Third(t, p, n))} else multiset{})
  {
    hide HandleRoutes, Changed, AdOf, Stirred;
    assert Knows(net, t, n) && Edge(t, p, n);
    HeardTable(t, RibOf(net, n), p, n, net.now);
    OutOf(net, t, n, p);
    assert Chan(net, p, n)[0] == AdOf(p == t.a, p, Third(t, p, n), Unread(t, p, n)[0]);
  }

  lemma ReadTables(t: Triangle, net: Net, p: Node, n: Node, m: Node)
    requires Shows(net, t) && Hearable(t, p, n) && Corner(t, m) && Chan(net, p, n) != []
    ensures Knows(Step(net, Receive(n, p)), Heard(t, p, n), m)
  {
    hide HandleRoutes, Changed, AdOf;
    assert Knows(net, t, m) && Edge(t, p, n);
    var net', t' := Step(net, Receive(n, p)), Heard(t, p, n);
    if m == n {
      assert Chan(net, p, n)[0] == AdOf(p == t.a, p, Third(t, p, n), Unread(t, p, n)[0]);
      HeardTable(t, RibOf(net, n), p, n, net.now);
    } else {
      forall d ensures Lookup(RibOf(net', m), d) == Expect(t', m, d) {
        assert Lookup(RibOf(net, m), d) == Expect(t, m, d);
      }
    }
  }

  lemma HeardAds(t: Triangle, p: Node, n: Node, q: Node, m: Node)
    requires Distinct(t) && Edge(t, p, n) && Edge(t, q, m) && Unread(t, p, n) != []
    ensures AdsOf(Heard(t, p, n), q, m) == if (q, m) == (p, n) then AdsOf(t, p, n)[1..] else AdsOf(t, q, m)
  {
    hide AdOf;
  }

  /** The mesh shows t and nothing is owed. */
  ghost predicate Still(net: Net, t: Triangle) {
    Shows(net, t) && net.owed == multiset{}
  }

  ghost predicate Leads(t: Triangle, net: Net, run: seq<Event>, t': Triangle) {
    && ValidRun({t.a}, net, run) && (forall e | e in run :: Triggered(e))
    && Still(Exec({t.a}, net, run), t') && net.queue.Keys <= Exec({t.a}, net, run).queue.Keys
  }

  predicate SameNodes(t: Triangle, t': Triangle) {
    t'.a == t.a && t'.b == t.b && t'.c == t.c
  }

  lemma HeardElsewhere(t: Triangle, p: Node, n: Node)
    requires Unread(t, p, n) != []
    ensures SameNodes(t, Heard(t, p, n))
  {
  }

  lemma WroteElsewhere(t: Triangle, n: Node, to: Node)
    ensures SameNodes(t, Wrote(t, n, to))
  {
  }

  lemma ThreeEvents(exits: set<Node>, net: Net, e: Event, w1: Event, w2: Event)
    requires Enabled(exits, net, e) && w1.Send? && w2.Send?
    requires Enabled(exits, Step(net, e), w1) && Enabled(exits, Step(Step(net, e), w1), w2)
    ensures ValidRun(exits, net, [e, w1, w2])
    ensures Exec(exits, net, [e, w1, w2]) == Step(Step(Step(net, e), w1), w2)
  {
    hide Step;
    assert [e, w1, w2][1..] == [w1, w2] && [w1, w2][1..] == [w2] && [w2][1..] == [];
    var net1 := Step(net, e);
    var net2 := Step(net1, w1);
    assert ValidRun(exits, net2, [w2]) && Exec(exits, net2, [w2]) == Step(net2, w2);
    assert ValidRun(exits, net1, [w1, w2]) && Exec(exits, net1, [w1, w2]) == Exec(exits, net2, [w2]);
  }

  lemma {:induction false} Hear(t: Triangle, net: Net, p: Node, n: Node) returns (run: seq<Event>)
    requires Still(net, t) && Hearable(t, p, n)
    ensures Leads(t, net, run, Next(t, p, n)) && Receive(n, p) in run
  {
    hide Shows, Stirred, Heard, Unread, Wrote, Step;
    Read(t, net, p, n);
    var e := Receive(n, p);
    HeardElsewhere(t, p, n);
    if Stirred(t, p, n) {
      var w1, w2 := WriteBoth(Heard(t, p, n), Step(net, e), n, p);
      run := [e, w1, w2];
      ThreeEvents({t.a}, net, e, w1, w2);
      assert Still(Exec({t.a}, net, run), Next(t, p, n));
      assert Leads(t, net, run, Next(t, p, n));
    } else {
      run := [e];
      assert run[1..] == [];
      assert Exec({t.a}, net, run) == Step(net, e);
      assert Still(Exec({t.a}, net, run), Next(t, p, n));
      assert ValidRun({t.a}, net, run);
      assert forall x | x in run :: Triggered(x);
      assert net.queue.Keys <= Exec({t.a}, net, run).queue.Keys;
    }
  }

  lemma {:induction false} WriteBoth(t: Triangle, net: Net, n: Node, p: Node) returns (w1: Event, w2: Event)
    requires Shows(net, t) && Edge(t, n, p) && Edge(t, n, Third(t, p, n)) && net.owed == multiset{(n, p), (n, Third(t, p, n))}
    ensures w1.Send? && Enabled({t.a}, net, w1) && w2.Send? && Enabled({t.a}, Step(net, w1), w2)
    ensures var end := Step(Step(net, w1), w2);
            Still(end, Wrote(Wrote(t, n, p), n, Third(t, p, n))) && net.queue.Keys <= end.queue.Keys
  {
    hide Shows, Wrote, Step;
    w1 := Write(t, net, n, p);
    WroteElsewhere(t, n, p);
    w2 := Write(Wrote(t, n, p), Step(net, w1), n, Third(t, p, n));
  }

  // ---- the storm ----------------------------------------------------------

  function Hop(n: Node, metric: int): Option<Entry> {
    Some(Entry(n, metric, None))
  }

  predicate Reads(run: seq<Event>, p: Node, n: Node) {
    Receive(n, p) in run
  }

  lemma Nothing(t: Triangle, net: Net) returns (run: seq<Event>)
    requires Still(net, t)
    ensures Leads(t, net, run, t)
  {
    run := [];
  }

  lemma {:induction false} Then(s0: Triangle, net: Net, run: seq<Event>, s: Triangle, s': Triangle, p: Node, n: Node)
    returns (longer: seq<Event>)
    requires SameNodes(s0, s) && Leads(s0, net, run, s) && Hearable(s, p, n) && s' == Next(s, p, n)
    ensures Leads(s0, net, longer, s') && Reads(longer, p, n) && forall q, m | Reads(run, q, m) :: Reads(longer, q, m)
  {
    hide Still, Hearable, Next, ValidRun, Exec;
    var exits, here := {s0.a}, Exec({s0.a}, net, run);
    var more := Hear(s, here, p, n);
    RunsCompose(exits, net, run, more);
    longer := run + more;
  }

  /** The exit a has learned its own default from c, which learned it from a. */
  function Turn(a: Node, b: Node, c: Node): Triangle {
    Triangle(a, b, c, Hop(c, 3), Hop(a, 4), Hop(a, 1),
      [], [], [None, None], [], [Some(5), None], [None, None, Some(1)])
  }

  function AfterSeven(a: Node, b: Node, c: Node): Triangle {
    Triangle(a, b, c, Hop(c, 6), Hop(a, 7), Hop(a, 1), [], [], [], [], [None], [None, None, Some(1)])
  }

  function AfterTen(a: Node, b: Node, c: Node): Triangle {
    Triangle(a, b, c, Hop(c, 6), Hop(c, 2), Hop(a, 1), [], [], [Some(2)], [None], [None], [])
  }

  /** The same picture with the exit's peers drawn the other way round. */
  function Mirror(t: Triangle): Triangle {
    Triangle(t.a, t.c, t.b, t.ea, t.ec, t.eb, t.ac, t.ab, t.ca, t.cb, t.ba, t.bc)
  }

  lemma {:induction false} FirstSeven(s0: Triangle, net: Net) returns (run: seq<Event>)
    requires s0 == Turn(s0.a, s0.b, s0.c) && Distinct(s0) && Still(net, s0)
    ensures Leads(s0, net, run, AfterSeven(s0.a, s0.b, s0.c))
    ensures Reads(run, s0.a, s0.b) && Reads(run, s0.a, s0.c) && Reads(run, s0.b, s0.a) && Reads(run, s0.b, s0.c) && Reads(run, s0.c, s0.a)
  {
    hide Still, Leads, Reads;
    var a, b, c := s0.a, s0.b, s0.c;
    run := Nothing(s0, net);
    var s1 := s0.(ba := [None]);
    run := Then(s0, net, run, s0, s1, b, a);
    var s2 := s1.(ba := []);
    run := Then(s0, net, run, s1, s2, b, a);
    var s3 := s2.(ea := Hop(c, 6), ab := [Some(6)], ac := [None], ca := [None]);
    run := Then(s0, net, run, s2, s3, c, a);
    var s4 := s3.(eb := Hop(a, 7), ab := [], ba := [None], bc := [Some(7)]);
    run := Then(s0, net, run, s3, s4, a, b);
    var s5 := s4.(ac := []);
    run := Then(s0, net, run, s4, s5, a, c);
    var s6 := s5.(bc := []);
    run := Then(s0, net, run, s5, s6, b, c);
    var s7 := s6.(ba := []);
    run := Then(s0, net, run, s6, s7, b, a);
  }

  lemma {:induction false} NextThree(s0: Triangle, net: Net, first: seq<Event>) returns (run: seq<Event>)
    requires Distinct(s0) && Leads(s0, net, first, AfterSeven(s0.a, s0.b, s0.c))
    ensures Leads(s0, net, run, AfterTen(s0.a, s0.b, s0.c))
    ensures Reads(run, s0.c, s0.b) && forall p, n | Reads(first, p, n) :: Reads(run, p, n)
  {
    hide Still, Leads, Reads;
    var a, b, c := s0.a, s0.b, s0.c;
    run := first;
    var s7 := AfterSeven(a, b, c);
    var s8 := s7.(cb := [None, Some(1)]);
    run := Then(s0, net, run, s7, s8, c, b);
    var s9 := s8.(cb := [Some(1)]);
    run := Then(s0, net, run, s8, s9, c, b);
    var s10 := s9.(eb := Hop(c, 2), ba := [Some(2)], bc := [None], cb := []);
    run := Then(s0, net, run, s9, s10, c, b);
  }

  lemma {:induction false} LastFour(s0: Triangle, net: Net, first: seq<Event>) returns (run: seq<Event>)
    requires Distinct(s0) && Leads(s0, net, first, AfterTen(s0.a, s0.b, s0.c))
    ensures Leads(s0, net, run, Mirror(Turn(s0.a, s0.c, s0.b)))
    ensures forall p, n | Reads(first, p, n) :: Reads(run, p, n)
  {
    hide Still, Leads, Reads;
    var a, b, c := s0.a, s0.b, s0.c;
    run := first;
    var s10 := AfterTen(a, b, c);
    var s11 := s10.(ea := Hop(b, 3), ab := [None], ac := [Some(3)], ba := []);
    run := Then(s0, net, run, s10, s11, b, a);
    var s12 := s11.(ec := Hop(a, 4), ac := [], ca := [None, None], cb := [Some(4)]);
    run := Then(s0, net, run, s11, s12, a, c);
    var s13 := s12.(eb := Hop(c, 5), ba := [Some(5)], bc := [None, None], cb := []);
    run := Then(s0, net, run, s12, s13, c, b);
    var s14 := s13.(eb := Hop(a, 1), ab := [], ba := [Some(5), None], bc := [None, None, Some(1)]);
    run := Then(s0, net, run, s13, s14, a, b);
  }

  /** Fourteen reads, among them one of every queue, turn the picture round. */
  lemma {:induction false} HalfTurn(s0: Triangle, net: Net) returns (run: seq<Event>)
    requires s0 == Turn(s0.a, s0.b, s0.c) && Distinct(s0) && Still(net, s0)
    ensures Leads(s0, net, run, Mirror(Turn(s0.a, s0.c, s0.b)))
    ensures forall p, n | Edge(s0, p, n) :: Reads(run, p, n)
  {
    hide Still, Leads, Reads, Turn;
    run := FirstSeven(s0, net);
    run := NextThree(s0, net, run);
    run := LastFour(s0, net, run);
  }

  lemma Mirrored(t: Triangle, net: Net)
    requires Still(net, Mirror(t))
    ensures Still(net, t)
  {
    forall n | Corner(t, n) ensures Knows(net, t, n) {
      assert Corner(Mirror(t), n) && Knows(net, Mirror(t), n);
      forall d ensures Lookup(RibOf(net, n), d) == Expect(t, n, d) {
        assert Expect(Mirror(t), n, d) == Expect(t, n, d);
      }
    }
    forall p, n | Edge(t, p, n) ensures Chan(net, p, n) == AdsOf(t, p, n) {
      assert Edge(Mirror(t), p, n);
      assert Unread(Mirror(t), p, n) == Unread(t, p, n) && Third(Mirror(t), p, n) == Third(t, p, n);
    }
  }

  /** The picture and the keys of the queues determine the mesh. */
  lemma SameNet(t: Triangle, net: Net, net': Net)
    requires Still(net, t) && Still(net', t) && net.queue.Keys == net'.queue.Keys
    ensures net == net'
  {
    hide Expect, AdsOf;
    forall n | n in net.ribs.Keys ensures net.ribs[n] == net'.ribs[n] {
      assert Corner(t, n) && Knows(net, t, n) && Knows(net', t, n);
      EqualTables(RibOf(net, n), RibOf(net', n));
    }
    assert net.ribs == net'.ribs;
    forall l | l in net.queue.Keys ensures net.queue[l] == net'.queue[l] {
      assert Edge(t, l.0, l.1);
      assert Chan(net, l.0, l.1) == net.queue[l] && Chan(net', l.0, l.1) == net'.queue[l];
    }
    assert net.queue == net'.queue;
  }

  lemma {:induction false} FullTurn(s0: Triangle, net: Net) returns (cycle: seq<Event>)
    requires s0 == Turn(s0.a, s0.b, s0.c) && Distinct(s0) && Still(net, s0) && net.queue.Keys == Sessions(s0)
    ensures Leads(s0, net, cycle, s0) && Exec({s0.a}, net, cycle) == net
    ensures forall p, n | Edge(s0, p, n) :: Receive(n, p) in cycle
  {
    hide Expect, AdsOf, Knows;
    var exits, s1 := {s0.a}, Turn(s0.a, s0.c, s0.b);
    var first := HalfTurn(s0, net);
    var between := Exec(exits, net, first);
    Mirrored(s1, between);
    var second := HalfTurn(s1, between);
    var end := Exec(exits, between, second);
    Mirrored(s0, end);
    RunsCompose(exits, net, first, second);
    cycle := first + second;
    SameNet(s0, net, end);
    forall p, n | Edge(s0, p, n) ensures Receive(n, p) in cycle {
      assert Reads(first, p, n);
    }
  }

  // ---- how it starts ------------------------------------------------------

  function Joined(net: Net, n: Node, p: Node, q: Node): Net {
    net.(ribs := net.ribs[n := map[Ula(p) := Entry(p, 1, None), Ula(q) := Entry(q, 1, None)]],
         reg := net.reg + {(n, p), (n, q)},
         up := net.up + {(n, p), (n, q)},
         owed := net.owed + multiset{(n, p), (n, p), (n, p), (n, q), (n, q), (n, q)})
  }

  lemma TwoEvents(exits: set<Node>, net: Net, e: Event, f: Event)
    requires !e.Receive? && !f.Receive? && Enabled(exits, net, e) && Enabled(exits, Step(net, e), f)
    ensures ValidRun(exits, net, [e, f]) && Exec(exits, net, [e, f]) == Step(Step(net, e), f)
  {
    hide Step, Enabled;
    assert [e, f][1..] == [f] && [f][1..] == [];
    assert ValidRun(exits, Step(net, e), [f]) && Exec(exits, Step(net, e), [f]) == Step(Step(net, e), f);
  }

  lemma Thrice(owed: multiset<Link>, x: Link, y: Link)
    ensures owed + (multiset{x} + multiset{x, y}) + (multiset{y} + multiset{x, y}) == owed + multiset{x, x, x, y, y, y}
    ensures owed + multiset{x} + multiset{x, y} + multiset{y} + multiset{x, y} == owed + multiset{x, x, x, y, y, y}
  {
  }

  lemma TwoUps(exits: set<Node>, net: Net, n: Node, p: Node, q: Node)
    requires p != q && n !in net.ribs && Out(net, n) == multiset{(n, p), (n, q)}
    requires {(n, p), (n, q)} <= net.reg && (n, p) !in net.up && (n, q) !in net.up
    ensures var up1 := Step(net, Up(n, p));
            && Enabled(exits, net, Up(n, p)) && Enabled(exits, up1, Up(n, q))
            && Step(up1, Up(n, q)) == Joined(net, n, p, q).(reg := net.reg)
  {
    var up1 := Step(net, Up(n, p));
    var up2 := Step(up1, Up(n, q));
    assert Out(up1, n) == Out(net, n);
    Thrice(net.owed, (n, p), (n, q));
    assert up2.ribs == Joined(net, n, p, q).ribs;
  }

  lemma ComesUp(exits: set<Node>, net: Net, n: Node, p: Node, q: Node) returns (run: seq<Event>)
    requires n != p && n != q && p != q && n !in net.ribs
    requires forall l | l in net.reg + net.up :: l.0 != n
    ensures ValidRun(exits, net, run) && Exec(exits, net, run) == Joined(net, n, p, q)
  {
    hide ValidRun, Exec;
    var net2 := net.(reg := net.reg + {(n, p), (n, q)});
    TwoEvents(exits, net, Register(n, p), Register(n, q));
    assert Exec(exits, net, [Register(n, p), Register(n, q)]) == net2;
    assert (set l | l in net2.reg && l.0 == n) == {(n, p), (n, q)};
    TwoUps(exits, net2, n, p, q);
    TwoEvents(exits, net2, Up(n, p), Up(n, q));
    run := [Register(n, p), Register(n, q)] + [Up(n, p), Up(n, q)];
    RunsCompose(exits, net, [Register(n, p), Register(n, q)], [Up(n, p), Up(n, q)]);
  }

  /** All sessions up, and no advertisement read or written yet. */
  function Blank(a: Node, b: Node, c: Node): Triangle {
    Triangle(a, b, c, None, None, None, [], [], [], [], [], [])
  }

  /** The run shows t, three advertisements are owed on each link of `owing`,
      and all other links have been written to. */
  ghost predicate Drawn(run: seq<Event>, t: Triangle, owing: set<Link>) {
    ValidRun({t.a}, Start, run) &&
    var net := Exec({t.a}, Start, run);
    Shows(net, t) && Owing(net, owing) && net.queue.Keys == Sessions(t) - owing
  }

  ghost predicate Owing(net: Net, owing: set<Link>) {
    forall l :: net.owed[l] == if l in owing then 3 else 0
  }

  lemma {:induction false} Opening(t: Triangle) returns (run: seq<Event>)
    requires t == Blank(t.a, t.b, t.c) && Distinct(t)
    ensures Drawn(run, t, Sessions(t))
  {
    hide ValidRun, Exec;
    var exits := {t.a};
    var runA := ComesUp(exits, Start, t.a, t.b, t.c);
    var netA := Exec(exits, Start, runA);
    var runB := ComesUp(exits, netA, t.b, t.a, t.c);
    var netB := Exec(exits, netA, runB);
    var runC := ComesUp(exits, netB, t.c, t.a, t.b);
    RunsCompose(exits, Start, runA, runB);
    RunsCompose(exits, Start, runA + runB, runC);
    run := runA + runB + runC;
    BlankShows(t);
    BlankOwes(t);
  }

  lemma BlankShows(t: Triangle)
    requires t == Blank(t.a, t.b, t.c) && Distinct(t)
    ensures var net := Joined(Joined(Joined(Start, t.a, t.b, t.c), t.b, t.a, t.c), t.c, t.a, t.b);
            Shows(net, t) && net.queue == map[]
  {
  }

  lemma BlankOwes(t: Triangle)
    requires Distinct(t)
    ensures Owing(Joined(Joined(Joined(Start, t.a, t.b, t.c), t.b, t.a, t.c), t.c, t.a, t.b), Sessions(t))
  {
  }

  /** n writes the three advertisements it owes. */
  lemma {:induction false} WritesThree(t: Triangle, net: Net, n: Node, to: Node) returns (run: seq<Event>)
    requires Shows(net, t) && Edge(t, n, to) && net.owed[(n, to)] == 3
    ensures ValidRun({t.a}, net, run)
    ensures var net' := Exec({t.a}, net, run);
            && Shows(net', Wrote(Wrote(Wrote(t, n, to), n, to), n, to))
            && net'.owed == net.owed[(n, to) := 0] && net'.queue.Keys == net.queue.Keys + {(n, to)}
  {
    hide Shows, Step, Wrote;
    var e1 := Write(t, net, n, to);
    WroteElsewhere(t, n, to);
    var t1 := Wrote(t, n, to);
    var e2 := Write(t1, Step(net, e1), n, to);
    WroteElsewhere(t1, n, to);
    var e3 := Write(Wrote(t1, n, to), Step(Step(net, e1), e2), n, to);
    run := [e1, e2, e3];
    ThreeEvents({t.a}, net, e1, e2, e3);
  }

  lemma {:induction false} ThenWrites(run: seq<Event>, t: Triangle, t': Triangle, owing: set<Link>, n: Node, to: Node)
    returns (longer: seq<Event>)
    requires Drawn(run, t, owing) && Edge(t, n, to) && (n, to) in owing
    requires Held(t, n).None? && Unread(t, n, to) == [] && t' == WithUnread(t, n, to, [None, None, None])
    ensures Drawn(longer, t', owing - {(n, to)})
  {
    hide ValidRun, Exec, Shows;
    var net := Exec({t.a}, Start, run);
    var more := WritesThree(t, net, n, to);
    assert t' == Wrote(Wrote(Wrote(t, n, to), n, to), n, to) by {
      hide Drawn;
      ThreeNones(t, n, to);
    }
    RunsCompose({t.a}, Start, run, more);
    longer := run + more;
  }

  lemma WroteNone(t: Triangle, n: Node, to: Node, q: seq<Option<int>>)
    requires Held(t, n).None?
    ensures Wrote(WithUnread(t, n, to, q), n, to) == WithUnread(t, n, to, q + [None])
  {
  }

  lemma ThreeNones(t: Triangle, n: Node, to: Node)
    requires Edge(t, n, to) && Held(t, n).None? && Unread(t, n, to) == []
    ensures Wrote(Wrote(Wrote(t, n, to), n, to), n, to) == WithUnread(t, n, to, [None, None, None])
  {
    assert WithUnread(t, n, to, []) == t;
    hide Wrote, WithUnread, Unread;
    WroteNone(t, n, to, []);
    WroteNone(t, n, to, [None]);
    WroteNone(t, n, to, [None, None]);
    var one: seq<Option<int>> := [None];
    assert [] + one == one && one + one == [None, None] && [None, None] + one == [None, None, None];
  }

  /** Everyone has written to everyone, and nobody has read. */
  lemma {:induction false} AllWritten(t: Triangle) returns (run: seq<Event>)
    requires t == Blank(t.a, t.b, t.c) && Distinct(t)
    ensures var three := [None, None, None];
            Drawn(run, Triangle(t.a, t.b, t.c, None, None, None, three, three, three, three, three, three), {})
  {
    hide Drawn;
    var a, b, c, three, s := t.a, t.b, t.c, [None, None, None], Sessions(t);
    run := Opening(t);
    var t1 := t.(ab := three);
    run := ThenWrites(run, t, t1, s, a, b);
    var t2 := t1.(ac := three);
    run := ThenWrites(run, t1, t2, s - {(a, b)}, a, c);
    var t3 := t2.(ba := three);
    run := ThenWrites(run, t2, t3, s - {(a, b)} - {(a, c)}, b, a);
    var t4 := t3.(bc := three);
    run := ThenWrites(run, t3, t4, s - {(a, b)} - {(a, c)} - {(b, a)}, b, c);
    var t5 := t4.(ca := three);
    run := ThenWrites(run, t4, t5, s - {(a, b)} - {(a, c)} - {(b, a)} - {(b, c)}, c, a);
    var t6 := t5.(cb := three);
    run := ThenWrites(run, t5, t6, s - {(a, b)} - {(a, c)} - {(b, a)} - {(b, c)} - {(c, a)}, c, b);
    assert s - {(a, b)} - {(a, c)} - {(b, a)} - {(b, c)} - {(c, a)} - {(c, b)} == {};
  }

  /** What p has written so far tells n nothing. */
  lemma {:induction false} IgnoreThree(s0: Triangle, net: Net, run: seq<Event>, s: Triangle, p: Node, n: Node)
    returns (longer: seq<Event>)
    requires SameNodes(s0, s) && Distinct(s) && Edge(s, p, n) && p != s.a && Leads(s0, net, run, s)
    requires Held(s, n).None? && Unread(s, p, n) == [None, None, None]
    ensures Leads(s0, net, longer, WithUnread(s, p, n, []))
  {
    hide Leads;
    var s1 := WithUnread(s, p, n, [None, None]);
    longer := Then(s0, net, run, s, s1, p, n);
    var s2 := WithUnread(s1, p, n, [None]);
    longer := Then(s0, net, longer, s1, s2, p, n);
    longer := Then(s0, net, longer, s2, WithUnread(s2, p, n, []), p, n);
  }

  /** Only the exit's own advertisements are left to read. */
  function Fresh(a: Node, b: Node, c: Node): Triangle {
    Triangle(a, b, c, None, None, None, [None, None, None], [None, None, None], [], [], [], [])
  }

  function FreshAfterFour(a: Node, b: Node, c: Node): Triangle {
    Triangle(a, b, c, None, Hop(a, 1), Hop(b, 2), [], [None, None, None], [None], [], [Some(2)], [None])
  }

  function FreshAfterSeven(a: Node, b: Node, c: Node): Triangle {
    Triangle(a, b, c, Hop(c, 3), Hop(a, 4), Hop(b, 5), [], [None, None, None, None], [None, None], [], [Some(5)], [None, None])
  }

  lemma {:induction false} FreshFour(s: Triangle, net: Net, first: seq<Event>) returns (run: seq<Event>)
    requires Distinct(s) && Leads(s, net, first, Fresh(s.a, s.b, s.c))
    ensures Leads(s, net, run, FreshAfterFour(s.a, s.b, s.c))
  {
    hide Still, Leads;
    var a, b, c := s.a, s.b, s.c;
    run := first;
    var s0 := Fresh(a, b, c);
    var s1 := s0.(eb := Hop(a, 1), ab := [None, None], ba := [None], bc := [Some(1)]);
    run := Then(s, net, run, s0, s1, a, b);
    var s2 := s1.(ab := [None]);
    run := Then(s, net, run, s1, s2, a, b);
    var s3 := s2.(ab := []);
    run := Then(s, net, run, s2, s3, a, b);
    var s4 := s3.(ec := Hop(b, 2), bc := [], ca := [Some(2)], cb := [None]);
    run := Then(s, net, run, s3, s4, b, c);
  }

  lemma {:induction false} FreshThree(s: Triangle, net: Net, first: seq<Event>) returns (run: seq<Event>)
    requires Distinct(s) && Leads(s, net, first, FreshAfterFour(s.a, s.b, s.c))
    ensures Leads(s, net, run, FreshAfterSeven(s.a, s.b, s.c))
  {
    hide Still, Leads;
    var a, b, c := s.a, s.b, s.c;
    run := first;
    var s4 := FreshAfterFour(a, b, c);
    var s5 := s4.(ea := Hop(c, 3), ab := [Some(3)], ac := [None, None, None, None], ca := []);
    run := Then(s, net, run, s4, s5, c, a);
    var s6 := s5.(eb := Hop(a, 4), ab := [], ba := [None, None], bc := [Some(4)]);
    run := Then(s, net, run, s5, s6, a, b);
    var s7 := s6.(ec := Hop(b, 5), bc := [], ca := [Some(5)], cb := [None, None]);
    run := Then(s, net, run, s6, s7, b, c);
  }

  lemma {:induction false} FreshRest(s: Triangle, net: Net, first: seq<Event>) returns (run: seq<Event>)
    requires Distinct(s) && Leads(s, net, first, FreshAfterSeven(s.a, s.b, s.c))
    ensures Leads(s, net, run, Turn(s.a, s.b, s.c))
  {
    hide Still, Leads;
    var a, b, c := s.a, s.b, s.c;
    run := first;
    var s7 := FreshAfterSeven(a, b, c);
    var s8 := s7.(ec := Hop(a, 1), ac := [None, None, None], ca := [Some(5), None], cb := [None, None, Some(1)]);
    run := Then(s, net, run, s7, s8, a, c);
    var s9 := s8.(ac := [None, None]);
    run := Then(s, net, run, s8, s9, a, c);
    var s10 := s9.(ac := [None]);
    run := Then(s, net, run, s9, s10, a, c);
    var s11 := s10.(ac := []);
    run := Then(s, net, run, s10, s11, a, c);
  }

  lemma {:induction false} FirstReads(s: Triangle, net: Net) returns (run: seq<Event>)
    requires Distinct(s) && Still(net, s)
    requires var three := [None, None, None]; s == Triangle(s.a, s.b, s.c, None, None, None, three, three, three, three, three, three)
    ensures Leads(s, net, run, Turn(s.a, s.b, s.c))
  {
    hide Still, Leads;
    var a, b, c := s.a, s.b, s.c;
    run := Nothing(s, net);
    run := IgnoreThree(s, net, run, s, b, a);
    run := IgnoreThree(s, net, run, s.(ba := []), b, c);
    run := IgnoreThree(s, net, run, s.(ba := [], bc := []), c, a);
    run := IgnoreThree(s, net, run, s.(ba := [], bc := [], ca := []), c, b);
    run := FreshFour(s, net, run);
    run := FreshThree(s, net, run);
    run := FreshRest(s, net, run);
  }

  // ---- the result ---------------------------------------------------------

  /** Three nodes a, b and c connect pairwise, and a alone is an exit. Then a
      run of nothing but reads and writes, reading every queue, can come back
      to where it began. */
  lemma {:induction false} TriggeredUpdatesRepeat(a: Node, b: Node, c: Node) returns (history: seq<Event>, cycle: seq<Event>)
    requires a != b && a != c && b != c
    ensures ValidRun({a}, Start, history) && HandshakesDone(Exec({a}, Start, history))
    ensures var net := Exec({a}, Start, history);
            && ValidRun({a}, net, cycle) && (forall e | e in cycle :: Triggered(e))
            && cycle != [] && (forall l | l in net.reg :: Receive(l.1, l.0) in cycle)
            && Exec({a}, net, cycle) == net
  {
    hide ValidRun, Exec, Triggered;
    var blank := Blank(a, b, c);
    var opening := AllWritten(blank);
    var three := [None, None, None];
    var s := Triangle(a, b, c, None, None, None, three, three, three, three, three, three);
    var net := Exec({a}, Start, opening);
    assert net.owed == multiset{};
    var heard := FirstReads(s, net);
    RunsCompose({a}, Start, opening, heard);
    history := opening + heard;
    var end := Exec({a}, Start, history);
    assert end.queue.Keys == Sessions(s);
    cycle := FullTurn(Turn(a, b, c), end);
    forall l | l in end.reg ensures Receive(l.1, l.0) in cycle {
      assert Edge(Turn(a, b, c), l.0, l.1);
    }
    assert (a, b) in end.reg;
  }

  lemma {:induction false} Repeated(exits: set<Node>, net: Net, cycle: seq<Event>, k: nat) returns (run: seq<Event>)
    requires ValidRun(exits, net, cycle) && Exec(exits, net, cycle) == net && cycle != [] && forall e | e in cycle :: Triggered(e)
    ensures ValidRun(exits, net, run) && (forall e | e in run :: Triggered(e)) && |run| >= k
  {
    hide Exec, ValidRun, Triggered;
    if k == 0 {
      run := cycle;
    } else {
      var shorter := Repeated(exits, net, cycle, k - 1);
      RunsCompose(exits, net, cycle, shorter);
      run := cycle + shorter;
    }
  }

  /** With one exit no bound holds: some state, with every handshake done,
      has triggered runs of every length. */
  lemma {:induction false} NoRankWithAnExit(a: Node, b: Node, c: Node, k: nat) returns (history: seq<Event>, run: seq<Event>)
    requires a != b && a != c && b != c
    ensures ValidRun({a}, Start, history) && HandshakesDone(Exec({a}, Start, history))
    ensures ValidRun({a}, Exec({a}, Start, history), run) && (forall e | e in run :: Triggered(e)) && |run| >= k
  {
    hide ValidRun, Exec, Triggered;
    var cycle;
    history, cycle := TriggeredUpdatesRepeat(a, b, c);
    run := Repeated({a}, Exec({a}, Start, history), cycle, k);
  }
}
