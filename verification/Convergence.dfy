// What the invariant of Mesh buys: loop freedom, exact metrics at quiescence,
// and an end to triggered advertisement.
module Convergence {
  import opened Base
  import opened Rib
  import opened Distance
  import opened Mesh
  import opened MeshInvariant

  // ---- loop freedom -------------------------------------------------------

  /** With advertisements still in flight, every route leads to a session peer
      strictly closer to the destination, by the peer's own table. */
  lemma NextHopIsCloser(exits: set<Node>, run: seq<Event>, n: Node, x: Node)
    requires ValidRun(exits, Start, run)
    ensures var net := Exec(exits, Start, run);
            Ula(x) in RibOf(net, n) ==>
              var e := RibOf(net, n)[Ula(x)];
              n != x && (n, e.next) in net.reg && M(net, e.next, x) < e.metric < ROUTE_INFINITY && e.stale.None?
  {
    StartInv();
    RunKeepsInv(exits, Start, run);
    if Ula(x) in RibOf(Exec(exits, Start, run), n) {
      CloserByInv(Exec(exits, Start, run), n, x);
    }
  }

  lemma CloserByInv(net: Net, n: Node, x: Node)
    requires Inv(net) && Ula(x) in RibOf(net, n)
    ensures var e := RibOf(net, n)[Ula(x)];
            n != x && (n, e.next) in net.reg && 0 <= M(net, e.next, x) < e.metric < ROUTE_INFINITY && e.stale.None?
  {
    var e := RibOf(net, n)[Ula(x)];
    assert EntryInv(net, n, x) && EntryInv(net, e.next, x);
    assert LinkInv(net, e.next, n, x);
  }

  /** The nodes visited by following next hops from n towards x. */
  ghost function Chain(net: Net, n: Node, x: Node): seq<Node>
    requires Inv(net) && (n == x || Ula(x) in RibOf(net, n))
    decreases M(net, n, x)
  {
    if n == x then [n]
    else
      CloserByInv(net, n, x);
      [n] + Chain(net, RibOf(net, n)[Ula(x)].next, x)
  }

  /** Next-hop chains follow sessions, end at the owner within `metric` hops,
      and visit no node twice: metrics fall strictly along them. */
  lemma {:induction false} ChainReachesOwner(net: Net, n: Node, x: Node)
    requires Inv(net) && (n == x || Ula(x) in RibOf(net, n))
    ensures var c := Chain(net, n, x);
            && c[0] == n && c[|c| - 1] == x && |c| <= M(net, n, x) + 1
            && (forall i | 0 <= i < |c| - 1 :: (c[i], c[i + 1]) in net.reg)
            && (forall i, j | 0 <= i < j < |c| :: M(net, c[j], x) < M(net, c[i], x))
    decreases M(net, n, x)
  {
    if n != x {
      CloserByInv(net, n, x);
      ChainReachesOwner(net, RibOf(net, n)[Ula(x)].next, x);
    }
  }

  /** In an up-only run no event deletes a route, marks it or raises its metric. */
  lemma RoutesOnlyImprove(exits: set<Node>, net: Net, e: Event, n: Node, x: Node)
    requires Inv(net) && Enabled(exits, net, e) && Ula(x) in RibOf(net, n)
    ensures Ula(x) in RibOf(Step(net, e), n)
    ensures RibOf(Step(net, e), n)[Ula(x)].metric <= RibOf(net, n)[Ula(x)].metric
    ensures RibOf(Step(net, e), n)[Ula(x)].stale.None?
  {
    assert EntryInv(net, n, x);
    match e
    case Up(a, p) => UpEffect(net, a, p, x);
    case Receive(a, p) => ReceiveEffect(net, a, p, x);
    case _ =>
  }

  // ---- no metric is below the distance ------------------------------------

  ghost predicate GroundedAt(net: Net, n: Node, x: Node) {
    M(net, n, x) < ROUTE_INFINITY ==> Within(net.reg, M(net, n, x), n, x)
  }

  ghost predicate GroundedIn(links: set<Link>, p: Node, q: seq<Ad>, x: Node) {
    forall i | 0 <= i < |q| :: Listed(q[i], Ula(x)).Some? ==> Within(links, Listed(q[i], Ula(x)).value, p, x)
  }

  ghost predicate Grounded(net: Net) {
    && (forall n, x :: GroundedAt(net, n, x))
    && (forall p, n, x :: GroundedIn(net.reg, p, Chan(net, p, n), x))
  }

  lemma ReceiveGrounded(net: Net, n: Node, p: Node)
    requires Inv(net) && Grounded(net) && (n, p) in net.reg && Chan(net, p, n) != []
    ensures Grounded(Step(net, Receive(n, p)))
  {
    var net' := Step(net, Receive(n, p));
    forall a, x ensures GroundedAt(net', a, x) {
      ReceiveEffect(net, n, p, x);
      assert GroundedAt(net, a, x) && GroundedIn(net.reg, p, Chan(net, p, n), x);
      var l := Listed(Chan(net, p, n)[0], Ula(x));
      if l.Some? {
        WithinStep(net.reg, l.value, n, p, x);
      }
    }
    forall a, b, x ensures GroundedIn(net'.reg, a, Chan(net', a, b), x) {
      assert GroundedIn(net.reg, a, Chan(net, a, b), x);
    }
  }

  lemma UpGrounded(net: Net, n: Node, p: Node)
    requires Inv(net) && Grounded(net) && (n, p) in net.reg
    ensures Grounded(Step(net, Up(n, p)))
  {
    var net' := Step(net, Up(n, p));
    forall a, x ensures GroundedAt(net', a, x) {
      UpEffect(net, n, p, x);
      assert GroundedAt(net, a, x);
      WithinStep(net.reg, 0, n, p, p);
    }
    forall a, b, x ensures GroundedIn(net'.reg, a, Chan(net', a, b), x) {
      assert GroundedIn(net.reg, a, Chan(net, a, b), x);
    }
  }

  lemma SendGrounded(exits: set<Node>, net: Net, n: Node, p: Node, ad: Ad)
    requires Inv(net) && Grounded(net) && Enabled(exits, net, Send(n, p, ad))
    ensures Grounded(Step(net, Send(n, p, ad)))
  {
    var net' := Step(net, Send(n, p, ad));
    SentAd(exits, net, n, p, ad);
    forall a, x ensures GroundedAt(net', a, x) {
      assert GroundedAt(net, a, x);
    }
    forall a, b, x ensures GroundedIn(net'.reg, a, Chan(net', a, b), x) {
      assert GroundedIn(net.reg, a, Chan(net, a, b), x) && GroundedAt(net, n, x);
      assert Listed(ad, Ula(x)) == Shown(net, n, p, x);
    }
  }

  lemma QuietGrounded(net: Net, e: Event)
    requires Inv(net) && Grounded(net) && (e.Register? || e.ExpireStale? || e.Refresh? || e.Tick?)
    ensures Grounded(Step(net, e))
  {
    var net' := Step(net, e);
    forall a, x ensures GroundedAt(net', a, x) {
      assert GroundedAt(net, a, x) && EntryInv(net, a, x);
      if M(net, a, x) < ROUTE_INFINITY {
        WithinMonotone(net.reg, net'.reg, M(net, a, x), M(net, a, x), a, x);
      }
    }
    forall a, b, x ensures GroundedIn(net'.reg, a, Chan(net', a, b), x) {
      assert GroundedIn(net.reg, a, Chan(net, a, b), x);
      forall i | 0 <= i < |Chan(net', a, b)| && Listed(Chan(net', a, b)[i], Ula(x)).Some?
        ensures Within(net'.reg, Listed(Chan(net', a, b)[i], Ula(x)).value, a, x)
      {
        var m := Listed(Chan(net, a, b)[i], Ula(x)).value;
        WithinMonotone(net.reg, net'.reg, m, m, a, x);
      }
    }
  }

  lemma {:induction false} RunKeepsGrounded(exits: set<Node>, net: Net, run: seq<Event>)
    requires Inv(net) && Grounded(net) && ValidRun(exits, net, run)
    ensures Inv(Exec(exits, net, run)) && Grounded(Exec(exits, net, run))
    decreases |run|
  {
    if run != [] {
      match run[0] {
        case Up(n, p) => UpGrounded(net, n, p);
        case Send(n, p, ad) => SendGrounded(exits, net, n, p, ad);
        case Receive(n, p) => ReceiveGrounded(net, n, p);
        case _ => QuietGrounded(net, run[0]);
      }
      StepKeepsInv(exits, net, run[0]);
      RunKeepsGrounded(exits, Step(net, run[0]), run[1..]);
    }
  }

  // ---- exactness ----------------------------------------------------------

  /** Every handshake is complete at both ends and no advertisement is owed or
      in flight. */
  ghost predicate Quiescent(net: Net) {
    && net.up == net.reg && Symmetric(net.reg)
    && net.owed == multiset{}
    && forall p, n :: Chan(net, p, n) == []
  }

  lemma {:induction false} MetricAtMost(net: Net, k: int, n: Node, x: Node)
    requires Inv(net) && Quiescent(net) && Within(net.reg, k, n, x) && k < ROUTE_INFINITY
    ensures M(net, n, x) <= k
    decreases k
  {
    if n != x {
      var p :| (n, p) in net.reg && Within(net.reg, k - 1, p, x);
      MetricAtMost(net, k - 1, p, x);
      assert SettledInv(net, p, n, x) && Chan(net, p, n) == [] && (p, n) in net.up;
      assert LinkInv(net, p, n, x);
      assert EntryInv(net, n, x);
    }
  }

  /** At quiescence a metric is the true hop distance wherever that is below
      infinity, and there is no entry otherwise. */
  ghost predicate Exact(net: Net) {
    && (forall n, x, k | 0 <= k < 16 :: M(net, n, x) == k <==> Distant(net.reg, k, n, x))
    && (forall n, x | n != x :: Ula(x) in RibOf(net, n) <==> Within(net.reg, 15, n, x))
  }

  lemma QuiescentIsExact(exits: set<Node>, run: seq<Event>)
    requires ValidRun(exits, Start, run) && Quiescent(Exec(exits, Start, run))
    ensures Exact(Exec(exits, Start, run))
  {
    var net := Exec(exits, Start, run);
    StartInv();
    assert Grounded(Start) by {
      assert forall n, x :: GroundedAt(Start, n, x);
    }
    RunKeepsGrounded(exits, Start, run);
    forall n, x, k | 0 <= k < ROUTE_INFINITY
      ensures M(net, n, x) == k <==> Distant(net.reg, k, n, x)
    {
      ExactAt(net, n, x, k);
    }
    forall n, x | n != x
      ensures Ula(x) in RibOf(net, n) <==> Within(net.reg, ROUTE_INFINITY - 1, n, x)
    {
      assert EntryInv(net, n, x) && GroundedAt(net, n, x);
      if Ula(x) in RibOf(net, n) {
        WithinMonotone(net.reg, net.reg, M(net, n, x), ROUTE_INFINITY - 1, n, x);
      } else if Within(net.reg, ROUTE_INFINITY - 1, n, x) {
        MetricAtMost(net, ROUTE_INFINITY - 1, n, x);
      }
    }
  }

  lemma ExactAt(net: Net, n: Node, x: Node, k: int)
    requires Inv(net) && Grounded(net) && Quiescent(net) && 0 <= k < ROUTE_INFINITY
    ensures M(net, n, x) == k <==> Distant(net.reg, k, n, x)
  {
    assert GroundedAt(net, n, x) && EntryInv(net, n, x);
    if M(net, n, x) == k {
      if Within(net.reg, k - 1, n, x) {
        MetricAtMost(net, k - 1, n, x);
      }
    } else if Distant(net.reg, k, n, x) {
      MetricAtMost(net, k, n, x);
      WithinMonotone(net.reg, net.reg, M(net, n, x), k - 1, n, x);
    }
  }
}
