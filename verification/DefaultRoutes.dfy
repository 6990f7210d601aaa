// The default routes of the mesh, in runs whose advertisements never list a
// sentinel twice: every exit counts as an owner, at metric 0 for all others.
module DefaultRoutes {
  import opened Base
  import opened Rib
  import opened Distance
  import opened Mesh
  import opened MeshInvariant
  import Convergence

  predicate SingleListed(e: Event) {
    e.Send? ==> forall i, j | 0 <= i < j < |e.ad| :: !(e.ad[i].dest == e.ad[j].dest && e.ad[i].dest in {Some(DefaultV6), Some(DefaultV4)})
  }

  /** What n counts for on the way to d: 0 at an exit, whatever route of its
      own the exit may hold. */
  function D(exits: set<Node>, net: Net, n: Node, d: Dest): int {
    if n in exits then 0
    else if d in RibOf(net, n) then RibOf(net, n)[d].metric
    else ROUTE_INFINITY
  }

  predicate UsesD(exits: set<Node>, net: Net, n: Node, d: Dest, p: Node) {
    n !in exits && Via(Lookup(RibOf(net, n), d), p)
  }

  function ListingsD(q: seq<Ad>, d: Dest): seq<Option<int>> {
    seq(|q|, i requires 0 <= i < |q| => Listed(q[i], d))
  }

  function ShownD(exits: set<Node>, net: Net, n: Node, p: Node, d: Dest): Option<int> {
    if D(exits, net, n, d) < ROUTE_INFINITY && !UsesD(exits, net, n, d, p) then Some(D(exits, net, n, d)) else None
  }

  ghost predicate LinkD(exits: set<Node>, net: Net, p: Node, n: Node, d: Dest) {
    LinkOk(D(exits, net, n, d), UsesD(exits, net, n, d, p), D(exits, net, p, d), UsesD(exits, net, p, d, n), ListingsD(Chan(net, p, n), d))
  }

  ghost predicate SettledD(exits: set<Node>, net: Net, p: Node, n: Node, d: Dest) {
    (p, n) in net.up && net.owed[(p, n)] == 0 ==>
      Settled(D(exits, net, n, d), D(exits, net, p, d), ShownD(exits, net, p, n, d), ListingsD(Chan(net, p, n), d))
  }

  /** Only an exit's own route to a default may carry a mark, and only one
      hop to another exit is certain. */
  ghost predicate EntryD(exits: set<Node>, net: Net, n: Node, d: Dest) {
    d in RibOf(net, n) ==>
      var e := RibOf(net, n)[d];
      && 1 <= e.metric < ROUTE_INFINITY && (n, e.next) in net.reg && e.next != n
      && (n !in exits ==> e.stale.None?)
      && (e.next in exits ==> e.metric == 1 && e.stale.None?) && (n in exits && e.next !in exits ==> e.metric >= 2)
  }

  ghost predicate ListingD(exits: set<Node>, p: Node, ad: Ad, d: Dest) {
    && Once(ad, d)
    && (Listed(ad, d).Some? ==> 0 <= Listed(ad, d).value < ROUTE_INFINITY)
    && (Listed(ad, d) == Some(0) <==> p in exits)
  }

  ghost predicate ChanD(exits: set<Node>, p: Node, q: seq<Ad>, d: Dest) {
    forall i | 0 <= i < |q| :: ListingD(exits, p, q[i], d)
  }

  ghost predicate InvD(exits: set<Node>, net: Net, d: Dest) {
    && !d.Ula?
    && (forall n :: EntryD(exits, net, n, d))
    && (forall p, n :: ChanD(exits, p, Chan(net, p, n), d))
    && (forall p, n :: LinkD(exits, net, p, n, d))
    && (forall p, n :: SettledD(exits, net, p, n, d))
  }

  // ---- the inductive step -------------------------------------------------

  lemma ReceiveEffectD(exits: set<Node>, net: Net, n: Node, p: Node, d: Dest)
    requires Inv(net) && InvD(exits, net, d) && (n, p) in net.reg && Chan(net, p, n) != []
    ensures var net' := Step(net, Receive(n, p));
            var a := Listed(Chan(net, p, n)[0], d);
            && EntryD(exits, net', n, d)
            && Lookup(RibOf(net', n), d) == Update(Lookup(RibOf(net, n), d), p, a, net.now)
            && (|| (D(exits, net', n, d) == D(exits, net, n, d) && forall q :: UsesD(exits, net', n, d, q) == UsesD(exits, net, n, d, q))
                || (a.Some? && D(exits, net', n, d) == a.value + 1 < D(exits, net, n, d)
                    && forall q :: UsesD(exits, net', n, d, q) == (q == p)))
            && (a.Some? && a.value + 1 < ROUTE_INFINITY ==> D(exits, net', n, d) <= a.value + 1)
  {
    ReceivedAtD(exits, net, n, p, d);
    hide LinkInv, SettledInv, SettledD, Changed, HandleRoutes, EntryInv, ChanInv, Once;
    var ad := Chan(net, p, n)[0];
    assert EntryD(exits, net, n, d) && ChanD(exits, p, Chan(net, p, n), d) && ListingD(exits, p, ad, d);
    assert LinkD(exits, net, p, n, d);
    assert ListingsD(Chan(net, p, n), d)[0] == Listed(ad, d);
  }

  lemma ReceivedAtD(exits: set<Node>, net: Net, n: Node, p: Node, d: Dest)
    requires Inv(net) && InvD(exits, net, d) && (n, p) in net.reg && Chan(net, p, n) != []
    ensures Lookup(RibOf(Step(net, Receive(n, p)), n), d)
            == Update(Lookup(RibOf(net, n), d), p, Listed(Chan(net, p, n)[0], d), net.now)
  {
    hide LinkInv, SettledInv, SettledD, LinkD, EntryD, EntryInv, Changed, HandleRoutes, Update;
    var ad := Chan(net, p, n)[0];
    assert ChanD(exits, p, Chan(net, p, n), d) && ListingD(exits, p, ad, d);
    HandleRoutesAt(RibOf(net, n), n, p, ad, net.now, d);
  }

  lemma ListingsTailD(net: Net, n: Node, p: Node, d: Dest)
    requires Chan(net, p, n) != []
    ensures var q := ListingsD(Chan(net, p, n), d);
            && q[0] == Listed(Chan(net, p, n)[0], d)
            && ListingsD(Chan(net, p, n)[1..], d) == q[1..]
  {
  }

  lemma ReceiveFrameD(exits: set<Node>, net: Net, n: Node, p: Node, a: Node, b: Node, d: Dest)
    requires Chan(net, p, n) != []
    ensures var net' := Step(net, Receive(n, p));
            && (a != n ==> D(exits, net', a, d) == D(exits, net, a, d) && UsesD(exits, net', a, d, b) == UsesD(exits, net, a, d, b))
            && Chan(net', a, b) == if (a, b) == (p, n) then Chan(net, p, n)[1..] else Chan(net, a, b)
  {
  }

  lemma NoSelfLinkD(exits: set<Node>, net: Net, n: Node, d: Dest)
    requires InvD(exits, net, d)
    ensures !UsesD(exits, net, n, d, n)
  {
    assert EntryD(exits, net, n, d);
  }

  lemma ReceiveLinkD(exits: set<Node>, net: Net, n: Node, p: Node, p': Node, n': Node, d: Dest)
    requires Inv(net) && InvD(exits, net, d) && (n, p) in net.reg && Chan(net, p, n) != []
    ensures LinkD(exits, Step(net, Receive(n, p)), p', n', d)
  {
    var net' := Step(net, Receive(n, p));
    ReceiveEffectD(exits, net, n, p, d);
    ListingsTailD(net, n, p, d);
    ReceiveFrameD(exits, net, n, p, p', n', d);
    ReceiveFrameD(exits, net, n, p, n', p', d);
    NoSelfLinkD(exits, net, n, d);
    assert LinkD(exits, net, p', n', d) && LinkD(exits, net, n', p', d) && EntryD(exits, net, n', d) && EntryD(exits, net, p', d);
    hide Step, D, UsesD, InvD, EntryD, Inv;
    var mn, nv, mp, pv := D(exits, net, n', d), UsesD(exits, net, n', d, p'), D(exits, net, p', d), UsesD(exits, net, p', d, n');
    var mn', nv', mp', pv' := D(exits, net', n', d), UsesD(exits, net', n', d, p'), D(exits, net', p', d), UsesD(exits, net', p', d, n');
    if (p', n') == (p, n) {
      LinkReads(mn, nv, mp, pv, ListingsD(Chan(net, p', n'), d), mn', nv');
    } else {
      LinkFalls(mn, nv, mp, pv, ListingsD(Chan(net, p', n'), d), mn', nv', mp', pv');
    }
  }

  lemma ReceiveSettledD(exits: set<Node>, net: Net, n: Node, p: Node, p': Node, n': Node, d: Dest)
    requires Inv(net) && InvD(exits, net, d) && (n, p) in net.reg && Chan(net, p, n) != []
    ensures SettledD(exits, Step(net, Receive(n, p)), p', n', d)
  {
    hide LinkInv, SettledInv, LinkOk, LinkD, EntryD, HandleRoutes, ListingD, Update;
    var net' := Step(net, Receive(n, p));
    OutAt(net, n, (p', n'));
    if (p', n') in net'.up && net'.owed[(p', n')] == 0 {
      assert SettledD(exits, net, p', n', d);
      ReceiveEffectD(exits, net, n, p, d);
      ListingsTailD(net, n, p, d);
      ReceiveFrameD(exits, net, n, p, p', n', d);
      ReceiveFrameD(exits, net, n, p, n', p', d);
      if p' == n {
        var ad := Chan(net, p, n)[0];
        assert !Changed(RibOf(net, n), n, p, ad, net.now);
        UnchangedKeepsRoutes(RibOf(net, n), n, p, ad, net.now, d);
      }
    }
  }

  lemma ReceiveKeepsInvD(exits: set<Node>, net: Net, n: Node, p: Node, d: Dest)
    requires Inv(net) && InvD(exits, net, d) && (n, p) in net.reg && Chan(net, p, n) != []
    ensures InvD(exits, Step(net, Receive(n, p)), d)
  {
    var net' := Step(net, Receive(n, p));
    ReceiveEffectD(exits, net, n, p, d);
    forall a ensures EntryD(exits, net', a, d) {
      assert EntryD(exits, net, a, d);
    }
    forall a, b ensures LinkD(exits, net', a, b, d) && SettledD(exits, net', a, b, d) && ChanD(exits, a, Chan(net', a, b), d) {
      ReceiveLinkD(exits, net, n, p, a, b, d);
      ReceiveSettledD(exits, net, n, p, a, b, d);
      assert ChanD(exits, a, Chan(net, a, b), d);
    }
  }

  /** What a singly listed advertisement says of a default. */
  lemma AdvertisedDefault(exits: set<Node>, net: Net, n: Node, p: Node, ad: Ad, d: Dest)
    requires InvD(exits, net, d) && Advertises(n, n in exits, RibOf(net, n), p, ad) && Once(ad, d)
    ensures ListingD(exits, n, ad, d) && Listed(ad, d) == ShownD(exits, net, n, p, d)
  {
    var h := OwnRoutes(n, n in exits);
    var rib := RibOf(net, n);
    assert EntryD(exits, net, n, d);
    assert forall i | 0 <= i < |h| :: ad[i] == h[i];
    if n in exits {
      ListedAt(ad, d, if d == DefaultV6 then 1 else 2);
    } else if Exported(rib, p, d) {
      var i :| |h| <= i < |ad| && ad[i].dest == Some(d);
      ListedAt(ad, d, i);
      assert n !in exits && rib[d].metric >= 1;
    } else {
      ListedIffPresent(ad, d);
    }
  }

  /** What a step leaves alone stays in order. */
  lemma FrameKeepsD(exits: set<Node>, net: Net, net': Net, a: Node, b: Node, d: Dest)
    requires InvD(exits, net, d) && net'.owed[(a, b)] >= net.owed[(a, b)]
    requires (a, b) in net'.up && (a, b) !in net.up ==> net'.owed[(a, b)] > 0
    requires Chan(net', a, b) == Chan(net, a, b)
    requires D(exits, net', a, d) == D(exits, net, a, d) && D(exits, net', b, d) == D(exits, net, b, d)
    requires UsesD(exits, net', a, d, b) == UsesD(exits, net, a, d, b) && UsesD(exits, net', b, d, a) == UsesD(exits, net, b, d, a)
    ensures LinkD(exits, net', a, b, d) && SettledD(exits, net', a, b, d) && ChanD(exits, a, Chan(net', a, b), d)
  {
    hide D, UsesD;
    assert LinkD(exits, net, a, b, d) && SettledD(exits, net, a, b, d) && ChanD(exits, a, Chan(net, a, b), d);
  }

  lemma SendKeepsInvD(exits: set<Node>, net: Net, n: Node, p: Node, ad: Ad, d: Dest)
    requires Inv(net) && InvD(exits, net, d) && Enabled(exits, net, Send(n, p, ad)) && Once(ad, d)
    ensures InvD(exits, Step(net, Send(n, p, ad)), d)
  {
    var net' := Step(net, Send(n, p, ad));
    AdvertisedDefault(exits, net, n, p, ad, d);
    hide Advertises;
    forall a ensures EntryD(exits, net', a, d) {
      assert EntryD(exits, net, a, d);
    }
    assert Chan(net', n, p) == Chan(net, n, p) + [ad];
    forall a, b ensures LinkD(exits, net', a, b, d) && SettledD(exits, net', a, b, d) && ChanD(exits, a, Chan(net', a, b), d) {
      if (a, b) == (n, p) {
        SendLinkD(exits, net, n, p, ad, d);
      } else {
        FrameKeepsD(exits, net, net', a, b, d);
      }
    }
  }

  lemma SendLinkD(exits: set<Node>, net: Net, n: Node, p: Node, ad: Ad, d: Dest)
    requires InvD(exits, net, d) && net.owed[(n, p)] > 0
    requires ListingD(exits, n, ad, d) && Listed(ad, d) == ShownD(exits, net, n, p, d)
    ensures var net' := Step(net, Send(n, p, ad));
            LinkD(exits, net', n, p, d) && SettledD(exits, net', n, p, d) && ChanD(exits, n, Chan(net', n, p), d)
  {
    var net' := Step(net, Send(n, p, ad));
    var q := ListingsD(Chan(net, n, p), d);
    assert LinkD(exits, net, n, p, d) && ChanD(exits, n, Chan(net, n, p), d) && EntryD(exits, net, n, d) && EntryD(exits, net, p, d);
    assert Chan(net', n, p) == Chan(net, n, p) + [ad];
    assert ListingsD(Chan(net', n, p), d) == q + [Listed(ad, d)];
    forall i | 0 <= i < |q| && q[i].Some? ensures q[i].value < ROUTE_INFINITY {
      assert ListingD(exits, n, Chan(net, n, p)[i], d);
    }
    LinkWrites(D(exits, net, p, d), UsesD(exits, net, p, d, n), D(exits, net, n, d), UsesD(exits, net, n, d, p), q, ShownD(exits, net, n, p, d));
    assert D(exits, net', p, d) == D(exits, net, p, d) && D(exits, net', n, d) == D(exits, net, n, d);
    assert UsesD(exits, net', p, d, n) == UsesD(exits, net, p, d, n) && UsesD(exits, net', n, d, p) == UsesD(exits, net, n, d, p);
  }

  /** Session events, expiry, refresh and the clock leave what others see of a
      default alone. */
  lemma OtherEntryD(exits: set<Node>, net: Net, e: Event, a: Node, d: Dest)
    requires InvD(exits, net, d) && Enabled(exits, net, e) && !e.Send? && !e.Receive?
    ensures EntryD(exits, Step(net, e), a, d) && D(exits, Step(net, e), a, d) == D(exits, net, a, d)
    ensures forall q :: UsesD(exits, Step(net, e), a, d, q) == UsesD(exits, net, a, d, q)
  {
    hide LinkD, SettledD, ChanD, HandleRoutes, Changed, Advertises, Out;
    assert EntryD(exits, net, a, d);
    var net' := Step(net, e);
    assert Lookup(RibOf(net', a), d) == Lookup(RibOf(net, a), d)
        || (e.ExpireStale? && a == e.n && a in exits && Lookup(RibOf(net', a), d).None?);
  }

  lemma OtherKeepsInvD(exits: set<Node>, net: Net, e: Event, d: Dest)
    requires Inv(net) && InvD(exits, net, d) && Enabled(exits, net, e) && !e.Send? && !e.Receive?
    ensures InvD(exits, Step(net, e), d)
  {
    hide LinkInv, SettledInv, LinkD, SettledD, ChanD, HandleRoutes, Advertises, EntryD, D, UsesD, Inv;
    var net' := Step(net, e);
    forall a ensures EntryD(exits, net', a, d)
                     && D(exits, net', a, d) == D(exits, net, a, d) && forall q :: UsesD(exits, net', a, d, q) == UsesD(exits, net, a, d, q)
    {
      OtherEntryD(exits, net, e, a, d);
    }
    forall a, b ensures LinkD(exits, net', a, b, d) && SettledD(exits, net', a, b, d) && ChanD(exits, a, Chan(net', a, b), d) {
      FrameKeepsD(exits, net, net', a, b, d);
    }
  }

  lemma StepKeepsInvD(exits: set<Node>, net: Net, e: Event, d: Dest)
    requires Inv(net) && InvD(exits, net, d) && Enabled(exits, net, e) && SingleListed(e)
    ensures InvD(exits, Step(net, e), d)
  {
    match e
    case Send(n, p, ad) =>
      assert d in {DefaultV6, DefaultV4};
      SendKeepsInvD(exits, net, n, p, ad, d);
    case Receive(n, p) => ReceiveKeepsInvD(exits, net, n, p, d);
    case _ => OtherKeepsInvD(exits, net, e, d);
  }

  lemma StartInvD(exits: set<Node>, d: Dest)
    requires !d.Ula?
    ensures InvD(exits, Start, d)
  {
  }

  lemma {:induction false} RunKeepsInvD(exits: set<Node>, net: Net, run: seq<Event>, d: Dest)
    requires Inv(net) && InvD(exits, net, d) && ValidRun(exits, net, run) && forall e | e in run :: SingleListed(e)
    ensures InvD(exits, Exec(exits, net, run), d)
    decreases |run|
  {
    hide Inv, InvD, SingleListed, Step;
    if run != [] {
      assert run[0] in run;
      StepKeepsInvD(exits, net, run[0], d);
      StepKeepsInv(exits, net, run[0]);
      RunKeepsInvD(exits, Step(net, run[0]), run[1..], d);
    }
  }

  // ---- exactness ----------------------------------------------------------

  /** Some exit is at most k hops from n. */
  ghost predicate ExitWithin(exits: set<Node>, links: set<Link>, k: int, n: Node) {
    exists x :: x in exits && Within(links, k, n, x)
  }

  ghost predicate GroundedD(exits: set<Node>, net: Net, n: Node, d: Dest) {
    D(exits, net, n, d) < ROUTE_INFINITY ==> ExitWithin(exits, net.reg, D(exits, net, n, d), n)
  }

  ghost predicate GroundedIn(exits: set<Node>, links: set<Link>, p: Node, q: seq<Ad>, d: Dest) {
    forall i | 0 <= i < |q| :: Listed(q[i], d).Some? ==> ExitWithin(exits, links, Listed(q[i], d).value, p)
  }

  ghost predicate AllGrounded(exits: set<Node>, net: Net, d: Dest) {
    && (forall n :: GroundedD(exits, net, n, d))
    && (forall p, n :: GroundedIn(exits, net.reg, p, Chan(net, p, n), d))
  }

  lemma ExitOneFurther(exits: set<Node>, links: set<Link>, k: int, n: Node, p: Node)
    requires (n, p) in links && ExitWithin(exits, links, k, p)
    ensures ExitWithin(exits, links, k + 1, n)
  {
    var x :| x in exits && Within(links, k, p, x);
    WithinStep(links, k, n, p, x);
  }

  lemma ExitStaysWithin(exits: set<Node>, links: set<Link>, links': set<Link>, k: int, k': int, n: Node)
    requires links <= links' && k <= k' && ExitWithin(exits, links, k, n)
    ensures ExitWithin(exits, links', k', n)
  {
    var x :| x in exits && Within(links, k, n, x);
    WithinMonotone(links, links', k, k', n, x);
  }

  lemma StepKeepsGrounded(exits: set<Node>, net: Net, e: Event, d: Dest)
    requires Inv(net) && InvD(exits, net, d) && AllGrounded(exits, net, d) && Enabled(exits, net, e) && SingleListed(e)
    ensures AllGrounded(exits, Step(net, e), d)
  {
    hide Inv, LinkD, SettledD, ExitWithin, HandleRoutes, InstallPeer, Changed, Advertises;
    var net' := Step(net, e);
    assert net.reg <= net'.reg;
    if e.Send? {
      assert d in {DefaultV6, DefaultV4};
      AdvertisedDefault(exits, net, e.n, e.p, e.ad, d);
    }
    forall a ensures GroundedD(exits, net', a, d) {
      assert GroundedD(exits, net, a, d);
      MetricMoves(exits, net, e, a, d);
      if e.Receive? && e.n == a && D(exits, net', a, d) < D(exits, net, a, d) {
        assert GroundedIn(exits, net.reg, e.p, Chan(net, e.p, a), d);
        ExitOneFurther(exits, net.reg, Listed(Chan(net, e.p, a)[0], d).value, a, e.p);
      } else if D(exits, net, a, d) < ROUTE_INFINITY {
        ExitStaysWithin(exits, net.reg, net'.reg, D(exits, net, a, d), D(exits, net, a, d), a);
      }
    }
    forall p, n ensures GroundedIn(exits, net'.reg, p, Chan(net', p, n), d) {
      assert GroundedIn(exits, net.reg, p, Chan(net, p, n), d) && GroundedD(exits, net, p, d);
      forall i | 0 <= i < |Chan(net', p, n)| && Listed(Chan(net', p, n)[i], d).Some?
        ensures ExitWithin(exits, net'.reg, Listed(Chan(net', p, n)[i], d).value, p)
      {
        var v := Listed(Chan(net', p, n)[i], d).value;
        assert ExitWithin(exits, net.reg, v, p);
        ExitStaysWithin(exits, net.reg, net'.reg, v, v, p);
      }
    }
  }

  /** Only a reading changes what a node counts for, and only downwards. */
  lemma MetricMoves(exits: set<Node>, net: Net, e: Event, a: Node, d: Dest)
    requires Inv(net) && InvD(exits, net, d) && Enabled(exits, net, e)
    ensures D(exits, Step(net, e), a, d) <= D(exits, net, a, d)
    ensures D(exits, Step(net, e), a, d) < D(exits, net, a, d) ==>
              && e.Receive? && e.n == a && var l := Listed(Chan(net, e.p, a)[0], d); l.Some? && D(exits, Step(net, e), a, d) == l.value + 1
  {
    hide Inv, LinkD, SettledD;
    assert EntryD(exits, net, a, d);
    if e.Receive? {
      ReceiveEffectD(exits, net, e.n, e.p, d);
    }
  }

  lemma {:induction false} RunKeepsGrounded(exits: set<Node>, net: Net, run: seq<Event>, d: Dest)
    requires Inv(net) && InvD(exits, net, d) && AllGrounded(exits, net, d)
    requires ValidRun(exits, net, run) && forall e | e in run :: SingleListed(e)
    ensures AllGrounded(exits, Exec(exits, net, run), d)
    decreases |run|
  {
    hide Inv, InvD, AllGrounded, SingleListed, Step;
    if run != [] {
      assert run[0] in run;
      StepKeepsGrounded(exits, net, run[0], d);
      StepKeepsInvD(exits, net, run[0], d);
      StepKeepsInv(exits, net, run[0]);
      RunKeepsGrounded(exits, Step(net, run[0]), run[1..], d);
    }
  }

  lemma {:induction false} DefaultAtMost(exits: set<Node>, net: Net, k: int, n: Node, x: Node, d: Dest)
    requires InvD(exits, net, d) && Convergence.Quiescent(net) && x in exits && Within(net.reg, k, n, x) && k < ROUTE_INFINITY
    ensures D(exits, net, n, d) <= k
    decreases k
  {
    if n !in exits {
      var p :| (n, p) in net.reg && Within(net.reg, k - 1, p, x);
      DefaultAtMost(exits, net, k - 1, p, x, d);
      assert SettledD(exits, net, p, n, d) && Chan(net, p, n) == [] && (p, n) in net.up;
      assert LinkD(exits, net, p, n, d) && EntryD(exits, net, p, d);
    }
  }

  /** Every node counts by the distance to the nearest exit wherever that is
      below infinity, and holds no route otherwise. */
  ghost predicate DefaultsExact(exits: set<Node>, net: Net, d: Dest) {
    && (forall n, k | 0 <= k < 16 :: D(exits, net, n, d) == k <==> NearestExit(exits, net.reg, k, n))
    && (forall n | n !in exits :: d in RibOf(net, n) <==> ExitWithin(exits, net.reg, 15, n))
  }

  ghost predicate NearestExit(exits: set<Node>, links: set<Link>, k: int, n: Node) {
    ExitWithin(exits, links, k, n) && !ExitWithin(exits, links, k - 1, n)
  }

  /** Where no advertisement ever lists a default twice, quiet tables hold it
      at the distance to the nearest exit. */
  lemma {:induction false} DefaultsAreExact(exits: set<Node>, run: seq<Event>, d: Dest)
    requires ValidRun(exits, Start, run) && !d.Ula? && forall e | e in run :: SingleListed(e)
    requires Convergence.Quiescent(Exec(exits, Start, run))
    ensures DefaultsExact(exits, Exec(exits, Start, run), d)
  {
    StartInv();
    StartInvD(exits, d);
    assert AllGrounded(exits, Start, d) by {
      forall x ensures GroundedD(exits, Start, x, d) {
        assert x in exits ==> Within(Start.reg, 0, x, x);
      }
    }
    RunKeepsInvD(exits, Start, run, d);
    RunKeepsGrounded(exits, Start, run, d);
    AllExact(exits, Exec(exits, Start, run), d);
  }

  lemma {:induction false} AllExact(exits: set<Node>, net: Net, d: Dest)
    requires InvD(exits, net, d) && AllGrounded(exits, net, d) && Convergence.Quiescent(net)
    ensures DefaultsExact(exits, net, d)
  {
    hide InvD, AllGrounded, ExitWithin, D;
    forall n, k | 0 <= k < ROUTE_INFINITY ensures D(exits, net, n, d) == k <==> NearestExit(exits, net.reg, k, n) {
      ExactD(exits, net, d, n, k);
    }
    forall n | n !in exits ensures d in RibOf(net, n) <==> ExitWithin(exits, net.reg, ROUTE_INFINITY - 1, n) {
      ExactD(exits, net, d, n, ROUTE_INFINITY - 1);
    }
  }

  lemma {:induction false} ExactD(exits: set<Node>, net: Net, d: Dest, n: Node, k: int)
    requires InvD(exits, net, d) && AllGrounded(exits, net, d) && Convergence.Quiescent(net) && 0 <= k < ROUTE_INFINITY
    ensures D(exits, net, n, d) <= k <==> ExitWithin(exits, net.reg, k, n)
    ensures D(exits, net, n, d) <= k - 1 <==> ExitWithin(exits, net.reg, k - 1, n)
    ensures n !in exits ==> (d in RibOf(net, n) <==> D(exits, net, n, d) < ROUTE_INFINITY)
  {
    assert GroundedD(exits, net, n, d) && EntryD(exits, net, n, d);
    forall j | k - 1 <= j <= k ensures D(exits, net, n, d) <= j <==> ExitWithin(exits, net.reg, j, n) {
      if D(exits, net, n, d) <= j {
        ExitStaysWithin(exits, net.reg, net.reg, D(exits, net, n, d), j, n);
      }
      if ExitWithin(exits, net.reg, j, n) {
        var x :| x in exits && Within(net.reg, j, n, x);
        DefaultAtMost(exits, net, j, n, x, d);
      }
    }
  }
}
