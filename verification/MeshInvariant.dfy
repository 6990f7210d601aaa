// Inv is inductive: every event of an up-only run keeps it.
module MeshInvariant {
  import opened Base
  import opened Rib
  import opened Mesh

  // ---- the inductive step -------------------------------------------------

  /** Only the destination itself is one hop away. */
  lemma MetricOneIsDirect(net: Net, n: Node, x: Node)
    requires Inv(net)
    ensures M(net, n, x) == 1 ==> Lookup(RibOf(net, n), Ula(x)) == Some(Entry(x, 1, None))
  {
    assert EntryInv(net, n, x);
    if M(net, n, x) == 1 {
      var q := RibOf(net, n)[Ula(x)].next;
      assert LinkInv(net, q, n, x) && EntryInv(net, q, x);
    }
  }

  lemma ReceiveEffect(net: Net, n: Node, p: Node, x: Node)
    requires Inv(net) && (n, p) in net.reg && Chan(net, p, n) != []
    ensures var net' := Step(net, Receive(n, p));
            var a := Listed(Chan(net, p, n)[0], Ula(x));
            && EntryInv(net', n, x)
            && (|| (M(net', n, x) == M(net, n, x) && forall q :: Uses(net', n, x, q) == Uses(net, n, x, q))
                || (a.Some? && M(net', n, x) == a.value + 1 < M(net, n, x) && forall q :: Uses(net', n, x, q) == (q == p)))
            && (a.Some? && a.value + 1 < ROUTE_INFINITY ==> M(net', n, x) <= a.value + 1)
            && (n != x && Ula(x) in RibOf(net, n) ==> Ula(x) in RibOf(net', n))
  {
    var ad := Chan(net, p, n)[0];
    var rib := RibOf(net, n);
    assert EntryInv(net, n, x) && EntryInv(net, n, n) && ChanInv(p, Chan(net, p, n), x) && ListingInv(p, ad, x);
    assert LinkInv(net, p, n, x);
    assert Listings(Chan(net, p, n), x)[0] == Listed(ad, Ula(x));
    if n == x {
      HandleRoutesAtSelf(rib, n, p, ad, net.now);
    } else if x == p {
      HandleRoutesAtPeer(rib, n, p, ad, net.now);
      MetricOneIsDirect(net, n, x);
    } else {
      HandleRoutesAt(rib, n, p, ad, net.now, Ula(x));
    }
  }

  lemma ListingsTail(net: Net, n: Node, p: Node, x: Node)
    requires Chan(net, p, n) != []
    ensures var q := Listings(Chan(net, p, n), x);
            && q[0] == Listed(Chan(net, p, n)[0], Ula(x))
            && Listings(Chan(net, p, n)[1..], x) == q[1..]
  {
  }

  lemma ListingsAppend(q: seq<Ad>, ad: Ad, x: Node)
    ensures Listings(q + [ad], x) == Listings(q, x) + [Listed(ad, Ula(x))]
  {
  }

  /** A metric that falls, at either end of a link, keeps the link in order. */
  lemma LinkFalls(mn: int, nViaP: bool, mp: int, pViaN: bool, q: seq<Option<int>>,
                  mn': int, nViaP': bool, mp': int, pViaN': bool)
    requires LinkOk(mn, nViaP, mp, pViaN, q)
    requires mn' <= mn && mp' <= mp
    requires nViaP' ==> nViaP && mn' == mn
    requires pViaN' ==> mn' < mp'
    ensures LinkOk(mn', nViaP', mp', pViaN', q)
  {
  }

  /** Reading the oldest advertisement of a link. */
  lemma LinkReads(mn: int, nViaP: bool, mp: int, pViaN: bool, q: seq<Option<int>>, mn': int, nViaP': bool)
    requires q != [] && LinkOk(mn, nViaP, mp, pViaN, q)
    requires (mn' == mn && nViaP' == nViaP) || (q[0].Some? && mn' == q[0].value + 1 < mn && nViaP')
    ensures LinkOk(mn', nViaP', mp, pViaN, q[1..])
  {
  }

  lemma ReceiveFrame(net: Net, n: Node, p: Node, a: Node, b: Node, x: Node)
    requires Chan(net, p, n) != []
    ensures var net' := Step(net, Receive(n, p));
            && (a != n ==> M(net', a, x) == M(net, a, x) && Uses(net', a, x, b) == Uses(net, a, x, b))
            && Chan(net', a, b) == if (a, b) == (p, n) then Chan(net, p, n)[1..] else Chan(net, a, b)
  {
  }

  lemma ReceiveLink(net: Net, n: Node, p: Node, p': Node, n': Node, x: Node)
    requires Inv(net) && (n, p) in net.reg && Chan(net, p, n) != []
    ensures LinkInv(Step(net, Receive(n, p)), p', n', x)
  {
    var net' := Step(net, Receive(n, p));
    ReceiveEffect(net, n, p, x);
    ListingsTail(net, n, p, x);
    ReceiveFrame(net, n, p, p', n', x);
    ReceiveFrame(net, n, p, n', p', x);
    assert LinkInv(net, p', n', x) && LinkInv(net, p, n, x) && LinkInv(net, n', p', x);
    var mn, nv, mp, pv, q := M(net, n', x), Uses(net, n', x, p'), M(net, p', x), Uses(net, p', x, n'), Listings(Chan(net, p', n'), x);
    var mn', nv', mp', pv' := M(net', n', x), Uses(net', n', x, p'), M(net', p', x), Uses(net', p', x, n');
    NoSelfLink(net, n, x);
    if (p', n') == (p, n) {
      LinkReads(mn, nv, mp, pv, q, mn', nv');
    } else {
      LinkFalls(mn, nv, mp, pv, q, mn', nv', mp', pv');
    }
  }

  lemma OutAt(net: Net, n: Node, l: Link)
    ensures Out(net, n)[l] == if l in net.reg && l.0 == n then 1 else 0
  {
  }

  lemma ReceiveSettled(net: Net, n: Node, p: Node, p': Node, n': Node, x: Node)
    requires Inv(net) && (n, p) in net.reg && Chan(net, p, n) != []
    ensures SettledInv(Step(net, Receive(n, p)), p', n', x)
  {
    var net' := Step(net, Receive(n, p));
    var ad := Chan(net, p, n)[0];
    OutAt(net, n, (p', n'));
    if (p', n') in net'.up && net'.owed[(p', n')] == 0 {
      assert SettledInv(net, p', n', x);
      ReceiveEffect(net, n, p, x);
      ListingsTail(net, n, p, x);
      ReceiveFrame(net, n, p, p', n', x);
      ReceiveFrame(net, n, p, n', p', x);
      if p' == n {
        assert !Changed(RibOf(net, n), n, p, ad, net.now);
        UnchangedKeepsRoutes(RibOf(net, n), n, p, ad, net.now, Ula(x));
      }
    }
  }

  /** No node routes via itself, and no stream leads from a node to itself. */
  lemma NoSelfLink(net: Net, n: Node, x: Node)
    requires Inv(net)
    ensures !Uses(net, n, x, n)
  {
    assert EntryInv(net, n, x);
  }

  lemma ReceiveKeepsInv(net: Net, n: Node, p: Node)
    requires Inv(net) && (n, p) in net.reg && Chan(net, p, n) != []
    ensures Inv(Step(net, Receive(n, p)))
  {
    var net' := Step(net, Receive(n, p));
    forall a, x ensures EntryInv(net', a, x) {
      assert EntryInv(net, a, x);
      ReceiveEffect(net, n, p, x);
    }
    forall a, b, x ensures LinkInv(net', a, b, x) && SettledInv(net', a, b, x) && ChanInv(a, Chan(net', a, b), x) {
      ReceiveLink(net, n, p, a, b, x);
      ReceiveSettled(net, n, p, a, b, x);
      assert ChanInv(a, Chan(net, a, b), x);
    }
    forall a, b | (a, b) in net'.up ensures M(net', a, b) == 1 {
      ReceiveEffect(net, n, p, b);
      assert EntryInv(net', a, b);
    }
  }

  lemma UpEffect(net: Net, n: Node, p: Node, x: Node)
    requires Inv(net) && (n, p) in net.reg
    ensures var net' := Step(net, Up(n, p));
            && EntryInv(net', n, x)
            && (|| (M(net', n, x) == M(net, n, x) && forall q :: Uses(net', n, x, q) == Uses(net, n, x, q))
                || (x == p && M(net', n, x) == 1 < M(net, n, x) && forall q :: Uses(net', n, x, q) == (q == p)))
            && (x == p ==> M(net', n, x) == 1)
  {
    assert EntryInv(net, n, x);
    MetricOneIsDirect(net, n, x);
  }

  lemma UpKeepsInv(net: Net, n: Node, p: Node)
    requires Inv(net) && (n, p) in net.reg
    ensures Inv(Step(net, Up(n, p)))
  {
    var net' := Step(net, Up(n, p));
    forall a, x ensures EntryInv(net', a, x) {
      assert EntryInv(net, a, x);
      UpEffect(net, n, p, x);
    }
    forall a, b, x ensures LinkInv(net', a, b, x) && ChanInv(a, Chan(net', a, b), x) {
      UpEffect(net, n, p, x);
      UpLink(net, n, p, a, b, x);
      assert ChanInv(a, Chan(net, a, b), x);
    }
    forall a, b, x ensures SettledInv(net', a, b, x) {
      UpSettled(net, n, p, a, b, x);
    }
    forall a, b | (a, b) in net'.up ensures (a, b) in net'.reg && M(net', a, b) == 1 {
      UpEffect(net, n, p, b);
      assert EntryInv(net', a, b);
    }
  }

  lemma UpSettled(net: Net, n: Node, p: Node, a: Node, b: Node, x: Node)
    requires Inv(net) && (n, p) in net.reg
    ensures SettledInv(Step(net, Up(n, p)), a, b, x)
  {
    hide InstallPeer, LinkOk;
    UpEffect(net, n, p, x);
    OutAt(net, n, (a, b));
    assert SettledInv(net, a, b, x) && EntryInv(net, b, x);
  }

  lemma UpLink(net: Net, n: Node, p: Node, p': Node, n': Node, x: Node)
    requires Inv(net) && (n, p) in net.reg
    ensures LinkInv(Step(net, Up(n, p)), p', n', x)
  {
    hide InstallPeer, SettledInv;
    var net' := Step(net, Up(n, p));
    UpEffect(net, n, p, x);
    assert LinkInv(net, p', n', x) && LinkInv(net, n', p', x);
    NoSelfLink(net, n, x);
    assert EntryInv(net, n', x);
    var q := Listings(Chan(net, p', n'), x);
    if (p', n') == (p, n) && x == p {
      forall i | 0 <= i < |q| ensures q[i] == Some(0) {
        assert ChanInv(p, Chan(net, p, n), x) && ListingInv(p, Chan(net, p, n)[i], x);
      }
    } else {
      LinkFalls(M(net, n', x), Uses(net, n', x, p'), M(net, p', x), Uses(net, p', x, n'), q,
                M(net', n', x), Uses(net', n', x, p'), M(net', p', x), Uses(net', p', x, n'));
    }
  }

  /** Writing the sender's current view at the tail of a link. */
  lemma LinkWrites(mn: int, nViaP: bool, mp: int, pViaN: bool, q: seq<Option<int>>, shown: Option<int>)
    requires LinkOk(mn, nViaP, mp, pViaN, q)
    requires mp <= ROUTE_INFINITY && forall i | 0 <= i < |q| :: q[i].Some? ==> q[i].value < ROUTE_INFINITY
    requires mn <= ROUTE_INFINITY
    requires shown == if mp < ROUTE_INFINITY && !pViaN then Some(mp) else None
    ensures LinkOk(mn, nViaP, mp, pViaN, q + [shown])
  {
  }

  lemma SentAd(exits: set<Node>, net: Net, n: Node, p: Node, ad: Ad)
    requires Inv(net) && Advertises(n, n in exits, RibOf(net, n), p, ad)
    ensures forall x :: ListingInv(n, ad, x) && Listed(ad, Ula(x)) == Shown(net, n, p, x)
  {
    assert EntryInv(net, n, n);
    forall x ensures ListingInv(n, ad, x) && Listed(ad, Ula(x)) == Shown(net, n, p, x) {
      assert EntryInv(net, n, x);
      AdvertisedUla(n, n in exits, RibOf(net, n), p, ad, x);
    }
  }

  /** What a step leaves alone stays in order. */
  lemma FrameKeeps(net: Net, net': Net, a: Node, b: Node, x: Node)
    requires Inv(net) && net'.up == net.up && net'.owed[(a, b)] >= net.owed[(a, b)]
    requires Chan(net', a, b) == Chan(net, a, b)
    requires Lookup(RibOf(net', a), Ula(x)) == Lookup(RibOf(net, a), Ula(x))
    requires Lookup(RibOf(net', b), Ula(x)) == Lookup(RibOf(net, b), Ula(x))
    ensures LinkInv(net', a, b, x) && SettledInv(net', a, b, x) && ChanInv(a, Chan(net', a, b), x)
  {
    assert LinkInv(net, a, b, x) && SettledInv(net, a, b, x) && ChanInv(a, Chan(net, a, b), x);
    assert M(net', a, x) == M(net, a, x) && M(net', b, x) == M(net, b, x);
    assert Uses(net', a, x, b) == Uses(net, a, x, b) && Uses(net', b, x, a) == Uses(net, b, x, a);
  }

  lemma SendLink(exits: set<Node>, net: Net, n: Node, p: Node, ad: Ad, x: Node)
    requires Inv(net) && Enabled(exits, net, Send(n, p, ad))
    ensures var net' := Step(net, Send(n, p, ad));
            LinkInv(net', n, p, x) && SettledInv(net', n, p, x) && ChanInv(n, Chan(net', n, p), x)
  {
    var net' := Step(net, Send(n, p, ad));
    SentAd(exits, net, n, p, ad);
    assert LinkInv(net, n, p, x) && ChanInv(n, Chan(net, n, p), x) && EntryInv(net, n, x) && EntryInv(net, p, x);
    ListingsAppend(Chan(net, n, p), ad, x);
    assert Chan(net', n, p) == Chan(net, n, p) + [ad];
    LinkWrites(M(net, p, x), Uses(net, p, x, n), M(net, n, x), Uses(net, n, x, p), Listings(Chan(net, n, p), x), Shown(net, n, p, x));
    assert M(net', p, x) == M(net, p, x) && M(net', n, x) == M(net, n, x);
    assert Uses(net', p, x, n) == Uses(net, p, x, n) && Uses(net', n, x, p) == Uses(net, n, x, p);
  }

  lemma SendKeepsInv(exits: set<Node>, net: Net, n: Node, p: Node, ad: Ad)
    requires Inv(net) && Enabled(exits, net, Send(n, p, ad))
    ensures Inv(Step(net, Send(n, p, ad)))
  {
    var net' := Step(net, Send(n, p, ad));
    forall a, x ensures EntryInv(net', a, x) {
      assert EntryInv(net, a, x);
    }
    forall a, b, x ensures LinkInv(net', a, b, x) && SettledInv(net', a, b, x) && ChanInv(a, Chan(net', a, b), x) {
      if (a, b) == (n, p) {
        SendLink(exits, net, n, p, ad, x);
      } else {
        FrameKeeps(net, net', a, b, x);
      }
    }
  }

  /** Registration, expiry, refresh and the clock: no ULA route moves, since in
      these runs no holddown mark is ever set. */
  lemma QuietKeepsInv(net: Net, e: Event)
    requires Inv(net) && (e.Register? || e.ExpireStale? || e.Refresh? || e.Tick?)
    requires e.Register? ==> e.n != e.p
    ensures Inv(Step(net, e))
  {
    var net' := Step(net, e);
    forall a, x
      ensures EntryInv(net', a, x) && Lookup(RibOf(net', a), Ula(x)) == Lookup(RibOf(net, a), Ula(x))
    {
      assert EntryInv(net, a, x);
    }
    forall a, b, x ensures LinkInv(net', a, b, x) && SettledInv(net', a, b, x) && ChanInv(a, Chan(net', a, b), x) {
      FrameKeeps(net, net', a, b, x);
    }
    forall a, b | (a, b) in net'.up ensures (a, b) in net'.reg && M(net', a, b) == 1 {
    }
  }

  lemma StepKeepsInv(exits: set<Node>, net: Net, e: Event)
    requires Inv(net) && Enabled(exits, net, e)
    ensures Inv(Step(net, e))
  {
    match e
    case Up(n, p) => UpKeepsInv(net, n, p);
    case Send(n, p, ad) => SendKeepsInv(exits, net, n, p, ad);
    case Receive(n, p) => ReceiveKeepsInv(net, n, p);
    case _ => QuietKeepsInv(net, e);
  }

  lemma StartInv()
    ensures Inv(Start)
  {
  }

  lemma {:induction false} RunKeepsInv(exits: set<Node>, net: Net, run: seq<Event>)
    requires Inv(net) && ValidRun(exits, net, run)
    ensures Inv(Exec(exits, net, run))
    decreases |run|
  {
    if run != [] {
      StepKeepsInv(exits, net, run[0]);
      RunKeepsInv(exits, Step(net, run[0]), run[1..]);
    }
  }
}
