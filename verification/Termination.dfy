// Triggered advertisement ends: on a fixed topology where no advertisement
// lists a default route twice, every sequence of writes and reads is bounded
// by a rank of the starting state. Without exits that is every topology.
module Termination {
  import opened Base
  import opened Rib
  import opened Mesh
  import opened MeshInvariant
  import opened DefaultRoutes

  ghost predicate KnownAd(v: set<Node>, ad: Ad) {
    forall r | r in ad :: r.dest.Some? && (r.dest.value.Ula? ==> r.dest.value.node in v)
  }

  ghost predicate KnownTable(v: set<Node>, rib: Table) {
    forall d | d in rib :: d.Ula? ==> d.node in v
  }

  ghost predicate KnownQueue(v: set<Node>, q: seq<Ad>) {
    forall i | 0 <= i < |q| :: KnownAd(v, q[i])
  }

  /** Sessions, routes and advertisements stay among the nodes of v. */
  ghost predicate Confined(net: Net, v: set<Node>) {
    && (forall l | l in net.reg :: l.0 in v && l.1 in v)
    && (forall n :: KnownTable(v, RibOf(net, n)))
    && (forall p, n :: KnownQueue(v, Chan(net, p, n)))
    && (forall l | l in net.owed :: l in net.reg)
  }

  predicate Triggered(e: Event) {
    e.Send? || e.Receive?
  }

  /** The invariants of every destination together. */
  ghost predicate Ordered(exits: set<Node>, net: Net) {
    Inv(net) && InvD(exits, net, DefaultV6) && InvD(exits, net, DefaultV4)
  }

  lemma StepKeepsOrdered(exits: set<Node>, net: Net, e: Event)
    requires Ordered(exits, net) && Enabled(exits, net, e) && SingleListed(e)
    ensures Ordered(exits, Step(net, e))
  {
    hide Inv, InvD, SingleListed, Enabled, Step;
    StepKeepsInv(exits, net, e);
    StepKeepsInvD(exits, net, e, DefaultV6);
    StepKeepsInvD(exits, net, e, DefaultV4);
  }

  // ---- what a set flag means ----------------------------------------------

  lemma {:induction false} RoutesChangedAt(rib: Table, self: Node, from: Node, ad: Ad) returns (d: Dest)
    requires RoutesChanged(rib, self, from, ad) && forall c :: Once(ad, c)
    ensures Lookup(ApplyRoutes(rib, self, from, ad), d) != Lookup(rib, d)
    ensures d != Ula(self) && Listed(ad, d).Some?
  {
    var front := ad[..|ad| - 1];
    forall c ensures Once(front, c) {
      assert Once(ad, c);
    }
    var last := ad[|ad| - 1];
    if RoutesChanged(rib, self, from, front) {
      d := RoutesChangedAt(rib, self, from, front);
      ListedIffPresent(front, d);
      assert Once(ad, d);
      assert last.dest != Some(d);
    } else {
      UnchangedRoutes(rib, self, from, front);
      d := last.dest.value;
    }
  }

  /** An exit without a one-hop default of its own. */
  predicate Bare(net: Net, n: Node, d: Dest) {
    !(d in RibOf(net, n) && RibOf(net, n)[d].metric == 1)
  }

  /** Why the handler re-advertises: a metric fell for all to see, or an exit
      heard of a default that only its own table is concerned with. */
  ghost predicate Cause(exits: set<Node>, net: Net, net': Net, v: set<Node>, n: Node, p: Node, d: Dest) {
    || (d.Ula? && d.node in v && M(net', n, d.node) < M(net, n, d.node))
    || (!d.Ula? && n !in exits && D(exits, net', n, d) < D(exits, net, n, d))
    || (n in exits && p !in exits)
    || (!d.Ula? && n in exits && Bare(net, n, d) && !Bare(net', n, d))
  }

  lemma ChangedMeansCloser(exits: set<Node>, net: Net, v: set<Node>, n: Node, p: Node) returns (d: Dest)
    requires Ordered(exits, net) && Confined(net, v) && (n, p) in net.reg && Chan(net, p, n) != []
    requires Changed(RibOf(net, n), n, p, Chan(net, p, n)[0], net.now)
    ensures Cause(exits, net, Step(net, Receive(n, p)), v, n, p, d)
  {
    var ad := Chan(net, p, n)[0];
    var rib := RibOf(net, n);
    var direct := InstallDirect(rib, p);
    if direct != rib {
      d := Ula(p);
      NewDirect(net, n, p);
    } else if n in exits && p !in exits {
      d := DefaultV6;
    } else {
      NothingExpires(exits, net, v, n, p);
      forall c ensures Once(ad, c) {
        OnceListed(exits, net, n, p, c);
      }
      d := RoutesChangedAt(direct, n, p, ad);
      ListedIffPresent(ad, d);
      if d.Ula? {
        UlaMoves(net, v, n, p, d.node);
      } else {
        DefaultMoves(exits, net, n, p, d);
      }
    }
  }

  lemma NewDirect(net: Net, n: Node, p: Node)
    requires Inv(net) && (n, p) in net.reg && Chan(net, p, n) != []
    requires InstallDirect(RibOf(net, n), p) != RibOf(net, n)
    ensures M(Step(net, Receive(n, p)), n, p) < M(net, n, p)
  {
    ReceiveEffect(net, n, p, p);
    assert EntryInv(net, n, p) && ChanInv(p, Chan(net, p, n), p) && ListingInv(p, Chan(net, p, n)[0], p);
    MetricOneIsDirect(net, n, p);
  }

  lemma UlaMoves(net: Net, v: set<Node>, n: Node, p: Node, x: Node)
    requires Inv(net) && Confined(net, v) && (n, p) in net.reg && Chan(net, p, n) != []
    requires InstallDirect(RibOf(net, n), p) == RibOf(net, n)
    requires var ad := Chan(net, p, n)[0];
             Once(ad, Ula(x)) && x != n && Lookup(ApplyRoutes(RibOf(net, n), n, p, ad), Ula(x)) != Lookup(RibOf(net, n), Ula(x))
    ensures M(Step(net, Receive(n, p)), n, x) < M(net, n, x) && x in v
  {
    var ad := Chan(net, p, n)[0];
    var rib := RibOf(net, n);
    var net' := Step(net, Receive(n, p));
    assert ChanInv(p, Chan(net, p, n), x) && ListingInv(p, ad, x) && KnownQueue(v, Chan(net, p, n));
    ReceiveEffect(net, n, p, x);
    ApplyRoutesAt(rib, n, p, ad, Ula(x));
    ListedIffPresent(ad, Ula(x));
    assert EntryInv(net, n, x);
    if x == p {
      HandleRoutesAtPeer(rib, n, p, ad, net.now);
    } else {
      HandleRoutesAt(rib, n, p, ad, net.now, Ula(x));
    }
    assert Lookup(RibOf(net', n), Ula(x)) != Lookup(rib, Ula(x));
    assert EntryInv(net', n, x);
    if M(net', n, x) == M(net, n, x) {
      SameEntry(net, net', n, x);
    }
  }

  lemma SameEntry(net: Net, net': Net, n: Node, x: Node)
    requires EntryInv(net, n, x) && EntryInv(net', n, x) && n != x
    requires M(net', n, x) == M(net, n, x) && forall q :: Uses(net', n, x, q) == Uses(net, n, x, q)
    ensures Lookup(RibOf(net', n), Ula(x)) == Lookup(RibOf(net, n), Ula(x))
  {
    if Ula(x) in RibOf(net, n) {
      assert Uses(net, n, x, RibOf(net, n)[Ula(x)].next);
    }
  }

  lemma DefaultMoves(exits: set<Node>, net: Net, n: Node, p: Node, d: Dest)
    requires Inv(net) && InvD(exits, net, d) && (n, p) in net.reg && Chan(net, p, n) != [] && (n in exits ==> p in exits)
    requires InstallDirect(RibOf(net, n), p) == RibOf(net, n)
    requires Lookup(ApplyRoutes(RibOf(net, n), n, p, Chan(net, p, n)[0]), d) != Lookup(RibOf(net, n), d)
    ensures var net' := Step(net, Receive(n, p));
            if n in exits then Bare(net, n, d) && !Bare(net', n, d) else D(exits, net', n, d) < D(exits, net, n, d)
  {
    hide LinkInv, SettledInv, SettledD, Changed;
    var ad := Chan(net, p, n)[0];
    var net' := Step(net, Receive(n, p));
    assert EntryD(exits, net, n, d) && ChanD(exits, p, Chan(net, p, n), d) && ListingD(exits, p, ad, d);
    assert LinkD(exits, net, p, n, d);
    assert ListingsD(Chan(net, p, n), d)[0] == Listed(ad, d);
    ApplyRoutesAt(RibOf(net, n), n, p, ad, d);
    ReceiveEffectD(exits, net, n, p, d);
  }

  lemma OnceListed(exits: set<Node>, net: Net, n: Node, p: Node, d: Dest)
    requires Ordered(exits, net) && Chan(net, p, n) != []
    ensures Once(Chan(net, p, n)[0], d)
  {
    var ad := Chan(net, p, n)[0];
    if d.Ula? {
      assert ChanInv(p, Chan(net, p, n), d.node) && ListingInv(p, ad, d.node);
    } else {
      assert ChanD(exits, p, Chan(net, p, n), d) && ListingD(exits, p, ad, d);
    }
  }

  /** No mark is set on anything but an exit's own default, so the implicit
      withdraw deletes nothing else. */
  lemma NothingExpires(exits: set<Node>, net: Net, v: set<Node>, n: Node, p: Node)
    requires Ordered(exits, net) && (n, p) in net.reg && Chan(net, p, n) != [] && (n in exits ==> p in exits)
    ensures var ad := Chan(net, p, n)[0];
            var applied := ApplyRoutes(InstallDirect(RibOf(net, n), p), n, p, ad);
            Withdraw(applied, p, Seen(n, p, ad), net.now).Keys == applied.Keys
  {
    var ad := Chan(net, p, n)[0];
    var direct := InstallDirect(RibOf(net, n), p);
    var applied := ApplyRoutes(direct, n, p, ad);
    forall d | d in applied && Omitted(applied[d], p, Seen(n, p, ad), d) ensures !Expired(applied[d], net.now) {
      assert EntryInv(net, n, n);
      SelfUntouched(direct, n, p, ad);
      OnceListed(exits, net, n, p, d);
      ApplyRoutesAt(direct, n, p, ad, d);
      SeenIffListed(n, p, ad, d);
      assert Lookup(direct, d) == Lookup(RibOf(net, n), d);
      if d.Ula? {
        assert EntryInv(net, n, d.node);
      } else {
        assert EntryD(exits, net, n, d) && ChanD(exits, p, Chan(net, p, n), d) && ListingD(exits, p, ad, d);
      }
    }
  }

  // ---- the rank -----------------------------------------------------------

  ghost function Sum(f: Link -> int, ls: seq<Link>): int {
    if ls == [] then 0 else Sum(f, ls[1..]) + f(ls[0])
  }

  lemma {:induction false} SumFalls(f: Link -> int, g: Link -> int, ls: seq<Link>)
    requires forall l | l in ls :: g(l) <= f(l)
    ensures Sum(g, ls) <= Sum(f, ls)
  {
    if ls != [] {
      SumFalls(f, g, ls[1..]);
    }
  }

  lemma {:induction false} SumFallsAt(f: Link -> int, g: Link -> int, ls: seq<Link>, l: Link)
    requires (forall l | l in ls :: g(l) <= f(l)) && l in ls && g(l) < f(l)
    ensures Sum(g, ls) < Sum(f, ls)
  {
    if l == ls[0] {
      SumFalls(f, g, ls[1..]);
    } else {
      assert l in ls[1..];
      SumFallsAt(f, g, ls[1..], l);
    }
  }

  lemma {:induction false} SumSame(f: Link -> int, g: Link -> int, ls: seq<Link>)
    requires forall l | l in ls :: g(l) == f(l)
    ensures Sum(g, ls) == Sum(f, ls)
  {
    if ls != [] {
      SumSame(f, g, ls[1..]);
    }
  }

  lemma {:induction false} SumNonNegative(f: Link -> int, ls: seq<Link>)
    requires forall l | l in ls :: f(l) >= 0
    ensures Sum(f, ls) >= 0
  {
    if ls != [] {
      SumNonNegative(f, ls[1..]);
    }
  }

  /** Everywhere at most inc more, and at l0 dec less. */
  lemma {:induction false} SumShifts(f: Link -> int, g: Link -> int, ls: seq<Link>, l0: Link, inc: nat, dec: nat)
    requires forall l | l in ls :: g(l) <= f(l) + inc - if l == l0 then dec else 0
    ensures Sum(g, ls) <= Sum(f, ls) + |ls| * inc - if l0 in ls then dec else 0
  {
    if ls != [] {
      SumShifts(f, g, ls[1..], l0, inc, dec);
      assert |ls| * inc == |ls[1..]| * inc + inc;
      assert l0 in ls <==> l0 == ls[0] || l0 in ls[1..];
    }
  }

  /** The metrics every node counts by; a node's defaults sit at the pair of
      itself with itself. */
  ghost function Mains(exits: set<Node>, net: Net): Link -> int {
    (l: Link) => M(net, l.0, l.1) + if l.0 == l.1 then D(exits, net, l.0, DefaultV6) + D(exits, net, l.0, DefaultV4) else 0
  }

  function One(b: bool): int {
    if b then 1 else 0
  }

  /** The exits' own defaults that may still drop to one hop. */
  ghost function Bares(exits: set<Node>, net: Net): Link -> int {
    (l: Link) => if l.0 == l.1 && l.0 in exits then One(Bare(net, l.0, DefaultV6)) + One(Bare(net, l.0, DefaultV4)) else 0
  }

  /** An unread advertisement weighs more from a node that is no exit: it may
      make an exit advertise to all its peers. Unwritten, each weighs 1 more. */
  function Unread(exits: set<Node>, n: Node, k: nat): nat {
    if n in exits then 1 else 2 * k + 3
  }

  /** What a new advertisement to one peer weighs. */
  function Owing(c: bool, w: nat): nat {
    if c then w + 1 else 0
  }

  function Load(owed: nat, unread: nat, w: nat): int {
    owed * (w + 1) + unread * w
  }

  ghost function Loads(exits: set<Node>, net: Net, k: nat): Link -> int {
    (l: Link) => Load(net.owed[l], |Chan(net, l.0, l.1)|, Unread(exits, l.0, k))
  }

  function Weigh(mains: int, bares: int, loads: int, k: nat): int {
    mains * (k * (2 * k + 4) + 1) + bares * (2 * k + 1) + loads
  }

  ghost function Rank(exits: set<Node>, net: Net, pairs: seq<Link>): int {
    Weigh(Sum(Mains(exits, net), pairs), Sum(Bares(exits, net), pairs), Sum(Loads(exits, net, |pairs|), pairs), |pairs|)
  }

  ghost predicate AllPairs(pairs: seq<Link>, v: set<Node>) {
    && (forall a, b :: (a, b) in pairs <==> a in v && b in v)
    && (forall i, j | 0 <= i < j < |pairs| :: pairs[i] != pairs[j])
  }

  lemma MainsNonNegative(exits: set<Node>, net: Net, pairs: seq<Link>)
    requires Ordered(exits, net)
    ensures Sum(Mains(exits, net), pairs) >= 0 && Sum(Bares(exits, net), pairs) >= 0
    ensures Sum(Loads(exits, net, |pairs|), pairs) >= 0
  {
    hide Bare, Load, Chan;
    forall l: Link ensures Mains(exits, net)(l) >= 0 {
      AtLeastZero(exits, net, l.0, l.1);
    }
    SumNonNegative(Mains(exits, net), pairs);
    SumNonNegative(Bares(exits, net), pairs);
    forall l: Link ensures Loads(exits, net, |pairs|)(l) >= 0 {
      LoadNonNegative(net.owed[l], |Chan(net, l.0, l.1)|, Unread(exits, l.0, |pairs|));
    }
    SumNonNegative(Loads(exits, net, |pairs|), pairs);
  }

  lemma AtLeastZero(exits: set<Node>, net: Net, n: Node, x: Node)
    requires Ordered(exits, net)
    ensures M(net, n, x) >= 0 && D(exits, net, n, DefaultV6) >= 0 && D(exits, net, n, DefaultV4) >= 0
  {
    hide LinkInv, SettledInv, LinkD, SettledD;
    assert EntryInv(net, n, x) && EntryD(exits, net, n, DefaultV6) && EntryD(exits, net, n, DefaultV4);
  }

  lemma LoadNonNegative(owed: nat, unread: nat, w: nat)
    ensures Load(owed, unread, w) >= 0
  {
  }

  /** One advertisement owed more, one unread less. */
  lemma LoadMoves(o: nat, q: nat, w: nat, c: bool, r: bool)
    requires r ==> q > 0
    ensures Load(o + One(c), q - One(r), w) == Load(o, q, w) + Owing(c, w) - if r then w else 0
  {
    assert (o + One(c)) * (w + 1) == o * (w + 1) + One(c) * (w + 1);
    assert (q - One(r)) * w == q * w - One(r) * w;
  }

  lemma LoadSends(o: nat, q: nat, w: nat)
    requires o > 0
    ensures Load(o - 1, q + 1, w) == Load(o, q, w) - 1
  {
    assert o * (w + 1) == (o - 1) * (w + 1) + (w + 1);
    assert (q + 1) * w == q * w + w;
  }

  lemma SendKeepsTables(exits: set<Node>, net: Net, n: Node, p: Node, ad: Ad, l: Link)
    ensures var net' := Step(net, Send(n, p, ad));
            Mains(exits, net')(l) == Mains(exits, net)(l) && Bares(exits, net')(l) == Bares(exits, net)(l)
  {
    assert RibOf(Step(net, Send(n, p, ad)), l.0) == RibOf(net, l.0);
  }

  lemma SendAt(exits: set<Node>, net: Net, n: Node, p: Node, ad: Ad, l: Link, k: nat)
    requires net.owed[(n, p)] > 0
    ensures var net' := Step(net, Send(n, p, ad));
            && Mains(exits, net')(l) == Mains(exits, net)(l) && Bares(exits, net')(l) == Bares(exits, net)(l)
            && Loads(exits, net', k)(l) == Loads(exits, net, k)(l) - if l == (n, p) then 1 else 0
  {
    SendKeepsTables(exits, net, n, p, ad, l);
    hide Load, Unread, Mains, Bares;
    var net' := Step(net, Send(n, p, ad));
    if l == (n, p) {
      assert net'.owed[l] == net.owed[l] - 1 && |Chan(net', n, p)| == |Chan(net, n, p)| + 1;
      LoadSends(net.owed[l], |Chan(net, n, p)|, Unread(exits, n, k));
    } else {
      assert net'.owed[l] == net.owed[l] && Chan(net', l.0, l.1) == Chan(net, l.0, l.1);
    }
  }

  lemma {:induction false} SendLowersRank(exits: set<Node>, net: Net, v: set<Node>, pairs: seq<Link>, n: Node, p: Node, ad: Ad)
    requires Confined(net, v) && AllPairs(pairs, v) && net.owed[(n, p)] > 0
    ensures Rank(exits, Step(net, Send(n, p, ad)), pairs) < Rank(exits, net, pairs)
  {
    assert (n, p) in pairs;
    hide Confined, AllPairs, Step, Mains, Bares, Loads, Weigh;
    var net' := Step(net, Send(n, p, ad));
    var k := |pairs|;
    forall l: Link
      ensures Mains(exits, net')(l) == Mains(exits, net)(l) && Bares(exits, net')(l) == Bares(exits, net)(l)
      ensures Loads(exits, net', k)(l) == Loads(exits, net, k)(l) - if l == (n, p) then 1 else 0
    {
      SendAt(exits, net, n, p, ad, l, k);
    }
    SumSame(Mains(exits, net), Mains(exits, net'), pairs);
    SumSame(Bares(exits, net), Bares(exits, net'), pairs);
    SumFallsAt(Loads(exits, net, k), Loads(exits, net', k), pairs, (n, p));
    WeighLoads(Sum(Mains(exits, net), pairs), Sum(Bares(exits, net), pairs), Sum(Loads(exits, net, k), pairs), Sum(Loads(exits, net', k), pairs), k);
  }

  lemma WeighLoads(a: int, b: int, s: int, s': int, k: nat)
    requires s' < s
    ensures Weigh(a, b, s', k) < Weigh(a, b, s, k)
  {
  }

  lemma ReceiveLoadAt(exits: set<Node>, net: Net, n: Node, p: Node, l: Link, k: nat)
    requires Chan(net, p, n) != []
    ensures var c := Changed(RibOf(net, n), n, p, Chan(net, p, n)[0], net.now);
            Loads(exits, Step(net, Receive(n, p)), k)(l)
            <= Loads(exits, net, k)(l) + Owing(c, Unread(exits, n, k)) - if l == (p, n) then Unread(exits, p, k) else 0
  {
    hide Changed, HandleRoutes, Load, Unread;
    var c := Changed(RibOf(net, n), n, p, Chan(net, p, n)[0], net.now);
    var net' := Step(net, Receive(n, p));
    var more := c && l in net.reg && l.0 == n;
    OutAt(net, n, l);
    assert net'.owed[l] == net.owed[l] + One(more);
    assert |Chan(net', l.0, l.1)| == |Chan(net, l.0, l.1)| - One(l == (p, n));
    LoadMoves(net.owed[l], |Chan(net, l.0, l.1)|, Unread(exits, l.0, k), more, l == (p, n));
  }

  /** What a reading does to the messages. */
  lemma {:induction false} ReceiveLoads(exits: set<Node>, net: Net, v: set<Node>, pairs: seq<Link>, n: Node, p: Node)
    requires Confined(net, v) && AllPairs(pairs, v) && (n, p) in net.reg && Chan(net, p, n) != []
    ensures var k := |pairs|;
            var c := Changed(RibOf(net, n), n, p, Chan(net, p, n)[0], net.now);
            Sum(Loads(exits, Step(net, Receive(n, p)), k), pairs) <=
            Sum(Loads(exits, net, k), pairs) + k * Owing(c, Unread(exits, n, k)) - Unread(exits, p, k)
  {
    assert (p, n) in pairs;
    hide Changed, Step, Loads, Unread, Confined, AllPairs, Owing;
    var k := |pairs|;
    var c := Changed(RibOf(net, n), n, p, Chan(net, p, n)[0], net.now);
    var net' := Step(net, Receive(n, p));
    var inc := Owing(c, Unread(exits, n, k));
    forall l: Link
      ensures Loads(exits, net', k)(l) <= Loads(exits, net, k)(l) + inc - if l == (p, n) then Unread(exits, p, k) else 0
    {
      ReceiveLoadAt(exits, net, n, p, l, k);
    }
    SumShifts(Loads(exits, net, k), Loads(exits, net', k), pairs, (p, n), inc, Unread(exits, p, k));
  }

  lemma MainsStay(exits: set<Node>, net: Net, n: Node, p: Node, l: Link)
    requires Ordered(exits, net) && (n, p) in net.reg && Chan(net, p, n) != []
    ensures var net' := Step(net, Receive(n, p));
            Mains(exits, net')(l) <= Mains(exits, net)(l) && Bares(exits, net')(l) <= Bares(exits, net)(l)
  {
    hide Inv, InvD, Step, M, D, Bare;
    MetricStays(net, n, p, l.0, l.1);
    DefaultStays(exits, net, n, p, l.0, DefaultV6);
    DefaultStays(exits, net, n, p, l.0, DefaultV4);
  }

  /** The pair at which a cause shows. */
  lemma CauseAt(exits: set<Node>, net: Net, v: set<Node>, n: Node, p: Node, d: Dest) returns (l: Link)
    requires Ordered(exits, net) && (n, p) in net.reg && Chan(net, p, n) != [] && n in v
    requires Cause(exits, net, Step(net, Receive(n, p)), v, n, p, d)
    ensures l.0 in v && l.1 in v
    ensures var net' := Step(net, Receive(n, p));
            || Mains(exits, net')(l) < Mains(exits, net)(l)
            || (n in exits && p !in exits)
            || (n in exits && Bares(exits, net')(l) < Bares(exits, net)(l))
  {
    hide Inv, InvD, Step, Bare, M, D;
    var net' := Step(net, Receive(n, p));
    DefaultStays(exits, net, n, p, n, DefaultV6);
    DefaultStays(exits, net, n, p, n, DefaultV4);
    MetricAtSelf(net, n);
    MetricAtSelf(net', n);
    l := (n, if d.Ula? && d.node in v then d.node else n);
    if d.Ula? {
      MetricStays(net, n, p, n, d.node);
    }
  }

  /** What a reading does to the metrics, and to the exits' own defaults. */
  lemma {:induction false} ReceiveMains(exits: set<Node>, net: Net, v: set<Node>, pairs: seq<Link>, n: Node, p: Node, d: Dest)
    requires Ordered(exits, net) && Confined(net, v) && AllPairs(pairs, v) && (n, p) in net.reg && Chan(net, p, n) != []
    ensures var net' := Step(net, Receive(n, p));
            && Sum(Mains(exits, net'), pairs) <= Sum(Mains(exits, net), pairs)
            && Sum(Bares(exits, net'), pairs) <= Sum(Bares(exits, net), pairs)
            && (Cause(exits, net, net', v, n, p, d) ==>
                  || Sum(Mains(exits, net'), pairs) < Sum(Mains(exits, net), pairs)
                  || (n in exits && p !in exits)
                  || (n in exits && Sum(Bares(exits, net'), pairs) < Sum(Bares(exits, net), pairs)))
  {
    assert n in v;
    hide Ordered, Confined, Step, Mains, Bares, Cause;
    var net' := Step(net, Receive(n, p));
    forall l: Link
      ensures Mains(exits, net')(l) <= Mains(exits, net)(l) && Bares(exits, net')(l) <= Bares(exits, net)(l)
    {
      MainsStay(exits, net, n, p, l);
    }
    SumFalls(Mains(exits, net), Mains(exits, net'), pairs);
    SumFalls(Bares(exits, net), Bares(exits, net'), pairs);
    if Cause(exits, net, net', v, n, p, d) {
      var l := CauseAt(exits, net, v, n, p, d);
      assert l == (l.0, l.1) && l in pairs;
      if Mains(exits, net')(l) < Mains(exits, net)(l) {
        SumFallsAt(Mains(exits, net), Mains(exits, net'), pairs, l);
      }
      if Bares(exits, net')(l) < Bares(exits, net)(l) {
        SumFallsAt(Bares(exits, net), Bares(exits, net'), pairs, l);
      }
    }
  }

  lemma MetricAtSelf(net: Net, n: Node)
    ensures M(net, n, n) == 0
  {
  }

  lemma MetricStays(net: Net, n: Node, p: Node, a: Node, x: Node)
    requires Inv(net) && (n, p) in net.reg && Chan(net, p, n) != []
    ensures M(Step(net, Receive(n, p)), a, x) <= M(net, a, x)
  {
    ReceiveEffect(net, n, p, x);
    ReceiveFrame(net, n, p, a, a, x);
  }

  /** A one-hop default of an exit is there to stay. */
  lemma DefaultStays(exits: set<Node>, net: Net, n: Node, p: Node, a: Node, d: Dest)
    requires Inv(net) && InvD(exits, net, d) && (n, p) in net.reg && Chan(net, p, n) != []
    ensures var net' := Step(net, Receive(n, p));
            && D(exits, net', a, d) <= D(exits, net, a, d)
            && (a in exits && !Bare(net, a, d) ==> !Bare(net', a, d))
  {
    ReceiveEffectD(exits, net, n, p, d);
    ReceiveFrameD(exits, net, n, p, a, a, d);
    assert EntryD(exits, net, a, d) && ChanD(exits, p, Chan(net, p, n), d) && ListingD(exits, p, Chan(net, p, n)[0], d);
  }

  lemma RankArithmetic(a: int, a': int, b: int, b': int, s: int, s': int, k: nat, exit: bool, fromExit: bool, c: bool)
    requires a' <= a && b' <= b
    requires s' <= s + k * Owing(c, if exit then 1 else 2 * k + 3) - (if fromExit then 1 else 2 * k + 3)
    requires c ==> a' < a || (exit && !fromExit) || (exit && b' < b)
    ensures Weigh(a', b', s', k) < Weigh(a, b, s, k)
  {
    var w := k * (2 * k + 4) + 1;
    Scale(a', a, w);
    Scale(b', b, 2 * k + 1);
    if c && a' < a {
      Scale(a', a - 1, w);
      assert (a - 1) * w == a * w - w;
      assert k * (2 * k + 4) >= k * 2 by {
        Scale(2, 2 * k + 4, k);
      }
    } else if c && !fromExit {
      assert k * Owing(c, 1) == 2 * k;
    } else if c {
      Scale(b', b - 1, 2 * k + 1);
      assert (b - 1) * (2 * k + 1) == b * (2 * k + 1) - (2 * k + 1);
      assert k * Owing(c, 1) == 2 * k;
    }
  }

  lemma Scale(a: int, b: int, w: nat)
    requires a <= b
    ensures a * w <= b * w && w * a <= w * b
  {
  }

  lemma {:induction false} ReceiveLowersRank(exits: set<Node>, net: Net, v: set<Node>, pairs: seq<Link>, n: Node, p: Node)
    requires Ordered(exits, net) && Confined(net, v) && AllPairs(pairs, v) && (n, p) in net.reg && Chan(net, p, n) != []
    ensures Rank(exits, Step(net, Receive(n, p)), pairs) < Rank(exits, net, pairs)
  {
    hide Ordered, Confined, AllPairs, Step, Mains, Bares, Loads, Changed, Cause, Sum, Weigh, M, D;
    var net' := Step(net, Receive(n, p));
    var k := |pairs|;
    var c := Changed(RibOf(net, n), n, p, Chan(net, p, n)[0], net.now);
    var d := DefaultV6;
    if c {
      d := ChangedMeansCloser(exits, net, v, n, p);
    }
    ReceiveLoads(exits, net, v, pairs, n, p);
    ReceiveMains(exits, net, v, pairs, n, p, d);
    RankArithmetic(Sum(Mains(exits, net), pairs), Sum(Mains(exits, net'), pairs),
                   Sum(Bares(exits, net), pairs), Sum(Bares(exits, net'), pairs),
                   Sum(Loads(exits, net, k), pairs), Sum(Loads(exits, net', k), pairs), k, n in exits, p in exits, c);
  }

  // ---- staying among the nodes of v ---------------------------------------

  lemma {:induction false} AppliedKnown(rib: Table, self: Node, from: Node, ad: Ad, v: set<Node>)
    requires KnownAd(v, ad) && KnownTable(v, rib)
    ensures KnownTable(v, ApplyRoutes(rib, self, from, ad))
  {
    if ad != [] {
      assert forall r | r in ad[..|ad| - 1] :: r in ad;
      AppliedKnown(rib, self, from, ad[..|ad| - 1], v);
      assert ad[|ad| - 1] in ad;
    }
  }

  lemma StepKeepsConfined(exits: set<Node>, net: Net, v: set<Node>, e: Event)
    requires Confined(net, v) && Enabled(exits, net, e) && (e.Register? ==> e.n in v && e.p in v)
    ensures Confined(Step(net, e), v)
  {
    if e.Send? {
      SentKnown(exits, net, v, e.n, e.p, e.ad);
    }
    if e.Receive? {
      assert KnownTable(v, RibOf(net, e.n)) && KnownQueue(v, Chan(net, e.p, e.n));
      AppliedKnown(InstallDirect(RibOf(net, e.n), e.p), e.n, e.p, Chan(net, e.p, e.n)[0], v);
    }
    StepTables(exits, net, v, e);
    StepQueues(exits, net, v, e);
    StepOwed(exits, net, v, e);
  }

  lemma StepOwed(exits: set<Node>, net: Net, v: set<Node>, e: Event)
    requires Confined(net, v) && Enabled(exits, net, e) && (e.Register? ==> e.n in v && e.p in v)
    ensures var net' := Step(net, e);
            (forall l | l in net'.owed :: l in net'.reg) && forall l | l in net'.reg :: l.0 in v && l.1 in v
  {
    hide Advertises, HandleRoutes, Changed, KnownAd, KnownTable, KnownQueue, Expire, InstallPeer;
    var net' := Step(net, e);
    forall l | l in net'.owed ensures l in net'.reg {
      if !e.Send? && !e.Tick? {
        OutAt(net, e.n, l);
      }
    }
  }

  lemma StepQueues(exits: set<Node>, net: Net, v: set<Node>, e: Event)
    requires Confined(net, v) && Enabled(exits, net, e) && (e.Send? ==> KnownAd(v, e.ad))
    ensures forall a, b :: KnownQueue(v, Chan(Step(net, e), a, b))
  {
    hide Advertises, HandleRoutes, Changed, KnownAd, KnownTable, Expire, InstallPeer;
    forall a, b ensures KnownQueue(v, Chan(Step(net, e), a, b)) {
      assert KnownQueue(v, Chan(net, a, b));
    }
  }

  lemma StepTables(exits: set<Node>, net: Net, v: set<Node>, e: Event)
    requires Confined(net, v) && Enabled(exits, net, e)
    requires e.Receive? ==> KnownTable(v, ApplyRoutes(InstallDirect(RibOf(net, e.n), e.p), e.n, e.p, Chan(net, e.p, e.n)[0]))
    ensures forall a :: KnownTable(v, RibOf(Step(net, e), a))
  {
    hide Advertises, ApplyRoutes, Changed, KnownQueue;
    forall a ensures KnownTable(v, RibOf(Step(net, e), a)) {
      assert KnownTable(v, RibOf(net, a));
    }
  }

  lemma SentKnown(exits: set<Node>, net: Net, v: set<Node>, n: Node, p: Node, ad: Ad)
    requires Confined(net, v) && Enabled(exits, net, Send(n, p, ad))
    ensures KnownAd(v, ad)
  {
    assert KnownTable(v, RibOf(net, n)) && (n, p) in net.reg;
    forall r | r in ad ensures r.dest.Some? && (r.dest.value.Ula? ==> r.dest.value.node in v) {
      var i :| 0 <= i < |ad| && ad[i] == r;
      var h := OwnRoutes(n, n in exits);
      if i < |h| {
        assert ad[i] == h[i];
      }
    }
  }

  lemma {:induction false} RunConfined(exits: set<Node>, net: Net, v: set<Node>, run: seq<Event>)
    requires Ordered(exits, net) && Confined(net, v) && ValidRun(exits, net, run)
    requires forall e | e in run :: SingleListed(e) && (e.Register? ==> e.n in v && e.p in v)
    ensures Ordered(exits, Exec(exits, net, run)) && Confined(Exec(exits, net, run), v)
    decreases |run|
  {
    hide Ordered, Confined, SingleListed, Step;
    if run != [] {
      assert run[0] in run;
      StepKeepsConfined(exits, net, v, run[0]);
      StepKeepsOrdered(exits, net, run[0]);
      RunConfined(exits, Step(net, run[0]), v, run[1..]);
    }
  }

  // ---- the bound ----------------------------------------------------------

  /** Writes and reads alone can go on for at most Rank steps: no refresh, no
      session event, and no advertisement that lists a default twice. */
  lemma {:induction false} TriggeredRunIsBounded(exits: set<Node>, net: Net, v: set<Node>, pairs: seq<Link>, run: seq<Event>)
    requires Ordered(exits, net) && Confined(net, v) && AllPairs(pairs, v)
    requires ValidRun(exits, net, run) && forall e | e in run :: Triggered(e) && SingleListed(e)
    ensures |run| <= Rank(exits, net, pairs)
    decreases |run|
  {
    hide Ordered, Confined, AllPairs, SingleListed, Step, Rank;
    RankNonNegative(exits, net, pairs);
    if run != [] {
      var e := run[0];
      assert e in run;
      match e {
        case Send(n, p, ad) => SendLowersRank(exits, net, v, pairs, n, p, ad);
        case Receive(n, p) => ReceiveLowersRank(exits, net, v, pairs, n, p);
      }
      StepKeepsConfined(exits, net, v, e);
      StepKeepsOrdered(exits, net, e);
      TriggeredRunIsBounded(exits, Step(net, e), v, pairs, run[1..]);
    }
  }

  lemma RankNonNegative(exits: set<Node>, net: Net, pairs: seq<Link>)
    requires Ordered(exits, net)
    ensures Rank(exits, net, pairs) >= 0
  {
    hide Ordered, Sum, Mains, Bares, Loads, Weigh;
    MainsNonNegative(exits, net, pairs);
    WeighNonNegative(Sum(Mains(exits, net), pairs), Sum(Bares(exits, net), pairs), Sum(Loads(exits, net, |pairs|), pairs), |pairs|);
  }

  lemma WeighNonNegative(mains: nat, bares: nat, loads: nat, k: nat)
    ensures Weigh(mains, bares, loads, k) >= 0
  {
  }

  /** Without exits no advertisement lists anything twice. */
  lemma NoExitListsOnce(net: Net, n: Node, p: Node, ad: Ad)
    requires Advertises(n, false, RibOf(net, n), p, ad)
    ensures SingleListed(Send(n, p, ad))
  {
    var h := OwnRoutes(n, false);
    assert |h| == 1 && ad[0] == h[0];
  }

  lemma {:induction false} NoExitRunsListOnce(net: Net, run: seq<Event>)
    requires ValidRun({}, net, run)
    ensures forall e | e in run :: SingleListed(e)
    decreases |run|
  {
    if run != [] {
      if run[0].Send? {
        NoExitListsOnce(net, run[0].n, run[0].p, run[0].ad);
      }
      NoExitRunsListOnce(Step(net, run[0]), run[1..]);
      assert forall e | e in run :: e == run[0] || e in run[1..];
    }
  }

  /** The rank bounds what follows any up-only run among the nodes of v. */
  lemma {:induction false} TriggeredUpdatesEnd(exits: set<Node>, v: set<Node>, pairs: seq<Link>, history: seq<Event>, run: seq<Event>)
    requires ValidRun(exits, Start, history) && forall e | e in history && e.Register? :: e.n in v && e.p in v
    requires AllPairs(pairs, v)
    requires ValidRun(exits, Exec(exits, Start, history), run) && forall e | e in run :: Triggered(e)
    requires exits == {} || forall e | e in history + run :: SingleListed(e)
    ensures |run| <= Rank(exits, Exec(exits, Start, history), pairs)
  {
    hide SingleListed, Rank;
    if exits == {} {
      NoExitRunsListOnce(Start, history);
      NoExitRunsListOnce(Exec(exits, Start, history), run);
    } else {
      assert forall e | e in history :: e in history + run;
      assert forall e | e in run :: e in history + run;
    }
    StartInv();
    StartInvD(exits, DefaultV6);
    StartInvD(exits, DefaultV4);
    RunConfined(exits, Start, v, history);
    TriggeredRunIsBounded(exits, Exec(exits, Start, history), v, pairs, run);
  }
}
