// The distance-vector table of one node: internal/node/route.go as functions
// on values. The class in Router.dfy is proved against these functions.
module Rib {
  import opened Base

  const ROUTE_INFINITY := 16
  const HOLDDOWN := 3000 // milliseconds

  /** A key of the table: a mesh ULA or one of the two default-route sentinels. */
  datatype Dest = Ula(node: Node) | DefaultV6 | DefaultV4

  /** One advertised destination. None stands for text that is neither a
      sentinel nor a mesh ULA, or that names the resolver. */
  datatype Route = Route(dest: Option<Dest>, metric: int)

  datatype Entry = Entry(next: Node, metric: int, stale: Option<int>)

  type Table = map<Dest, Entry>
  type Ad = seq<Route>

  function Lookup(rib: Table, d: Dest): Option<Entry> {
    if d in rib then Some(rib[d]) else None
  }

  function Put(rib: Table, d: Dest, e: Option<Entry>): Table {
    match e
    case None => rib - {d}
    case Some(v) => rib[d := v]
  }

  predicate Via(e: Option<Entry>, p: Node) {
    e.Some? && e.value.next == p
  }

  // ---- session up, session down, holddown expiry --------------------------

  function InstallPeer(rib: Table, p: Node): Table {
    rib[Ula(p) := Entry(p, 1, None)]
  }

  function DropVia(rib: Table, p: Node): Table {
    map d | d in rib && rib[d].next != p :: rib[d]
  }

  predicate Expired(e: Entry, now: int) {
    e.stale.Some? && now - e.stale.value >= HOLDDOWN
  }

  function Expire(rib: Table, now: int): Table {
    map d | d in rib && !Expired(rib[d], now) :: rib[d]
  }

  // ---- a received advertisement -------------------------------------------

  function InstallDirect(rib: Table, p: Node): Table {
    var cur := Lookup(rib, Ula(p));
    if cur.None? || cur.value.next != p || cur.value.metric != 1 then InstallPeer(rib, p) else rib
  }

  /** What one listing with the given metric does to the entry it names. */
  function ApplyListing(cur: Option<Entry>, from: Node, metric: int): Option<Entry> {
    if metric + 1 >= ROUTE_INFINITY then
      if Via(cur, from) then None else cur
    else if cur.None? || cur.value.next == from || metric + 1 < cur.value.metric then
      Some(Entry(from, metric + 1, None))
    else
      cur
  }

  function ApplyRoute(rib: Table, self: Node, from: Node, r: Route): Table {
    if r.dest.None? || r.dest.value == Ula(self) then rib
    else Put(rib, r.dest.value, ApplyListing(Lookup(rib, r.dest.value), from, r.metric))
  }

  function ApplyRoutes(rib: Table, self: Node, from: Node, ad: Ad): Table {
    if ad == [] then rib
    else ApplyRoute(ApplyRoutes(rib, self, from, ad[..|ad| - 1]), self, from, ad[|ad| - 1])
  }

  /** Some listing of the advertisement altered the table. */
  predicate RoutesChanged(rib: Table, self: Node, from: Node, ad: Ad) {
    ad != [] &&
    var before := ApplyRoutes(rib, self, from, ad[..|ad| - 1]);
    RoutesChanged(rib, self, from, ad[..|ad| - 1]) || ApplyRoute(before, self, from, ad[|ad| - 1]) != before
  }

  function Seen(self: Node, from: Node, ad: Ad): set<Dest> {
    {Ula(from)} + set r | r in ad && r.dest.Some? && r.dest.value != Ula(self) :: r.dest.value
  }

  /** Implicit withdraw: an omitted route is marked, then deleted once the
      mark is HOLDDOWN old. */
  function Swept(e: Entry, omitted: bool, now: int): Option<Entry> {
    if !omitted then Some(e)
    else if e.stale.None? then Some(e.(stale := Some(now)))
    else if Expired(e, now) then None
    else Some(e)
  }

  predicate Omitted(e: Entry, from: Node, seen: set<Dest>, d: Dest) {
    e.next == from && d !in seen
  }

  function Withdraw(rib: Table, from: Node, seen: set<Dest>, now: int): Table {
    map d | d in rib && Swept(rib[d], Omitted(rib[d], from, seen, d), now).Some? ::
      Swept(rib[d], Omitted(rib[d], from, seen, d), now).value
  }

  function HandleRoutes(rib: Table, self: Node, from: Node, ad: Ad, now: int): Table {
    Withdraw(ApplyRoutes(InstallDirect(rib, from), self, from, ad), from, Seen(self, from, ad), now)
  }

  /** The handler's `changed` accumulator: whether it re-advertises. */
  predicate Changed(rib: Table, self: Node, from: Node, ad: Ad, now: int) {
    var direct := InstallDirect(rib, from);
    var applied := ApplyRoutes(direct, self, from, ad);
    direct != rib || RoutesChanged(direct, self, from, ad) ||
    Withdraw(applied, from, Seen(self, from, ad), now).Keys != applied.Keys
  }

  // ---- the advertisement sent ---------------------------------------------

  function OwnRoutes(self: Node, exit: bool): Ad {
    [Route(Some(Ula(self)), 0)] +
    (if exit then [Route(Some(DefaultV6), 0), Route(Some(DefaultV4), 0)] else [])
  }

  /** Split horizon: routes learned via `to` are not told to `to`. */
  predicate Exported(rib: Table, to: Node, d: Dest) {
    d in rib && rib[d].next != to && rib[d].metric < ROUTE_INFINITY
  }

  /** `ad` is an advertisement the node may send to `to`: its own header, then
      every exported entry once, in any order (map iteration order is free). */
  ghost predicate Advertises(self: Node, exit: bool, rib: Table, to: Node, ad: Ad) {
    var h := OwnRoutes(self, exit);
    && h <= ad
    && (forall i | |h| <= i < |ad| :: ad[i].dest.Some? && Exported(rib, to, ad[i].dest.value)
                                      && ad[i].metric == rib[ad[i].dest.value].metric)
    && (forall d | Exported(rib, to, d) :: exists i :: |h| <= i < |ad| && ad[i].dest == Some(d))
    && (forall i, j | |h| <= i < j < |ad| :: ad[i].dest != ad[j].dest)
  }

  // ---- the view of one destination ----------------------------------------

  /** The metric of the last listing of d, if any. */
  function Listed(ad: Ad, d: Dest): Option<int> {
    if ad == [] then None
    else if ad[|ad| - 1].dest == Some(d) then Some(ad[|ad| - 1].metric)
    else Listed(ad[..|ad| - 1], d)
  }

  ghost predicate Once(ad: Ad, d: Dest) {
    forall i, j | 0 <= i < j < |ad| :: !(ad[i].dest == Some(d) && ad[j].dest == Some(d))
  }

  /** What an advertisement listing d at most once does to the entry for d. */
  function Update(cur: Option<Entry>, from: Node, listed: Option<int>, now: int): Option<Entry> {
    match listed
    case Some(m) => ApplyListing(cur, from, m)
    case None =>
      if !Via(cur, from) then cur
      else if cur.value.stale.None? then Some(cur.value.(stale := Some(now)))
      else if Expired(cur.value, now) then None
      else cur
  }

  lemma {:induction false} ListedIffPresent(ad: Ad, d: Dest)
    ensures Listed(ad, d).Some? <==> exists i :: 0 <= i < |ad| && ad[i].dest == Some(d)
    ensures Listed(ad, d).Some? ==> exists i :: 0 <= i < |ad| && ad[i] == Route(Some(d), Listed(ad, d).value)
  {
    if ad != [] && ad[|ad| - 1].dest != Some(d) {
      var front := ad[..|ad| - 1];
      ListedIffPresent(front, d);
      assert forall i | 0 <= i < |front| :: front[i] == ad[i];
    } else if ad != [] {
      assert ad[|ad| - 1] == Route(Some(d), ad[|ad| - 1].metric);
    }
  }

  lemma {:induction false} ListedAt(ad: Ad, d: Dest, i: nat)
    requires i < |ad| && ad[i].dest == Some(d) && Once(ad, d)
    ensures Listed(ad, d) == Some(ad[i].metric)
  {
    if i < |ad| - 1 {
      var front := ad[..|ad| - 1];
      assert ad[|ad| - 1].dest != Some(d);
      ListedAt(front, d, i);
    }
  }

  lemma {:induction false} ApplyRoutesAt(rib: Table, self: Node, from: Node, ad: Ad, d: Dest)
    requires d != Ula(self) && Once(ad, d)
    ensures Lookup(ApplyRoutes(rib, self, from, ad), d) ==
            (match Listed(ad, d) case Some(m) => ApplyListing(Lookup(rib, d), from, m) case None => Lookup(rib, d))
  {
    if ad != [] {
      var front := ad[..|ad| - 1];
      ApplyRoutesAt(rib, self, from, front, d);
      if ad[|ad| - 1].dest == Some(d) {
        ListedIffPresent(front, d);
        assert Listed(front, d).None?;
      }
    }
  }

  lemma {:induction false} SelfUntouched(rib: Table, self: Node, from: Node, ad: Ad)
    ensures Lookup(ApplyRoutes(rib, self, from, ad), Ula(self)) == Lookup(rib, Ula(self))
  {
    if ad != [] {
      SelfUntouched(rib, self, from, ad[..|ad| - 1]);
    }
  }

  lemma SeenIffListed(self: Node, from: Node, ad: Ad, d: Dest)
    requires d != Ula(self)
    ensures d in Seen(self, from, ad) <==> d == Ula(from) || Listed(ad, d).Some?
  {
  }

  /** The handler, seen from one destination listed at most once. */
  lemma HandleRoutesAt(rib: Table, self: Node, from: Node, ad: Ad, now: int, d: Dest)
    requires from != self && d != Ula(self) && d != Ula(from) && Once(ad, d)
    ensures Lookup(HandleRoutes(rib, self, from, ad, now), d) == Update(Lookup(rib, d), from, Listed(ad, d), now)
  {
    var direct := InstallDirect(rib, from);
    ApplyRoutesAt(direct, self, from, ad, d);
    SeenIffListed(self, from, ad, d);
  }

  lemma HandleRoutesAtPeer(rib: Table, self: Node, from: Node, ad: Ad, now: int)
    requires from != self && Once(ad, Ula(from))
    ensures Lookup(HandleRoutes(rib, self, from, ad, now), Ula(from)) ==
            (match Listed(ad, Ula(from))
             case Some(m) => if m + 1 >= ROUTE_INFINITY then None else Some(Entry(from, m + 1, None))
             case None => Lookup(InstallDirect(rib, from), Ula(from)))
  {
    ApplyRoutesAt(InstallDirect(rib, from), self, from, ad, Ula(from));
  }

  lemma HandleRoutesAtSelf(rib: Table, self: Node, from: Node, ad: Ad, now: int)
    requires from != self && Ula(self) !in rib
    ensures Ula(self) !in HandleRoutes(rib, self, from, ad, now)
  {
    SelfUntouched(InstallDirect(rib, from), self, from, ad);
  }

  /** An unset `changed` flag means nothing but holddown marks moved. */
  lemma UnchangedKeepsRoutes(rib: Table, self: Node, from: Node, ad: Ad, now: int, d: Dest)
    requires !Changed(rib, self, from, ad, now)
    ensures Lookup(rib, d).None? <==> Lookup(HandleRoutes(rib, self, from, ad, now), d).None?
    ensures d in rib ==> var e := HandleRoutes(rib, self, from, ad, now)[d]; e.next == rib[d].next && e.metric == rib[d].metric
  {
    UnchangedRoutes(rib, self, from, ad);
  }

  lemma {:induction false} UnchangedRoutes(rib: Table, self: Node, from: Node, ad: Ad)
    requires !RoutesChanged(rib, self, from, ad)
    ensures ApplyRoutes(rib, self, from, ad) == rib
  {
    if ad != [] {
      UnchangedRoutes(rib, self, from, ad[..|ad| - 1]);
    }
  }

  /** What the receiver reads off an honest advertisement about a ULA. */
  lemma AdvertisedUla(self: Node, exit: bool, rib: Table, to: Node, ad: Ad, x: Node)
    requires Advertises(self, exit, rib, to, ad) && Ula(self) !in rib
    ensures Once(ad, Ula(x))
    ensures Listed(ad, Ula(x)) ==
            if x == self then Some(0)
            else if Exported(rib, to, Ula(x)) then Some(rib[Ula(x)].metric) else None
  {
    hide Listed;
    var h := OwnRoutes(self, exit);
    assert forall i | 0 <= i < |h| :: ad[i] == h[i];
    if x == self {
      ListedAt(ad, Ula(x), 0);
    } else if Exported(rib, to, Ula(x)) {
      var i :| |h| <= i < |ad| && ad[i].dest == Some(Ula(x));
      ListedAt(ad, Ula(x), i);
    } else {
      ListedIffPresent(ad, Ula(x));
    }
  }
}
