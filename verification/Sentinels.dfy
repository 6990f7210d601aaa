// Why exits need care: an exit that holds a default route of its own lists
// that default twice in one advertisement, at 0 and at its metric, and the
// receiver applies both in turn. A sole exit is enough: nothing stops it from
// learning its own default back from a peer.
module Sentinels {
  import opened Base
  import opened Rib

  // ---- a whole advertisement, seen from one destination -------------------

  /** The metrics at which an advertisement lists d, in order. */
  function ListingsOf(ad: Ad, d: Dest): seq<int> {
    if ad == [] then []
    else ListingsOf(ad[..|ad| - 1], d) + if ad[|ad| - 1].dest == Some(d) then [ad[|ad| - 1].metric] else []
  }

  function Fold(cur: Option<Entry>, from: Node, ls: seq<int>): Option<Entry> {
    if ls == [] then cur else ApplyListing(Fold(cur, from, ls[..|ls| - 1]), from, ls[|ls| - 1])
  }

  /** Some listing on the way alters the entry. */
  predicate Moves(cur: Option<Entry>, from: Node, ls: seq<int>) {
    ls != [] && (Moves(cur, from, ls[..|ls| - 1]) || Fold(cur, from, ls) != Fold(cur, from, ls[..|ls| - 1]))
  }

  lemma {:induction false} FoldAt(rib: Table, self: Node, from: Node, ad: Ad, d: Dest)
    requires d != Ula(self)
    ensures Lookup(ApplyRoutes(rib, self, from, ad), d) == Fold(Lookup(rib, d), from, ListingsOf(ad, d))
  {
    if ad != [] {
      var front := ad[..|ad| - 1];
      FoldAt(rib, self, from, front, d);
      if ad[|ad| - 1].dest == Some(d) {
        FoldLast(Lookup(rib, d), from, ListingsOf(front, d), ad[|ad| - 1].metric);
      } else {
        assert ListingsOf(ad, d) == ListingsOf(front, d);
      }
    }
  }

  lemma FoldLast(cur: Option<Entry>, from: Node, ls: seq<int>, m: int)
    ensures Fold(cur, from, ls + [m]) == ApplyListing(Fold(cur, from, ls), from, m)
    ensures Moves(cur, from, ls + [m]) <==> Moves(cur, from, ls) || Fold(cur, from, ls + [m]) != Fold(cur, from, ls)
  {
    assert (ls + [m])[..|ls|] == ls;
  }

  /** The handler's flag is set exactly when some destination moves on the way. */
  lemma {:induction false} MovesIff(rib: Table, self: Node, from: Node, ad: Ad)
    ensures RoutesChanged(rib, self, from, ad) <==> exists d :: d != Ula(self) && Moves(Lookup(rib, d), from, ListingsOf(ad, d))
  {
    if ad != [] {
      var front, last := ad[..|ad| - 1], ad[|ad| - 1];
      MovesIff(rib, self, from, front);
      var before := ApplyRoutes(rib, self, from, front);
      forall d | d != Ula(self)
        ensures Moves(Lookup(rib, d), from, ListingsOf(ad, d)) <==>
                Moves(Lookup(rib, d), from, ListingsOf(front, d)) ||
                (last.dest == Some(d) && ApplyRoute(before, self, from, last) != before)
      {
        MovesLast(rib, self, from, ad, d);
      }
      if ApplyRoute(before, self, from, last) != before {
        assert last.dest.Some? && last.dest.value != Ula(self);
      }
    } else {
      assert forall d :: !Moves(Lookup(rib, d), from, ListingsOf(ad, d));
    }
  }

  lemma {:induction false} MovesLast(rib: Table, self: Node, from: Node, ad: Ad, d: Dest)
    requires ad != [] && d != Ula(self)
    ensures var front, last := ad[..|ad| - 1], ad[|ad| - 1];
            var before := ApplyRoutes(rib, self, from, front);
            Moves(Lookup(rib, d), from, ListingsOf(ad, d)) <==>
            Moves(Lookup(rib, d), from, ListingsOf(front, d)) || (last.dest == Some(d) && ApplyRoute(before, self, from, last) != before)
  {
    var front, last := ad[..|ad| - 1], ad[|ad| - 1];
    FoldAt(rib, self, from, front, d);
    if last.dest == Some(d) {
      FoldLast(Lookup(rib, d), from, ListingsOf(front, d), last.metric);
      PutSame(ApplyRoutes(rib, self, from, front), d, ApplyListing(Lookup(ApplyRoutes(rib, self, from, front), d), from, last.metric));
    } else {
      assert ListingsOf(ad, d) == ListingsOf(front, d);
    }
  }

  lemma PutSame(rib: Table, d: Dest, e: Option<Entry>)
    ensures Put(rib, d, e) == rib <==> Lookup(rib, d) == e
  {
    assert Lookup(Put(rib, d, e), d) == e;
  }

  // ---- what an advertisement lists ----------------------------------------

  lemma {:induction false} ListingsConcat(a: Ad, b: Ad, d: Dest)
    ensures ListingsOf(a + b, d) == ListingsOf(a, d) + ListingsOf(b, d)
  {
    if b == [] {
      assert a + b == a;
    } else {
      assert (a + b)[..|a + b| - 1] == a + b[..|b| - 1];
      ListingsConcat(a, b[..|b| - 1], d);
    }
  }

  lemma {:induction false} ListingsOnce(ad: Ad, d: Dest)
    requires Once(ad, d)
    ensures ListingsOf(ad, d) == if Listed(ad, d).Some? then [Listed(ad, d).value] else []
  {
    if ad != [] {
      var front := ad[..|ad| - 1];
      ListingsOnce(front, d);
      ListedIffPresent(front, d);
    }
  }

  function Own(from: Node, exit: bool, d: Dest): seq<int> {
    if d == Ula(from) || (exit && !d.Ula?) then [0] else []
  }

  function Told(rib: Table, to: Node, d: Dest): seq<int> {
    if Exported(rib, to, d) then [rib[d].metric] else []
  }

  lemma {:induction false} OwnListings(from: Node, exit: bool, d: Dest)
    ensures ListingsOf(OwnRoutes(from, exit), d) == Own(from, exit, d)
  {
    ListingsSingle(Route(Some(Ula(from)), 0), d);
    if exit {
      ListingsSingle(Route(Some(DefaultV6), 0), d);
      ListingsSingle(Route(Some(DefaultV4), 0), d);
      ListingsConcat([Route(Some(DefaultV6), 0)], [Route(Some(DefaultV4), 0)], d);
      ListingsConcat([Route(Some(Ula(from)), 0)], [Route(Some(DefaultV6), 0)] + [Route(Some(DefaultV4), 0)], d);
      assert OwnRoutes(from, exit) == [Route(Some(Ula(from)), 0)] + ([Route(Some(DefaultV6), 0)] + [Route(Some(DefaultV4), 0)]);
    } else {
      assert OwnRoutes(from, exit) == [Route(Some(Ula(from)), 0)];
    }
  }

  lemma ListingsSingle(r: Route, d: Dest)
    ensures ListingsOf([r], d) == if r.dest == Some(d) then [r.metric] else []
  {
    assert [r][..0] == [];
  }

  lemma TailOnce(h: Ad, ad: Ad, d: Dest)
    requires h <= ad && forall i, j | |h| <= i < j < |ad| :: ad[i].dest != ad[j].dest
    ensures Once(ad[|h|..], d)
  {
    var tail := ad[|h|..];
    forall i, j | 0 <= i < j < |tail| ensures !(tail[i].dest == Some(d) && tail[j].dest == Some(d)) {
      assert tail[i] == ad[i + |h|] && tail[j] == ad[j + |h|];
    }
  }

  lemma TailListed(h: Ad, ad: Ad, d: Dest)
    requires h <= ad && Once(ad[|h|..], d)
    ensures forall i | |h| <= i < |ad| && ad[i].dest == Some(d) :: Listed(ad[|h|..], d) == Some(ad[i].metric)
    ensures (forall i | |h| <= i < |ad| :: ad[i].dest != Some(d)) ==> Listed(ad[|h|..], d).None?
  {
    var tail := ad[|h|..];
    forall i | |h| <= i < |ad| && ad[i].dest == Some(d) ensures Listed(tail, d) == Some(ad[i].metric) {
      assert tail[i - |h|] == ad[i];
      ListedAt(tail, d, i - |h|);
    }
    ListedIffPresent(tail, d);
    if forall i | |h| <= i < |ad| :: ad[i].dest != Some(d) {
      assert forall i | 0 <= i < |tail| :: tail[i] == ad[i + |h|];
    }
  }

  /** The part of an advertisement that passes on the sender's routes. */
  lemma {:induction false} TailTells(from: Node, exit: bool, fromRib: Table, self: Node, ad: Ad, d: Dest)
    requires Advertises(from, exit, fromRib, self, ad)
    ensures |ad| >= |OwnRoutes(from, exit)| && ad == OwnRoutes(from, exit) + ad[|OwnRoutes(from, exit)|..]
    ensures var tail := ad[|OwnRoutes(from, exit)|..];
            && Once(tail, d)
            && Listed(tail, d) == if Exported(fromRib, self, d) then Some(fromRib[d].metric) else None
  {
    hide OwnRoutes, Exported, Listed, Once;
    var h := OwnRoutes(from, exit);
    TailOnce(h, ad, d);
    TailListed(h, ad, d);
    if Exported(fromRib, self, d) {
      var i :| |h| <= i < |ad| && ad[i].dest == Some(d);
    }
  }

  /** First what the sender says of itself, then what it passes on. */
  lemma {:induction false} AdListings(from: Node, exit: bool, fromRib: Table, self: Node, ad: Ad, d: Dest)
    requires Advertises(from, exit, fromRib, self, ad)
    ensures ListingsOf(ad, d) == Own(from, exit, d) + Told(fromRib, self, d)
  {
    var h := OwnRoutes(from, exit);
    TailTells(from, exit, fromRib, self, ad, d);
    ListingsConcat(h, ad[|h|..], d);
    OwnListings(from, exit, d);
    ListingsOnce(ad[|h|..], d);
  }

  // ---- a default listed twice ---------------------------------------------

  predicate Doubled(exit: bool, fromRib: Table, self: Node, d: Dest) {
    exit && !d.Ula? && Exported(fromRib, self, d)
  }

  /** Where two listings, at 0 and at m, lead back to where they started. */
  predicate WentNowhere(cur: Option<Entry>, from: Node, m: int) {
    if m + 1 < ROUTE_INFINITY then cur == Some(Entry(from, m + 1, None)) else cur.None?
  }

  predicate OutOfReach(cur: Option<Entry>, from: Node) {
    cur.Some? && cur.value.next != from && cur.value.metric <= 1
  }

  lemma TwoListings(cur: Option<Entry>, from: Node, m: int)
    requires 1 <= m < ROUTE_INFINITY
    ensures Fold(cur, from, [0, m]) ==
            if OutOfReach(cur, from) then cur else if m + 1 < ROUTE_INFINITY then Some(Entry(from, m + 1, None)) else None
    ensures Moves(cur, from, [0, m]) <==> !OutOfReach(cur, from)
    ensures Fold(cur, from, [0, m]) == cur <==> OutOfReach(cur, from) || WentNowhere(cur, from, m)
  {
    OneListing(cur, from, 0);
    FoldLast(cur, from, [0], m);
    assert [0] + [m] == [0, m];
  }

  lemma OneListing(cur: Option<Entry>, from: Node, m: int)
    ensures Fold(cur, from, [m]) == ApplyListing(cur, from, m) && Fold(cur, from, []) == cur
    ensures Moves(cur, from, [m]) <==> ApplyListing(cur, from, m) != cur
    ensures !Moves(cur, from, [])
  {
    assert [m][..0] == [];
  }

  /** An exit hides itself: a receiver next to it ends one hop beyond the
      exit's own default instead of one hop from the exit. */
  lemma {:induction false} ExitHidesItself(rib: Table, self: Node, from: Node, fromRib: Table, ad: Ad, now: int, d: Dest)
    requires self != from && Advertises(from, true, fromRib, self, ad) && Doubled(true, fromRib, self, d) && fromRib[d].metric >= 1
    requires !OutOfReach(Lookup(rib, d), from)
    ensures Lookup(HandleRoutes(rib, self, from, ad, now), d) ==
            if fromRib[d].metric + 1 < ROUTE_INFINITY then Some(Entry(from, fromRib[d].metric + 1, None)) else None
  {
    hide Advertises;
    AdListings(from, true, fromRib, self, ad, d);
    assert Own(from, true, d) + Told(fromRib, self, d) == [0, fromRib[d].metric];
    FoldAt(InstallDirect(rib, from), self, from, ad, d);
    TwoListings(Lookup(rib, d), from, fromRib[d].metric);
    SeenIfListed(self, from, ad, d);
  }

  lemma {:induction false} SeenIfListed(self: Node, from: Node, ad: Ad, d: Dest)
    requires d != Ula(self) && d != Ula(from)
    ensures d in Seen(self, from, ad) <==> ListingsOf(ad, d) != []
  {
    ListedIffListings(ad, d);
    SeenIffListed(self, from, ad, d);
  }

  lemma {:induction false} ListedIffListings(ad: Ad, d: Dest)
    ensures Listed(ad, d).Some? <==> ListingsOf(ad, d) != []
  {
    if ad != [] {
      ListedIffListings(ad[..|ad| - 1], d);
    }
  }

  // ---- exactly when the flag lies -----------------------------------------

  /** The receiver's entry for d is what the advertisement leaves of it. */
  predicate LeavesAlone(rib: Table, from: Node, exit: bool, fromRib: Table, self: Node, d: Dest) {
    var cur := Lookup(rib, d);
    if Doubled(exit, fromRib, self, d) then OutOfReach(cur, from) || WentNowhere(cur, from, fromRib[d].metric)
    else if Own(from, exit, d) != [] then ApplyListing(cur, from, 0) == cur
    else if Exported(fromRib, self, d) then ApplyListing(cur, from, fromRib[d].metric) == cur
    else true
  }

  /** Some default is listed twice and ends where it was, and every other
      listing leaves its entry alone. */
  ghost predicate OnlyDefaultsStir(rib: Table, from: Node, exit: bool, fromRib: Table, self: Node) {
    && (exists d :: Doubled(exit, fromRib, self, d) && WentNowhere(Lookup(rib, d), from, fromRib[d].metric))
    && forall d :: d != Ula(self) ==> LeavesAlone(rib, from, exit, fromRib, self, d)
  }

  lemma {:induction false} OneDestination(rib: Table, self: Node, from: Node, exit: bool, fromRib: Table, ad: Ad, d: Dest)
    requires Advertises(from, exit, fromRib, self, ad) && Ula(from) !in fromRib && d != Ula(self)
    requires d in fromRib ==> fromRib[d].metric >= 1
    ensures Fold(Lookup(rib, d), from, ListingsOf(ad, d)) == Lookup(rib, d) <==> LeavesAlone(rib, from, exit, fromRib, self, d)
    ensures LeavesAlone(rib, from, exit, fromRib, self, d) ==>
              (Moves(Lookup(rib, d), from, ListingsOf(ad, d)) <==>
                 Doubled(exit, fromRib, self, d) && WentNowhere(Lookup(rib, d), from, fromRib[d].metric))
  {
    hide Advertises, Fold, Moves, ApplyListing, ListingsOf;
    AdListings(from, exit, fromRib, self, ad, d);
    var cur := Lookup(rib, d);
    OneListing(cur, from, 0);
    if Exported(fromRib, self, d) {
      var m := fromRib[d].metric;
      assert d != Ula(from);
      if exit && !d.Ula? {
        TwoListings(cur, from, m);
        assert Own(from, exit, d) + Told(fromRib, self, d) == [0, m];
      } else {
        OneListing(cur, from, m);
        assert Own(from, exit, d) + Told(fromRib, self, d) == [m];
      }
    } else {
      assert Own(from, exit, d) + Told(fromRib, self, d) == Own(from, exit, d);
    }
  }

  /** The flag is set although the advertisement changes no route, exactly when
      a default is listed twice and the receiver holds it one hop beyond the
      sender's own, or not at all when that would be infinity. */
  lemma {:induction false} SpuriousChangeIff(rib: Table, self: Node, from: Node, exit: bool, fromRib: Table, ad: Ad)
    requires Advertises(from, exit, fromRib, self, ad) && Ula(from) !in fromRib && forall d | d in fromRib :: fromRib[d].metric >= 1
    ensures RoutesChanged(rib, self, from, ad) && ApplyRoutes(rib, self, from, ad) == rib <==>
            OnlyDefaultsStir(rib, from, exit, fromRib, self)
  {
    hide Advertises, LeavesAlone, Moves, RoutesChanged, Fold, ListingsOf, ApplyRoutes, WentNowhere;
    MovesIff(rib, self, from, ad);
    SelfUntouched(rib, self, from, ad);
    forall d | d != Ula(self)
      ensures Lookup(ApplyRoutes(rib, self, from, ad), d) == Lookup(rib, d) <==> LeavesAlone(rib, from, exit, fromRib, self, d)
      ensures LeavesAlone(rib, from, exit, fromRib, self, d) ==>
                (Moves(Lookup(rib, d), from, ListingsOf(ad, d)) <==>
                   Doubled(exit, fromRib, self, d) && WentNowhere(Lookup(rib, d), from, fromRib[d].metric))
    {
      FoldAt(rib, self, from, ad, d);
      OneDestination(rib, self, from, exit, fromRib, ad, d);
    }
    if forall d :: d != Ula(self) ==> LeavesAlone(rib, from, exit, fromRib, self, d) {
      assert forall d :: Lookup(ApplyRoutes(rib, self, from, ad), d) == Lookup(rib, d);
      EqualTables(ApplyRoutes(rib, self, from, ad), rib);
    }
  }

  lemma EqualTables(a: Table, b: Table)
    requires forall d :: Lookup(a, d) == Lookup(b, d)
    ensures a == b
  {
    forall d ensures d in a <==> d in b {
      assert Lookup(a, d) == Lookup(b, d);
    }
    forall d | d in a ensures a[d] == b[d] {
      assert Lookup(a, d) == Lookup(b, d);
    }
  }

  /** No omitted route of the sender is due for a mark or for deletion. */
  predicate NothingDue(rib: Table, from: Node, seen: set<Dest>, now: int) {
    forall d | d in rib && Omitted(rib[d], from, seen, d) :: rib[d].stale.Some? && !Expired(rib[d], now)
  }

  lemma WithdrawNothing(rib: Table, from: Node, seen: set<Dest>, now: int)
    ensures Withdraw(rib, from, seen, now) == rib <==> NothingDue(rib, from, seen, now)
  {
    if Withdraw(rib, from, seen, now) == rib {
      forall d | d in rib && Omitted(rib[d], from, seen, d) ensures rib[d].stale.Some? && !Expired(rib[d], now) {
        assert d in Withdraw(rib, from, seen, now);
      }
    }
  }

  predicate DirectKnown(rib: Table, from: Node) {
    Ula(from) in rib && rib[Ula(from)].next == from && rib[Ula(from)].metric == 1
  }

  /** The same for the whole handler: it re-advertises an unchanged table
      exactly when, besides, the sender is known to be one hop away and
      nothing of its routes is due for withdrawal. */
  lemma {:induction false} FlagWithoutChangeIff(rib: Table, self: Node, from: Node, exit: bool, fromRib: Table, ad: Ad, now: int)
    requires self != from && Advertises(from, exit, fromRib, self, ad)
    requires Ula(from) !in fromRib && forall d | d in fromRib :: fromRib[d].metric >= 1
    ensures Changed(rib, self, from, ad, now) && HandleRoutes(rib, self, from, ad, now) == rib <==>
            && DirectKnown(rib, from) && NothingDue(rib, from, Seen(self, from, ad), now)
            && OnlyDefaultsStir(rib, from, exit, fromRib, self)
  {
    SpuriousChangeIff(rib, self, from, exit, fromRib, ad);
    WithdrawNothing(rib, from, Seen(self, from, ad), now);
    hide OnlyDefaultsStir, RoutesChanged, NothingDue;
    if HandleRoutes(rib, self, from, ad, now) == rib {
      SenderDirect(rib, self, from, exit, fromRib, ad, now);
      hide Advertises;
      assert InstallDirect(rib, from) == rib;
      AppliedAlone(rib, self, from, ad, now);
    } else if DirectKnown(rib, from) {
      assert InstallDirect(rib, from) == rib;
    }
  }

  lemma {:induction false} SenderDirect(rib: Table, self: Node, from: Node, exit: bool, fromRib: Table, ad: Ad, now: int)
    requires self != from && Advertises(from, exit, fromRib, self, ad) && Ula(from) !in fromRib
    ensures Lookup(HandleRoutes(rib, self, from, ad, now), Ula(from)) == Some(Entry(from, 1, None))
  {
    AdvertisedUla(from, exit, fromRib, self, ad, from);
    HandleRoutesAtPeer(rib, self, from, ad, now);
  }

  /** Withdrawal cannot undo a listing: if the table comes out unchanged, the
      listings left it so. */
  lemma {:induction false} AppliedAlone(rib: Table, self: Node, from: Node, ad: Ad, now: int)
    requires self != from && InstallDirect(rib, from) == rib && HandleRoutes(rib, self, from, ad, now) == rib
    ensures ApplyRoutes(rib, self, from, ad) == rib
  {
    hide RoutesChanged;
    var applied := ApplyRoutes(rib, self, from, ad);
    var seen := Seen(self, from, ad);
    forall d ensures Lookup(applied, d) == Lookup(rib, d) {
      if d == Ula(self) {
        SelfUntouched(rib, self, from, ad);
      } else if d !in seen {
        FoldAt(rib, self, from, ad, d);
        SeenIfListed(self, from, ad, d);
      } else {
        assert Lookup(Withdraw(applied, from, seen, now), d) == Lookup(applied, d);
      }
    }
    EqualTables(applied, rib);
  }

  /** The IPv6 default as an instance: self's route ends where it started, yet
      the handler counts a change and advertises again. */
  lemma {:induction false} SettledDefaultReadvertises(rib: Table, self: Node, from: Node, fromRib: Table, ad: Ad, now: int)
    requires self != from && Advertises(from, true, fromRib, self, ad)
    requires Exported(fromRib, self, DefaultV6) && 0 < fromRib[DefaultV6].metric < ROUTE_INFINITY - 1
    requires Lookup(rib, DefaultV6) == Some(Entry(from, fromRib[DefaultV6].metric + 1, None))
    ensures Lookup(HandleRoutes(rib, self, from, ad, now), DefaultV6) == Lookup(rib, DefaultV6)
    ensures Changed(rib, self, from, ad, now)
  {
    hide Advertises, RoutesChanged;
    var m := fromRib[DefaultV6].metric;
    ExitHidesItself(rib, self, from, fromRib, ad, now, DefaultV6);
    AdListings(from, true, fromRib, self, ad, DefaultV6);
    assert Own(from, true, DefaultV6) + Told(fromRib, self, DefaultV6) == [0, m];
    TwoListings(Lookup(rib, DefaultV6), from, m);
    MovesIff(InstallDirect(rib, from), self, from, ad);
    assert Moves(Lookup(InstallDirect(rib, from), DefaultV6), from, ListingsOf(ad, DefaultV6));
  }
}
