// One node's routing state as the program keeps it: a session map and a route
// table updated in place, and a control stream to write to.
module Router {
  import opened Base
  import opened Rib

  /** A session object. Two sessions to one peer differ in their serial. */
  datatype Session = Session(peer: Node, serial: nat)

  /** Exactly one advertisement of the table for each session, in any order. */
  ghost predicate Announces(self: Node, exit: bool, rib: Table, to: set<Session>, out: seq<(Session, Ad)>) {
    && (forall i | 0 <= i < |out| :: out[i].0 in to && Advertises(self, exit, rib, out[i].0.peer, out[i].1))
    && (forall s | s in to :: exists i :: 0 <= i < |out| && out[i].0 == s)
    && (forall i, j | 0 <= i < j < |out| :: out[i].0 != out[j].0)
  }

  /** An announcement tells every session once, and each what a reader makes of
      it: the node itself at 0, and of any other node the metric held, unless
      the route leads through that very peer or is infinite. */
  lemma {:induction false} AnnouncedToAll(self: Node, exit: bool, rib: Table, to: set<Session>, out: seq<(Session, Ad)>)
    requires Announces(self, exit, rib, to, out) && Ula(self) !in rib
    ensures |out| == |to|
    ensures forall s | s in to :: exists i :: 0 <= i < |out| && out[i].0 == s
    ensures forall i, x | 0 <= i < |out| ::
              Listed(out[i].1, Ula(x)) ==
                if x == self then Some(0)
                else if Ula(x) in rib && rib[Ula(x)].next != out[i].0.peer && rib[Ula(x)].metric < 16 then Some(rib[Ula(x)].metric)
                else None
  {
    var told := seq(|out|, i requires 0 <= i < |out| => out[i].0);
    forall s ensures s in told <==> s in to {
      if s in to {
        var i :| 0 <= i < |out| && out[i].0 == s;
        assert told[i] == s;
      }
    }
    EnumerationSize(told, to);
    forall i, x | 0 <= i < |out|
      ensures Listed(out[i].1, Ula(x)) ==
                if x == self then Some(0) else if Exported(rib, out[i].0.peer, Ula(x)) then Some(rib[Ula(x)].metric) else None
    {
      AdvertisedUla(self, exit, rib, out[i].0.peer, out[i].1, x);
    }
  }

  /** The live session of the entry's next hop, if there is an entry below
      infinity and its peer is connected. */
  function LiveNextHop(rib: Table, sessions: map<Node, Session>, d: Dest): Option<Session> {
    if d in rib && rib[d].metric < ROUTE_INFINITY && rib[d].next in sessions then Some(sessions[rib[d].next])
    else None
  }

  /** The live next hop, else a session to the destination itself; never back
      through the session the packet came from. */
  function PickNextHop(rib: Table, sessions: map<Node, Session>, dst: Node, from: Option<Session>): Option<Session> {
    var r := LiveNextHop(rib, sessions, Ula(dst));
    if r.Some? && r != from then r
    else if dst in sessions && Some(sessions[dst]) != from then Some(sessions[dst])
    else None
  }

  /** Every route via another peer than p is as it was, and no other is left. */
  ghost predicate OnlyOthersLeft(before: Table, after: Table, p: Node) {
    forall d :: if d in before && before[d].next != p then d in after && after[d] == before[d] else d !in after
  }

  class Router {
    const self: Node
    const exit: bool
    var sessions: map<Node, Session>
    var routes: Table
    var outbox: seq<(Session, Ad)>   // advertisements written, oldest first

    constructor (self: Node, exit: bool)
      ensures this.self == self && this.exit == exit
      ensures sessions == map[] && routes == map[] && outbox == []
    {
      this.self := self;
      this.exit := exit;
      sessions := map[];
      routes := map[];
      outbox := [];
    }

    /** The live session of a peer replaces an older one. */
    method Establish(s: Session) returns (old_: Option<Session>)
      modifies this`sessions
      ensures sessions == old(sessions)[s.peer := s]
      ensures old_ == if s.peer in old(sessions) then Some(old(sessions)[s.peer]) else None
    {
      old_ := None;
      if s.peer in sessions {
        old_ := Some(sessions[s.peer]);
        sessions := sessions - {s.peer};
      }
      sessions := sessions[s.peer := s];
    }

    method OnSessionUp(s: Session)
      modifies this`routes, this`outbox
      ensures routes == InstallPeer(old(routes), s.peer)
      ensures exists first, rest ::
                && outbox == old(outbox) + [(s, first)] + rest
                && Advertises(self, exit, routes, s.peer, first)
                && Announces(self, exit, routes, sessions.Values, rest)
    {
      routes := routes[Ula(s.peer) := Entry(s.peer, 1, None)];
      var first := SendRoutesTo(s);
      label sent:
      var rest := AdvertiseRoutes();
      assert outbox == old(outbox) + [(s, first)] + rest;
    }

    /** Deletes every route through p. */
    method DeleteVia(p: Node) returns (changed: bool)
      modifies this`routes
      ensures routes == DropVia(old(routes), p) && OnlyOthersLeft(old(routes), routes, p)
      ensures changed <==> routes != old(routes)
    {
      changed := false;
      var todo := routes.Keys;
      ghost var target := DropVia(routes, p);
      while todo != {}
        invariant todo <= old(routes).Keys
        invariant forall d :: Lookup(routes, d) == if d in todo then Lookup(old(routes), d) else Lookup(target, d)
        invariant if changed then target != old(routes) else routes == old(routes)
        decreases |todo|
      {
        var d :| d in todo;
        assert Lookup(routes, d) == Lookup(old(routes), d);
        todo := todo - {d};
        if routes[d].next == p {
          routes := routes - {d};
          changed := true;
          assert d in old(routes) && d !in target;
        }
      }
      assert forall d :: Lookup(routes, d) == Lookup(target, d);
      SameLookups(routes, target);
    }

    /** A teardown withdraws the peer's routes, unless a newer session has
        taken the peer over; the withdrawal is announced. */
    method OnSessionDown(s: Session)
      modifies this`routes, this`outbox
      ensures var replaced := s.peer in sessions && sessions[s.peer] != s;
              if replaced then routes == old(routes) else routes == DropVia(old(routes), s.peer) && OnlyOthersLeft(old(routes), routes, s.peer)
      ensures if routes == old(routes) then outbox == old(outbox)
              else exists out :: outbox == old(outbox) + out && Announces(self, exit, routes, sessions.Values, out)
    {
      if s.peer in sessions && sessions[s.peer] != s {
        return;
      }
      var changed := DeleteVia(s.peer);
      if changed {
        var out := AdvertiseRoutes();
      }
    }

    /** Leaving the read loop: unregister, if still registered, then tear down. */
    method ReadLoopExit(s: Session)
      modifies this
      ensures sessions == if s.peer in old(sessions) && old(sessions)[s.peer] == s then old(sessions) - {s.peer} else old(sessions)
      ensures if s.peer in sessions then routes == old(routes)
              else routes == DropVia(old(routes), s.peer) && OnlyOthersLeft(old(routes), routes, s.peer)
      ensures if routes == old(routes) then outbox == old(outbox)
              else exists out :: outbox == old(outbox) + out && Announces(self, exit, routes, sessions.Values, out)
    {
      if s.peer in sessions && sessions[s.peer] == s {
        sessions := sessions - {s.peer};
      }
      OnSessionDown(s);
    }

    method HandleRoutes(from: Session, ad: Ad, now: int)
      modifies this`routes, this`outbox
      ensures routes == Rib.HandleRoutes(old(routes), self, from.peer, ad, now)
      ensures if !Changed(old(routes), self, from.peer, ad, now) then outbox == old(outbox)
              else exists out :: outbox == old(outbox) + out && Announces(self, exit, routes, sessions.Values, out)
    {
      var changed := false;
      var peer := Ula(from.peer);
      if peer !in routes || routes[peer].next != from.peer || routes[peer].metric != 1 {
        routes := routes[peer := Entry(from.peer, 1, None)];
        changed := true;
      }
      ghost var direct := routes;
      var seen := {peer};
      for i := 0 to |ad|
        invariant routes == ApplyRoutes(direct, self, from.peer, ad[..i])
        invariant changed <==> direct != old(routes) || RoutesChanged(direct, self, from.peer, ad[..i])
        invariant seen == Seen(self, from.peer, ad[..i])
        invariant outbox == old(outbox)
      {
        assert ad[..i + 1][..i] == ad[..i];
        assert forall r :: r in ad[..i + 1] <==> r in ad[..i] || r == ad[i];
        ghost var before := routes;
        if ad[i].dest.None? {
          continue;
        }
        var dest := ad[i].dest.value;
        if dest == Ula(self) {
          continue;
        }
        seen := seen + {dest};
        var metric := ad[i].metric + 1;
        if ad[i].metric >= ROUTE_INFINITY || metric >= ROUTE_INFINITY {
          if dest in routes && routes[dest].next == from.peer {
            routes := routes - {dest};
            changed := true;
          }
        } else if dest !in routes || routes[dest].next == from.peer || metric < routes[dest].metric {
          if dest !in routes || routes[dest].next != from.peer || routes[dest].metric != metric || routes[dest].stale.Some? {
            routes := routes[dest := Entry(from.peer, metric, None)];
            changed := true;
            assert Lookup(routes, dest) != Lookup(before, dest);
          }
        }
        assert routes == ApplyRoute(before, self, from.peer, ad[i]);
      }
      assert ad[..|ad|] == ad;
      changed := WithdrawMissing(from.peer, seen, now, changed);
      if changed {
        var out := AdvertiseRoutes();
      }
    }

    /** The closing loop of HandleRoutes: mark or delete what `from` omitted. */
    method WithdrawMissing(from: Node, seen: set<Dest>, now: int, changed: bool) returns (changed': bool)
      modifies this`routes
      ensures routes == Withdraw(old(routes), from, seen, now)
      ensures changed' <==> changed || routes.Keys != old(routes).Keys
    {
      changed' := changed;
      var todo := routes.Keys;
      ghost var target := Withdraw(routes, from, seen, now);
      while todo != {}
        invariant todo <= old(routes).Keys
        invariant forall d :: Lookup(routes, d) == if d in todo then Lookup(old(routes), d) else Lookup(target, d)
        invariant changed' <==> changed || exists d :: d in old(routes) && d !in todo && d !in target
        decreases |todo|
      {
        var d :| d in todo;
        assert Lookup(routes, d) == Lookup(old(routes), d);
        todo := todo - {d};
        var deleted := SweepOne(d, from, seen, now);
        if deleted {
          changed' := true;
          assert d in old(routes) && d !in todo && d !in target;
        }
      }
      SameLookups(routes, target);
    }

    method SweepOne(d: Dest, from: Node, seen: set<Dest>, now: int) returns (deleted: bool)
      requires d in routes
      modifies this`routes
      ensures var e := old(routes)[d];
              var swept := Swept(e, Omitted(e, from, seen, d), now);
              routes == Put(old(routes), d, swept) && deleted == swept.None?
    {
      deleted := false;
      var e := routes[d];
      if e.next != from || d in seen {
        return;
      }
      if e.stale.None? {
        routes := routes[d := e.(stale := Some(now))];
        return;
      }
      if now - e.stale.value >= HOLDDOWN {
        routes := routes - {d};
        deleted := true;
      }
    }

    method ExpireStaleRoutes(now: int)
      modifies this`routes, this`outbox
      ensures routes == Expire(old(routes), now)
      ensures if routes == old(routes) then outbox == old(outbox)
              else exists out :: outbox == old(outbox) + out && Announces(self, exit, routes, sessions.Values, out)
    {
      var changed := false;
      var todo := routes.Keys;
      ghost var target := Expire(routes, now);
      while todo != {}
        invariant todo <= old(routes).Keys
        invariant forall d :: Lookup(routes, d) == if d in todo then Lookup(old(routes), d) else Lookup(target, d)
        invariant changed <==> exists d :: d in old(routes) && d !in todo && d !in target
        invariant outbox == old(outbox)
        decreases |todo|
      {
        var d :| d in todo;
        assert Lookup(routes, d) == Lookup(old(routes), d);
        todo := todo - {d};
        if routes[d].stale.None? || now - routes[d].stale.value < HOLDDOWN {
          continue;
        }
        routes := routes - {d};
        changed := true;
        assert d in old(routes) && d !in todo && d !in target;
      }
      assert forall d :: Lookup(routes, d) == Lookup(target, d);
      SameLookups(routes, target);
      if changed {
        var out := AdvertiseRoutes();
      }
    }

    method AdvertiseRoutes() returns (ghost out: seq<(Session, Ad)>)
      modifies this`outbox
      ensures outbox == old(outbox) + out
      ensures Announces(self, exit, routes, sessions.Values, out)
    {
      out := [];
      var todo := sessions.Values;
      while todo != {}
        invariant todo <= sessions.Values
        invariant outbox == old(outbox) + out
        invariant Announces(self, exit, routes, sessions.Values - todo, out)
        decreases |todo|
      {
        var s :| s in todo;
        var ad := SendRoutesTo(s);
        ghost var before, todo' := out, todo;
        out := out + [(s, ad)];
        assert out[|before|].0 == s;
        assert forall i | 0 <= i < |before| :: out[i] == before[i];
        todo := todo - {s};
        forall t | t in sessions.Values - todo ensures exists i :: 0 <= i < |out| && out[i].0 == t {
          if t != s {
            assert t in sessions.Values - todo';
            var i :| 0 <= i < |before| && before[i].0 == t;
            assert out[i].0 == t;
          }
        }
      }
      assert sessions.Values - todo == sessions.Values;
    }

    method SendRoutesTo(s: Session) returns (ad: Ad)
      modifies this`outbox
      ensures outbox == old(outbox) + [(s, ad)]
      ensures Advertises(self, exit, routes, s.peer, ad)
    {
      ad := [Route(Some(Ula(self)), 0)];
      if exit {
        ad := ad + [Route(Some(DefaultV6), 0), Route(Some(DefaultV4), 0)];
      }
      ghost var h := OwnRoutes(self, exit);
      var todo := routes.Keys;
      while todo != {}
        invariant todo <= routes.Keys && h <= ad
        invariant forall i | |h| <= i < |ad| ::
                    ad[i].dest.Some? && ad[i].dest.value !in todo && Exported(routes, s.peer, ad[i].dest.value)
                    && ad[i].metric == routes[ad[i].dest.value].metric
        invariant forall d | d !in todo && Exported(routes, s.peer, d) :: exists i :: |h| <= i < |ad| && ad[i].dest == Some(d)
        invariant forall i, j | |h| <= i < j < |ad| :: ad[i].dest != ad[j].dest
        decreases |todo|
      {
        var d :| d in todo;
        todo := todo - {d};
        var e := routes[d];
        if e.next == s.peer {
          continue;
        }
        if e.metric >= ROUTE_INFINITY {
          continue;
        }
        ghost var before := ad;
        ad := ad + [Route(Some(d), e.metric)];
        assert ad[|before|].dest == Some(d);
        assert forall i | 0 <= i < |before| :: ad[i] == before[i];
      }
      outbox := outbox + [(s, ad)];
    }

    method RouteNextHop(d: Dest) returns (s: Option<Session>)
      ensures s == LiveNextHop(routes, sessions, d)
    {
      if d !in routes || routes[d].metric >= ROUTE_INFINITY {
        return None;
      }
      var next := routes[d].next;
      s := if next in sessions then Some(sessions[next]) else None;
    }

    /** Where to send a packet for dst that came from `from`. */
    method NextHop(dst: Node, from: Option<Session>) returns (s: Option<Session>)
      ensures s == PickNextHop(routes, sessions, dst, from)
    {
      s := RouteNextHop(Ula(dst));
      if s.Some? && s != from {
        return;
      }
      var todo := sessions.Keys;
      while todo != {}
        invariant todo <= sessions.Keys
        invariant dst in sessions && dst !in todo ==> Some(sessions[dst]) == from
        decreases |todo|
      {
        var p :| p in todo;
        todo := todo - {p};
        if Some(sessions[p]) == from {
          continue;
        }
        if p == dst {
          return Some(sessions[p]);
        }
      }
      s := None;
    }

    function RouteMetric(x: Node): int
      reads this`routes
    {
      if x == self then 0 else if Ula(x) in routes then routes[Ula(x)].metric else -1
    }
  }

  lemma SameLookups(a: Table, b: Table)
    requires forall d :: Lookup(a, d) == Lookup(b, d)
    ensures a == b
  {
    forall d ensures d in a <==> d in b {
      assert Lookup(a, d) == Lookup(b, d);
    }
    forall d | d in a ensures a[d] == b[d] {
      assert Lookup(a, d) == Lookup(b, d);
    }
  }
}
