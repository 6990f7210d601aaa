// Counting to infinity is bounded: on a fixed topology every table tells the
// truth after fifteen epochs, whatever stale routes were about before.
module Decay {
  import opened Base
  import opened Rib
  import opened Distance
  import opened Mesh

  /** No session changes: the topology is what is registered. */
  predicate Fixed(e: Event) {
    !e.Register? && !e.Up?
  }

  ghost predicate FixedRun(exits: set<Node>, net: Net, run: seq<Event>) {
    ValidRun(exits, net, run) && forall e | e in run :: Fixed(e)
  }

  /** A table's route to x: through a registered session, below infinity, and
      marked, if at all, in the past. No node has a route to itself. */
  predicate RouteSane(net: Net, n: Node, x: Node) {
    && Ula(n) !in RibOf(net, n)
    && (Ula(x) in RibOf(net, n) ==>
          var e := RibOf(net, n)[Ula(x)];
          && (n, e.next) in net.reg && 1 <= e.metric < ROUTE_INFINITY
          && (e.stale.Some? ==> e.stale.value <= net.now))
  }

  /** What p may have written about x, whenever it was. */
  ghost predicate QueueSane(p: Node, q: seq<Ad>, x: Node) {
    forall i | 0 <= i < |q| :: AdSane(p, q[i], x)
  }

  ghost predicate AdSane(p: Node, ad: Ad, x: Node) {
    && Once(ad, Ula(x))
    && (Listed(ad, Ula(x)).Some? ==> Listed(ad, Ula(x)).value >= 0)
    && (p == x ==> Listed(ad, Ula(x)) == Some(0))
  }

  /** All that is assumed of the routes to x at the outset. */
  ghost predicate Sane(net: Net, x: Node) {
    && (forall n, p :: (n, p) in net.reg ==> n != p)
    && (forall l | l in net.owed :: l in net.reg)
    && (forall n :: RouteSane(net, n, x))
    && (forall p, n :: QueueSane(p, Chan(net, p, n), x))
  }

  /** The entry is at r or more, or its next hop really is that close to x. */
  ghost predicate EntryFloor(links: set<Link>, e: Option<Entry>, x: Node, r: int) {
    e.Some? ==> e.value.metric >= r || Within(links, e.value.metric - 1, e.value.next, x)
  }

  ghost predicate RibFloor(net: Net, n: Node, x: Node, r: int) {
    EntryFloor(net.reg, Lookup(RibOf(net, n), Ula(x)), x, r)
  }

  /** p's listing of x is at a or more, or p really is that close to x. */
  ghost predicate ListingFloor(links: set<Link>, p: Node, listed: Option<int>, x: Node, a: int) {
    listed.Some? ==> listed.value >= a || Within(links, listed.value, p, x)
  }

  /** The same of the advertisements of q from position j on. */
  ghost predicate AdFloor(links: set<Link>, p: Node, q: seq<Ad>, x: Node, a: int, j: int) {
    forall i | 0 <= i < |q| && i >= j :: ListingFloor(links, p, Listed(q[i], Ula(x)), x, a)
  }

  /** Untruths about x are at r or more in tables, at a or more in flight. */
  ghost predicate Floors(net: Net, x: Node, r: int, a: int) {
    && (forall n :: RibFloor(net, n, x, r))
    && (forall p, n :: (n, p) in net.reg ==> AdFloor(net.reg, p, Chan(net, p, n), x, a, 0))
  }

  /** How often n reads from p. */
  function Reads(run: seq<Event>, n: Node, p: Node): nat {
    if run == [] then 0
    else (if run[0] == Receive(n, p) then 1 else 0) + Reads(run[1..], n, p)
  }

  // ---- one event ----------------------------------------------------------

  /** What a handled advertisement does to n's route to x. */
  function Learnt(cur: Option<Entry>, p: Node, listed: Option<int>, x: Node, now: int): Option<Entry> {
    if p == x then Some(Entry(p, 1, None)) else Update(cur, p, listed, now)
  }

  /** What an event of a fixed run does to n's route to x. */
  lemma EventAt(exits: set<Node>, net: Net, e: Event, n: Node, x: Node)
    requires Sane(net, x) && Fixed(e) && Enabled(exits, net, e)
    ensures var cur := Lookup(RibOf(net, n), Ula(x));
            n != x ==>
            Lookup(RibOf(Step(net, e), n), Ula(x)) ==
              if e.Receive? && e.n == n then Learnt(cur, e.p, Listed(Chan(net, e.p, n)[0], Ula(x)), x, net.now)
              else if e.ExpireStale? && e.n == n && cur.Some? && Expired(cur.value, net.now) then None
              else cur
    ensures RouteSane(Step(net, e), n, x)
  {
    hide Changed, Advertises, HandleRoutes;
    assert RouteSane(net, n, x);
    if e.Receive? && e.n == n {
      var ad := Chan(net, e.p, n)[0];
      assert QueueSane(e.p, Chan(net, e.p, n), x) && AdSane(e.p, ad, x);
      HandleRoutesAtSelf(RibOf(net, n), n, e.p, ad, net.now);
      if n != x {
        if e.p == x {
          HandleRoutesAtPeer(RibOf(net, n), n, e.p, ad, net.now);
        } else {
          HandleRoutesAt(RibOf(net, n), n, e.p, ad, net.now, Ula(x));
        }
      }
    }
  }

  /** What a write lists for x. */
  lemma SentAt(exits: set<Node>, net: Net, n: Node, p: Node, ad: Ad, x: Node)
    requires RouteSane(net, n, x) && Advertises(n, n in exits, RibOf(net, n), p, ad)
    ensures AdSane(n, ad, x)
    ensures Listed(ad, Ula(x)) ==
            if x == n then Some(0)
            else if Exported(RibOf(net, n), p, Ula(x)) then Some(RibOf(net, n)[Ula(x)].metric) else None
  {
    hide Advertises, Listed, Once;
    AdvertisedUla(n, n in exits, RibOf(net, n), p, ad, x);
  }

  lemma StepKeepsSane(exits: set<Node>, net: Net, e: Event, x: Node)
    requires Sane(net, x) && Fixed(e) && Enabled(exits, net, e)
    ensures Sane(Step(net, e), x)
  {
    hide HandleRoutes, Changed, Expire, InstallPeer, Advertises, RouteSane, AdSane;
    var net' := Step(net, e);
    forall n ensures RouteSane(net', n, x) {
      EventAt(exits, net, e, n, x);
    }
    forall p, n ensures QueueSane(p, Chan(net', p, n), x) {
      assert QueueSane(p, Chan(net, p, n), x);
      if e.Send? && e.n == p && e.p == n {
        SentAt(exits, net, p, n, e.ad, x);
      }
    }
    StepKeepsOwed(exits, net, e);
  }

  lemma StepKeepsOwed(exits: set<Node>, net: Net, e: Event)
    requires (forall l | l in net.owed :: l in net.reg) && Fixed(e) && Enabled(exits, net, e)
    ensures forall l | l in Step(net, e).owed :: l in Step(net, e).reg
  {
    hide HandleRoutes, Changed, Expire, InstallPeer, Advertises;
    var net' := Step(net, e);
    forall l | l in net'.owed ensures l in net'.reg {
      if !e.Send? && !e.Tick? {
        OutAt(net, e.n, l);
      }
    }
  }

  lemma OutAt(net: Net, n: Node, l: Link)
    ensures l in Out(net, n) ==> l in net.reg
  {
  }

  lemma StepKeepsFloors(exits: set<Node>, net: Net, e: Event, x: Node, r: int, a: int)
    requires Sane(net, x) && Fixed(e) && Enabled(exits, net, e)
    requires Floors(net, x, r, a) && r <= a + 1 && a <= r
    ensures Floors(Step(net, e), x, r, a) && Step(net, e).reg == net.reg
  {
    StepFrame(exits, net, e);
    hide Step, Sane, RibFloor, AdFloor;
    var net' := Step(net, e);
    forall n ensures RibFloor(net', n, x, r) {
      StepKeepsRibFloor(exits, net, e, x, r, a, n);
    }
    forall p, n | (n, p) in net'.reg ensures AdFloor(net'.reg, p, Chan(net', p, n), x, a, 0) {
      StepKeepsAdFloor(exits, net, e, x, r, a, p, n);
    }
  }

  /** A listing at a or more, or a true one, makes an entry at a + 1 or more,
      or a true one. */
  lemma LearntFloor(links: set<Link>, cur: Option<Entry>, p: Node, listed: Option<int>, x: Node, now: int, r: int, a: int)
    requires EntryFloor(links, cur, x, r) && ListingFloor(links, p, listed, x, a) && r <= a + 1
    ensures EntryFloor(links, Learnt(cur, p, listed, x, now), x, r)
  {
    assert Within(links, 0, x, x);
  }

  lemma StepKeepsRibFloor(exits: set<Node>, net: Net, e: Event, x: Node, r: int, a: int, n: Node)
    requires Sane(net, x) && Fixed(e) && Enabled(exits, net, e)
    requires Floors(net, x, r, a) && r <= a + 1
    ensures RibFloor(Step(net, e), n, x, r)
  {
    hide HandleRoutes, Changed, Expire, InstallPeer, Advertises, QueueSane, Step, Learnt, Within;
    EventAt(exits, net, e, n, x);
    StepFrame(exits, net, e);
    assert RibFloor(net, n, x, r);
    if e.Receive? && e.n == n {
      assert AdFloor(net.reg, e.p, Chan(net, e.p, n), x, a, 0);
      LearntFloor(net.reg, Lookup(RibOf(net, n), Ula(x)), e.p, Listed(Chan(net, e.p, n)[0], Ula(x)), x, net.now, r, a);
    }
  }

  /** A write is as true as the table it is taken from. */
  lemma SentFloor(exits: set<Node>, net: Net, n: Node, p: Node, ad: Ad, x: Node, r: int)
    requires RouteSane(net, n, x) && RibFloor(net, n, x, r) && Advertises(n, n in exits, RibOf(net, n), p, ad)
    ensures ListingFloor(net.reg, n, Listed(ad, Ula(x)), x, r)
  {
    hide Advertises, Listed;
    SentAt(exits, net, n, p, ad, x);
    assert Within(net.reg, 0, x, x);
    if x != n && Ula(x) in RibOf(net, n) {
      var e := RibOf(net, n)[Ula(x)];
      assert Lookup(RibOf(net, n), Ula(x)) == Some(e);
      if e.metric < r {
        WithinStep(net.reg, e.metric - 1, n, e.next, x);
      }
    }
  }

  lemma StepKeepsAdFloor(exits: set<Node>, net: Net, e: Event, x: Node, r: int, a: int, p: Node, n: Node)
    requires Sane(net, x) && Fixed(e) && Enabled(exits, net, e)
    requires Floors(net, x, r, a) && a <= r && (n, p) in Step(net, e).reg
    ensures AdFloor(Step(net, e).reg, p, Chan(Step(net, e), p, n), x, a, 0)
  {
    hide HandleRoutes, Changed, Expire, InstallPeer, Advertises, QueueSane, Within;
    assert AdFloor(net.reg, p, Chan(net, p, n), x, a, 0);
    if e.Send? && e.n == p && e.p == n {
      assert RouteSane(net, p, x) && RibFloor(net, p, x, r);
      SentFloor(exits, net, p, n, e.ad, x, r);
    }
  }

  // ---- draining -----------------------------------------------------------

  /** Advertisements written during a run are as true as the tables. */
  lemma {:induction false} DrainChannel(exits: set<Node>, net: Net, run: seq<Event>, x: Node, r: int, a: int, p: Node, n: Node, j: nat)
    requires Sane(net, x) && FixedRun(exits, net, run) && Floors(net, x, r, a) && r <= a + 1 && a <= r
    requires (n, p) in net.reg && AdFloor(net.reg, p, Chan(net, p, n), x, r, j)
    ensures var end := Exec(exits, net, run);
            && Sane(end, x) && Floors(end, x, r, a) && end.reg == net.reg
            && AdFloor(end.reg, p, Chan(end, p, n), x, r, j - Reads(run, n, p))
    decreases |run|
  {
    hide Sane, Floors, ListingFloor, Step;
    if run != [] {
      var e := run[0];
      var net' := Step(net, e);
      assert Fixed(e);
      StepKeepsSane(exits, net, e, x);
      StepKeepsFloors(exits, net, e, x, r, a);
      DrainStep(exits, net, e, x, r, a, p, n, j);
      var j' := if e == Receive(n, p) && j > 0 then j - 1 else j;
      DrainChannel(exits, net', run[1..], x, r, a, p, n, j');
    }
  }

  lemma DrainStep(exits: set<Node>, net: Net, e: Event, x: Node, r: int, a: int, p: Node, n: Node, j: nat)
    requires Sane(net, x) && Fixed(e) && Enabled(exits, net, e) && Floors(net, x, r, a)
    requires (n, p) in net.reg && AdFloor(net.reg, p, Chan(net, p, n), x, r, j)
    ensures AdFloor(net.reg, p, Chan(Step(net, e), p, n), x, r, if e == Receive(n, p) && j > 0 then j - 1 else j)
  {
    hide ListingFloor, QueueSane, HandleRoutes, Changed, Advertises;
    var q := Chan(net, p, n);
    var q' := Chan(Step(net, e), p, n);
    if e.Send? && e.n == p && e.p == n {
      assert RouteSane(net, p, x) && RibFloor(net, p, x, r);
      SentFloor(exits, net, p, n, e.ad, x, r);
      assert q' == q + [e.ad];
    } else if e == Receive(n, p) {
      assert q' == q[1..];
      assert forall i | 0 <= i < |q'| :: q'[i] == q[i + 1];
    } else {
      assert q' == q;
    }
  }

  /** Once every advertisement in flight has been read, the unread ones were
      all written since. */
  lemma DrainRaisesAds(exits: set<Node>, net: Net, run: seq<Event>, x: Node, r: int, a: int)
    requires Sane(net, x) && FixedRun(exits, net, run) && Floors(net, x, r, a) && r <= a + 1 && a <= r
    requires forall n, p | (n, p) in net.reg :: Reads(run, n, p) >= |Chan(net, p, n)|
    ensures var end := Exec(exits, net, run);
            Sane(end, x) && Floors(end, x, r, r) && end.reg == net.reg
  {
    hide Sane, RibFloor;
    var end := Exec(exits, net, run);
    RunKeepsFloors(exits, net, run, x, r, a);
    forall p, n | (n, p) in end.reg ensures AdFloor(end.reg, p, Chan(end, p, n), x, r, 0) {
      DrainChannel(exits, net, run, x, r, a, p, n, |Chan(net, p, n)|);
    }
  }

  lemma {:induction false} RunKeepsFloors(exits: set<Node>, net: Net, run: seq<Event>, x: Node, r: int, a: int)
    requires Sane(net, x) && FixedRun(exits, net, run) && Floors(net, x, r, a) && r <= a + 1 && a <= r
    ensures var end := Exec(exits, net, run);
            Sane(end, x) && Floors(end, x, r, a) && end.reg == net.reg && end.now >= net.now
    decreases |run|
  {
    hide Sane, Floors, Step;
    if run != [] {
      assert Fixed(run[0]);
      StepKeepsSane(exits, net, run[0], x);
      StepKeepsFloors(exits, net, run[0], x, r, a);
      StepFrame(exits, net, run[0]);
      RunKeepsFloors(exits, Step(net, run[0]), run[1..], x, r, a);
    }
  }

  // ---- hearing every neighbour --------------------------------------------

  /** An untrue route via p that is still at the floor carries a holddown mark
      set at `since` or earlier. */
  ghost predicate Marked(net: Net, n: Node, p: Node, x: Node, r: int, since: int) {
    MarkedEntry(net.reg, Lookup(RibOf(net, n), Ula(x)), p, x, r, since)
  }

  ghost predicate MarkedEntry(links: set<Link>, e: Option<Entry>, p: Node, x: Node, r: int, since: int) {
    Via(e, p) && e.value.metric == r && !Within(links, r - 1, p, x) ==> e.value.stale.Some? && e.value.stale.value <= since
  }

  lemma LearntMarks(links: set<Link>, cur: Option<Entry>, from: Node, listed: Option<int>, x: Node, now: int, p: Node, r: int, since: int)
    requires ListingFloor(links, from, listed, x, r)
    requires EntryFloor(links, cur, x, r) && (cur.Some? && cur.value.stale.Some? ==> cur.value.stale.value <= now)
    requires MarkedEntry(links, cur, p, x, r, since) || (from == p && now <= since)
    ensures MarkedEntry(links, Learnt(cur, from, listed, x, now), p, x, r, since)
  {
    assert Within(links, 0, x, x);
  }

  lemma StepKeepsMarked(exits: set<Node>, net: Net, e: Event, x: Node, r: int, n: Node, p: Node, since: int)
    requires Sane(net, x) && Fixed(e) && Enabled(exits, net, e) && Floors(net, x, r, r)
    requires Marked(net, n, p, x, r, since) || (e == Receive(n, p) && net.now <= since)
    ensures Marked(Step(net, e), n, p, x, r, since)
  {
    hide Within, Learnt, QueueSane, HandleRoutes, Changed, Advertises, Step;
    EventAt(exits, net, e, n, x);
    StepFrame(exits, net, e);
    assert RouteSane(net, n, x) && RibFloor(net, n, x, r);
    if n == x {
      assert RouteSane(Step(net, e), n, x);
    } else if e.Receive? && e.n == n {
      assert AdFloor(net.reg, e.p, Chan(net, e.p, n), x, r, 0);
      var cur := Lookup(RibOf(net, n), Ula(x));
      assert cur.Some? ==> cur.value == RibOf(net, n)[Ula(x)];
      LearntMarks(net.reg, cur, e.p, Listed(Chan(net, e.p, n)[0], Ula(x)), x, net.now, p, r, since);
    }
  }

  lemma StepFrame(exits: set<Node>, net: Net, e: Event)
    requires Fixed(e) && Enabled(exits, net, e)
    ensures Step(net, e).reg == net.reg && net.now <= Step(net, e).now
  {
  }

  lemma {:induction false} HearingMarks(exits: set<Node>, net: Net, run: seq<Event>, x: Node, r: int, n: Node, p: Node, since: int)
    requires Sane(net, x) && FixedRun(exits, net, run) && Floors(net, x, r, r)
    requires Marked(net, n, p, x, r, since) || (Reads(run, n, p) > 0 && Exec(exits, net, run).now <= since)
    ensures Marked(Exec(exits, net, run), n, p, x, r, since)
    decreases |run|
  {
    hide Sane, Floors, Marked, Step;
    if run != [] {
      var e := run[0];
      assert Fixed(e);
      RunKeepsFloors(exits, net, run, x, r, r);
      StepKeepsSane(exits, net, e, x);
      StepKeepsFloors(exits, net, e, x, r, r);
      if Marked(net, n, p, x, r, since) || e == Receive(n, p) {
        StepKeepsMarked(exits, net, e, x, r, n, p, since);
      }
      HearingMarks(exits, Step(net, e), run[1..], x, r, n, p, since);
    }
  }

  // ---- holddown and expiry ------------------------------------------------

  /** n's table is clear of the floor once n has expired its marks late enough. */
  lemma {:induction false} ExpiryClears(exits: set<Node>, net: Net, run: seq<Event>, x: Node, r: int, n: Node, since: int)
    requires Sane(net, x) && FixedRun(exits, net, run) && Floors(net, x, r, r)
    requires since + HOLDDOWN <= net.now
    requires forall p :: Marked(net, n, p, x, r, since)
    requires RibFloor(net, n, x, r + 1) || ExpireStale(n) in run
    ensures RibFloor(Exec(exits, net, run), n, x, r + 1)
    decreases |run|
  {
    hide Sane, Floors, Marked, Step, RibFloor;
    if run != [] {
      var e := run[0];
      assert Fixed(e);
      if RibFloor(net, n, x, r + 1) || e == ExpireStale(n) {
        StepClears(exits, net, e, x, r, n, since);
      }
      StepFrame(exits, net, e);
      StepKeepsSane(exits, net, e, x);
      StepKeepsFloors(exits, net, e, x, r, r);
      forall p ensures Marked(Step(net, e), n, p, x, r, since) {
        StepKeepsMarked(exits, net, e, x, r, n, p, since);
      }
      ExpiryClears(exits, Step(net, e), run[1..], x, r, n, since);
    }
  }

  lemma StepClears(exits: set<Node>, net: Net, e: Event, x: Node, r: int, n: Node, since: int)
    requires Sane(net, x) && Fixed(e) && Enabled(exits, net, e) && Floors(net, x, r, r)
    requires since + HOLDDOWN <= net.now
    requires forall p :: Marked(net, n, p, x, r, since)
    requires RibFloor(net, n, x, r + 1) || e == ExpireStale(n)
    ensures RibFloor(Step(net, e), n, x, r + 1)
  {
    hide Within, QueueSane, HandleRoutes, Changed, Advertises, Step;
    var cur := Lookup(RibOf(net, n), Ula(x));
    EventAt(exits, net, e, n, x);
    StepFrame(exits, net, e);
    assert RibFloor(net, n, x, r);
    if cur.Some? {
      assert Marked(net, n, cur.value.next, x, r, since);
    }
    if n == x {
      assert RouteSane(Step(net, e), n, x);
    } else if e.Receive? && e.n == n {
      assert AdFloor(net.reg, e.p, Chan(net, e.p, n), x, r, 0);
      LearntClears(net.reg, cur, e.p, Listed(Chan(net, e.p, n)[0], Ula(x)), x, net.now, r, since);
    }
  }

  lemma LearntClears(links: set<Link>, cur: Option<Entry>, from: Node, listed: Option<int>, x: Node, now: int, r: int, since: int)
    requires ListingFloor(links, from, listed, x, r) && since + HOLDDOWN <= now
    requires EntryFloor(links, cur, x, r + 1)
    ensures EntryFloor(links, Learnt(cur, from, listed, x, now), x, r + 1)
  {
    assert Within(links, 0, x, x);
  }

  // ---- epochs -------------------------------------------------------------

  /** A stretch of a run in which the advertisements in flight are read, every
      neighbour is heard once more, three seconds elapse and every node expires. */
  datatype Epoch = Epoch(drain: seq<Event>, hear: seq<Event>, hold: seq<Event>, sweep: seq<Event>)

  ghost predicate IsEpoch(exits: set<Node>, net: Net, t: Epoch) {
    && FixedRun(exits, net, t.drain)
    && (forall n, p | (n, p) in net.reg :: Reads(t.drain, n, p) >= |Chan(net, p, n)|)
    && var drained := Exec(exits, net, t.drain);
    && FixedRun(exits, drained, t.hear)
    && (forall n, p | (n, p) in net.reg :: Reads(t.hear, n, p) > 0)
    && var heard := Exec(exits, drained, t.hear);
    && FixedRun(exits, heard, t.hold)
    && var held := Exec(exits, heard, t.hold);
    && heard.now + 3000 <= held.now
    && FixedRun(exits, held, t.sweep)
    && forall n, p | (n, p) in net.reg :: ExpireStale(n) in t.sweep
  }

  ghost function After(exits: set<Node>, net: Net, t: Epoch): Net
    requires IsEpoch(exits, net, t)
  {
    var drained := Exec(exits, net, t.drain);
    var heard := Exec(exits, drained, t.hear);
    Exec(exits, Exec(exits, heard, t.hold), t.sweep)
  }

  lemma HeardMarks(exits: set<Node>, net: Net, run: seq<Event>, x: Node, r: int, n: Node, p: Node)
    requires Sane(net, x) && FixedRun(exits, net, run) && Floors(net, x, r, r)
    requires forall n, p | (n, p) in net.reg :: Reads(run, n, p) > 0
    ensures var end := Exec(exits, net, run); Marked(end, n, p, x, r, end.now)
  {
    hide Floors, QueueSane;
    RunKeepsFloors(exits, net, run, x, r, r);
    var end := Exec(exits, net, run);
    if (n, p) in net.reg {
      HearingMarks(exits, net, run, x, r, n, p, end.now);
    } else {
      assert RouteSane(end, n, x);
    }
  }

  /** An epoch raises the least metric of an untrue route to x by one. */
  lemma {:induction false} EpochRaisesFloor(exits: set<Node>, net: Net, t: Epoch, x: Node, r: int)
    requires Sane(net, x) && Floors(net, x, r, r - 1) && IsEpoch(exits, net, t)
    ensures Sane(After(exits, net, t), x) && Floors(After(exits, net, t), x, r + 1, r)
    ensures After(exits, net, t).reg == net.reg
  {
    hide Sane, RibFloor, AdFloor, Marked;
    var drained := Exec(exits, net, t.drain);
    DrainRaisesAds(exits, net, t.drain, x, r, r - 1);
    var heard := Exec(exits, drained, t.hear);
    RunKeepsFloors(exits, drained, t.hear, x, r, r);
    var held := Exec(exits, heard, t.hold);
    RunKeepsFloors(exits, heard, t.hold, x, r, r);
    var end := Exec(exits, held, t.sweep);
    RunKeepsFloors(exits, held, t.sweep, x, r, r);
    var raised := r + 1;
    forall n ensures RibFloor(end, n, x, raised) {
      forall p ensures Marked(held, n, p, x, r, heard.now) {
        HeardMarks(exits, drained, t.hear, x, r, n, p);
        HearingMarks(exits, heard, t.hold, x, r, n, p, heard.now);
      }
      SweptClean(exits, held, t.sweep, x, r, n, heard.now);
    }
  }

  lemma SweptClean(exits: set<Node>, net: Net, run: seq<Event>, x: Node, r: int, n: Node, since: int)
    requires Sane(net, x) && FixedRun(exits, net, run) && Floors(net, x, r, r)
    requires since + HOLDDOWN <= net.now
    requires forall p :: Marked(net, n, p, x, r, since)
    requires forall n, p | (n, p) in net.reg :: ExpireStale(n) in run
    ensures RibFloor(Exec(exits, net, run), n, x, r + 1)
  {
    hide Floors, Marked, QueueSane;
    assert RouteSane(net, n, x);
    ExpiryClears(exits, net, run, x, r, n, since);
  }

  ghost predicate AreEpochs(exits: set<Node>, net: Net, ts: seq<Epoch>)
    decreases |ts|
  {
    ts != [] ==> IsEpoch(exits, net, ts[0]) && AreEpochs(exits, After(exits, net, ts[0]), ts[1..])
  }

  ghost function AfterAll(exits: set<Node>, net: Net, ts: seq<Epoch>): Net
    requires AreEpochs(exits, net, ts)
    decreases |ts|
  {
    if ts == [] then net else AfterAll(exits, After(exits, net, ts[0]), ts[1..])
  }

  lemma {:induction false} EpochsRaiseFloor(exits: set<Node>, net: Net, ts: seq<Epoch>, x: Node, r: int)
    requires Sane(net, x) && Floors(net, x, r, r - 1) && AreEpochs(exits, net, ts)
    ensures var end := AfterAll(exits, net, ts);
            Sane(end, x) && Floors(end, x, r + |ts|, r + |ts| - 1) && end.reg == net.reg
    decreases |ts|
  {
    hide Sane, Floors, IsEpoch, After;
    if ts != [] {
      EpochRaisesFloor(exits, net, ts[0], x, r);
      EpochsRaiseFloor(exits, After(exits, net, ts[0]), ts[1..], x, r + 1);
    }
  }

  lemma SaneFloors(net: Net, x: Node)
    requires Sane(net, x)
    ensures Floors(net, x, 1, 0)
  {
    forall n ensures RibFloor(net, n, x, 1) {
      assert RouteSane(net, n, x);
    }
    forall p, n ensures AdFloor(net.reg, p, Chan(net, p, n), x, 0, 0) {
      assert QueueSane(p, Chan(net, p, n), x);
      assert forall i | 0 <= i < |Chan(net, p, n)| :: AdSane(p, Chan(net, p, n)[i], x);
    }
  }

  /** After fifteen epochs every route is true: it leads to a session peer that
      is within one hop less of the destination. In particular no table holds
      a route to a node that has left or is more than fifteen hops away. */
  lemma {:induction false} CountingToInfinityIsBounded(exits: set<Node>, net: Net, ts: seq<Epoch>, n: Node, x: Node)
    requires Sane(net, x) && AreEpochs(exits, net, ts) && |ts| >= 15
    ensures var end := AfterAll(exits, net, ts);
            end.reg == net.reg &&
            (Ula(x) in RibOf(end, n) ==>
               var e := RibOf(end, n)[Ula(x)];
               (n, e.next) in net.reg && e.metric < ROUTE_INFINITY && Within(net.reg, e.metric - 1, e.next, x))
  {
    hide Within, QueueSane, AdFloor, IsEpoch, After;
    SaneFloors(net, x);
    EpochsRaiseFloor(exits, net, ts, x, 1);
    var end := AfterAll(exits, net, ts);
    var raised := 1 + |ts|;
    assert RouteSane(end, n, x) && RibFloor(end, n, x, raised);
  }
}
