// The protocol heals itself: whatever routes a mesh holds and whatever is in
// flight, on a fixed topology every table is exact after sixteen epochs.
module Stabilize {
  import opened Base
  import opened Rib
  import opened Distance
  import opened Mesh
  import opened Decay
  import Convergence

  ghost predicate GoodEntry(links: set<Link>, e: Option<Entry>, x: Node, j: int) {
    e.Some? && e.value.metric == j && e.value.stale.None? && Within(links, j - 1, e.value.next, x)
  }

  ghost predicate LevelAt(net: Net, n: Node, x: Node, j: int) {
    n != x && Distant(net.reg, j, n, x) ==> GoodEntry(net.reg, Lookup(RibOf(net, n), Ula(x)), x, j)
  }

  /** The nodes at distance j from x route to x as they should. */
  ghost predicate Level(net: Net, x: Node, j: int) {
    forall n :: LevelAt(net, n, x, j)
  }

  ghost predicate ListFrom(q: seq<Ad>, x: Node, j: int, from: int) {
    forall i | 0 <= i < |q| && i >= from :: Listed(q[i], Ula(x)) == Some(j)
  }

  ghost predicate TellsAt(net: Net, p: Node, n: Node, x: Node, j: int) {
    (n, p) in net.reg && Distant(net.reg, j, p, x) && !Within(net.reg, j - 1, n, x) ==> ListFrom(Chan(net, p, n), x, j, 0)
  }

  /** They have told every peer that is not nearer to x, and nothing else is
      in flight. */
  ghost predicate Tells(net: Net, x: Node, j: int) {
    forall p, n :: TellsAt(net, p, n, x, j)
  }

  /** All is well up to distance j, and known to be well up to j - 1. */
  ghost predicate Firm(net: Net, x: Node, j: int) {
    && (forall i | i <= j :: Level(net, x, i))
    && (forall i | i < j :: Tells(net, x, i))
  }

  // ---- what is well stays well --------------------------------------------

  lemma NearerPeer(links: set<Link>, j: int, n: Node, p: Node, x: Node)
    requires (n, p) in links && Distant(links, j, n, x) && Within(links, j - 1, p, x)
    ensures Distant(links, j - 1, p, x) && !Within(links, j - 2, n, x)
  {
    if Within(links, j - 2, p, x) {
      WithinStep(links, j - 2, n, p, x);
    }
    if Within(links, j - 2, n, x) {
      WithinMonotone(links, links, j - 2, j - 1, n, x);
    }
  }

  /** No peer can offer a node at distance j less than j. */
  lemma NoBetterOffer(links: set<Link>, j: int, n: Node, p: Node, listed: Option<int>, x: Node, a: int)
    requires (n, p) in links && Distant(links, j, n, x) && ListingFloor(links, p, listed, x, a) && a >= j
    ensures listed.Some? ==> listed.value >= j - 1
  {
    if listed.Some? && listed.value < j - 1 {
      WithinStep(links, listed.value, n, p, x);
      WithinMonotone(links, links, listed.value + 1, j - 1, n, x);
    }
  }

  lemma GoodStays(exits: set<Node>, net: Net, e: Event, n: Node, x: Node, j: int, r: int, a: int)
    requires Sane(net, x) && Fixed(e) && Enabled(exits, net, e) && Floors(net, x, r, a) && a >= j
    requires n != x && Distant(net.reg, j, n, x) && j < ROUTE_INFINITY
    requires GoodEntry(net.reg, Lookup(RibOf(net, n), Ula(x)), x, j) && Tells(net, x, j - 1)
    ensures GoodEntry(net.reg, Lookup(RibOf(Step(net, e), n), Ula(x)), x, j)
  {
    hide HandleRoutes, Changed, Advertises, Step, QueueSane, ListingFloor, Within, Distant;
    EventAt(exits, net, e, n, x);
    assert RouteSane(net, n, x);
    if e.Receive? && e.n == n {
      var listed := Listed(Chan(net, e.p, n)[0], Ula(x));
      assert AdFloor(net.reg, e.p, Chan(net, e.p, n), x, a, 0);
      NoBetterOffer(net.reg, j, n, e.p, listed, x, a);
      if e.p == x {
        DirectIsOne(net.reg, j, n, x);
      } else if Via(Lookup(RibOf(net, n), Ula(x)), e.p) {
        NearerPeer(net.reg, j, n, e.p, x);
        assert TellsAt(net, e.p, n, x, j - 1);
      }
    }
  }

  lemma DirectIsOne(links: set<Link>, j: int, n: Node, x: Node)
    requires n != x && (n, x) in links && Distant(links, j, n, x)
    ensures j == 1 && Within(links, 0, x, x)
  {
    assert Within(links, 0, x, x);
    WithinStep(links, 0, n, x, x);
    if j > 1 {
      WithinMonotone(links, links, 1, j - 1, n, x);
    }
  }

  lemma StepKeepsLevel(exits: set<Node>, net: Net, e: Event, x: Node, j: int, r: int, a: int)
    requires Sane(net, x) && Fixed(e) && Enabled(exits, net, e) && Floors(net, x, r, a) && a >= j && j < ROUTE_INFINITY
    requires Level(net, x, j) && Tells(net, x, j - 1)
    ensures Level(Step(net, e), x, j)
  {
    hide Step, GoodEntry, Sane, Floors, Tells, Distant;
    StepFrame(exits, net, e);
    forall n ensures LevelAt(Step(net, e), n, x, j) {
      assert LevelAt(net, n, x, j);
      if n != x && Distant(net.reg, j, n, x) {
        GoodStays(exits, net, e, n, x, j, r, a);
      }
    }
  }

  lemma SelfDistance(links: set<Link>, j: int, x: Node)
    ensures Distant(links, j, x, x) <==> j == 0
  {
    assert Within(links, 0, x, x);
  }

  /** What a node at distance j writes to a peer that is not nearer. */
  lemma WellTold(exits: set<Node>, net: Net, p: Node, n: Node, ad: Ad, x: Node, j: int)
    requires RouteSane(net, p, x) && LevelAt(net, p, x, j) && Advertises(p, p in exits, RibOf(net, p), n, ad)
    requires Distant(net.reg, j, p, x) && !Within(net.reg, j - 1, n, x) && j < ROUTE_INFINITY
    ensures Listed(ad, Ula(x)) == Some(j)
  {
    hide Advertises, Listed;
    SentAt(exits, net, p, n, ad, x);
    SelfDistance(net.reg, j, x);
  }

  lemma StepKeepsTold(exits: set<Node>, net: Net, e: Event, x: Node, j: int, p: Node, n: Node, k: nat)
    requires Sane(net, x) && Fixed(e) && Enabled(exits, net, e) && LevelAt(net, p, x, j) && j < ROUTE_INFINITY
    requires Distant(net.reg, j, p, x) && !Within(net.reg, j - 1, n, x) && ListFrom(Chan(net, p, n), x, j, k)
    ensures ListFrom(Chan(Step(net, e), p, n), x, j, if e == Receive(n, p) && k > 0 then k - 1 else k)
  {
    hide QueueSane, HandleRoutes, Changed, Advertises, Distant, LevelAt, Listed;
    var q := Chan(net, p, n);
    var q' := Chan(Step(net, e), p, n);
    if e.Send? && e.n == p && e.p == n {
      assert RouteSane(net, p, x);
      WellTold(exits, net, p, n, e.ad, x, j);
      assert q' == q + [e.ad];
    } else if e == Receive(n, p) {
      assert q' == q[1..];
      assert forall i | 0 <= i < |q'| :: q'[i] == q[i + 1];
    } else {
      assert q' == q;
    }
  }

  lemma StepKeepsTells(exits: set<Node>, net: Net, e: Event, x: Node, j: int)
    requires Sane(net, x) && Fixed(e) && Enabled(exits, net, e) && Level(net, x, j) && Tells(net, x, j) && j < ROUTE_INFINITY
    ensures Tells(Step(net, e), x, j)
  {
    hide Step, Sane, LevelAt, Distant, ListFrom;
    StepFrame(exits, net, e);
    forall p, n ensures TellsAt(Step(net, e), p, n, x, j) {
      assert TellsAt(net, p, n, x, j) && LevelAt(net, p, x, j);
      if (n, p) in net.reg && Distant(net.reg, j, p, x) && !Within(net.reg, j - 1, n, x) {
        StepKeepsTold(exits, net, e, x, j, p, n, 0);
      }
    }
  }

  lemma StepKeepsFirm(exits: set<Node>, net: Net, e: Event, x: Node, j: int, r: int, a: int)
    requires Sane(net, x) && Fixed(e) && Enabled(exits, net, e) && Floors(net, x, r, a) && a >= j && j < ROUTE_INFINITY
    requires Firm(net, x, j)
    ensures Firm(Step(net, e), x, j)
  {
    hide Step, Sane, Floors, Level, Tells;
    forall i | i <= j ensures Level(Step(net, e), x, i) {
      StepKeepsLevel(exits, net, e, x, i, r, a);
    }
    forall i | i < j ensures Tells(Step(net, e), x, i) {
      StepKeepsTells(exits, net, e, x, i);
    }
  }

  lemma {:induction false} RunKeepsFirm(exits: set<Node>, net: Net, run: seq<Event>, x: Node, j: int, r: int, a: int)
    requires Sane(net, x) && FixedRun(exits, net, run) && Floors(net, x, r, a) && r <= a + 1 && a <= r
    requires Firm(net, x, j) && a >= j && j < ROUTE_INFINITY
    ensures Firm(Exec(exits, net, run), x, j)
    decreases |run|
  {
    hide Sane, Floors, Firm, Step;
    if run != [] {
      assert Fixed(run[0]);
      StepKeepsSane(exits, net, run[0], x);
      StepKeepsFloors(exits, net, run[0], x, r, a);
      StepKeepsFirm(exits, net, run[0], x, j, r, a);
      RunKeepsFirm(exits, Step(net, run[0]), run[1..], x, j, r, a);
    }
  }

  // ---- draining: the good news is all there is ----------------------------

  lemma {:induction false} DrainTells(exits: set<Node>, net: Net, run: seq<Event>, x: Node, j: int, r: int, a: int, p: Node, n: Node, k: nat)
    requires Sane(net, x) && FixedRun(exits, net, run) && Floors(net, x, r, a) && r <= a + 1 && a <= r
    requires Firm(net, x, j) && a >= j && j < ROUTE_INFINITY
    requires Distant(net.reg, j, p, x) && !Within(net.reg, j - 1, n, x) && ListFrom(Chan(net, p, n), x, j, k)
    ensures ListFrom(Chan(Exec(exits, net, run), p, n), x, j, k - Reads(run, n, p))
    decreases |run|
  {
    hide Sane, Floors, Step, Distant, Within, Level, Tells;
    if run != [] {
      var e := run[0];
      assert Fixed(e);
      StepKeepsSane(exits, net, e, x);
      StepKeepsFloors(exits, net, e, x, r, a);
      StepKeepsFirm(exits, net, e, x, j, r, a);
      assert LevelAt(net, p, x, j) by { LevelHere(net, p, x, j); }
      StepKeepsTold(exits, net, e, x, j, p, n, k);
      var k' := if e == Receive(n, p) && k > 0 then k - 1 else k;
      DrainTells(exits, Step(net, e), run[1..], x, j, r, a, p, n, k');
    }
  }

  lemma LevelHere(net: Net, n: Node, x: Node, j: int)
    requires Firm(net, x, j)
    ensures LevelAt(net, n, x, j)
  {
    assert Level(net, x, j);
  }

  lemma {:induction false} DrainedTells(exits: set<Node>, net: Net, run: seq<Event>, x: Node, j: int, r: int, a: int)
    requires Sane(net, x) && FixedRun(exits, net, run) && Floors(net, x, r, a) && r <= a + 1 && a <= r
    requires Firm(net, x, j) && a >= j && j < ROUTE_INFINITY
    requires forall n, p | (n, p) in net.reg :: Reads(run, n, p) >= |Chan(net, p, n)|
    ensures Tells(Exec(exits, net, run), x, j)
  {
    hide Sane, Floors, Firm, Distant, Within;
    RunKeepsFloors(exits, net, run, x, r, a);
    var end := Exec(exits, net, run);
    forall p, n ensures TellsAt(end, p, n, x, j) {
      if (n, p) in net.reg && Distant(net.reg, j, p, x) && !Within(net.reg, j - 1, n, x) {
        DrainTells(exits, net, run, x, j, r, a, p, n, |Chan(net, p, n)|);
      }
    }
  }

  // ---- hearing: the next distance is well too -----------------------------

  ghost predicate Nearer(net: Net, n: Node, p: Node, x: Node, j: int) {
    (n, p) in net.reg && Within(net.reg, j - 1, p, x)
  }

  /** No route of length j through a nearer peer already heard bears a mark. */
  ghost predicate Fresh(net: Net, n: Node, x: Node, j: int, heard: set<Node>) {
    var cur := Lookup(RibOf(net, n), Ula(x));
    cur.Some? && cur.value.next in heard && cur.value.metric == j && Nearer(net, n, cur.value.next, x, j) ==> cur.value.stale.None?
  }

  /** n holds a good route, or has not heard the nearer peer p yet. */
  ghost predicate Hopeful(net: Net, n: Node, x: Node, j: int, heard: set<Node>) {
    || GoodEntry(net.reg, Lookup(RibOf(net, n), Ula(x)), x, j)
    || exists p :: Nearer(net, n, p, x, j) && p !in heard
  }

  /** What the steps below have in common: n is at distance j from x, and all
      is well up to j - 1. */
  ghost predicate Setting(net: Net, n: Node, x: Node, j: int) {
    && Sane(net, x) && Floors(net, x, j + 1, j + 1)
    && Tells(net, x, j - 1)
    && n != x && Distant(net.reg, j, n, x) && 1 <= j < ROUTE_INFINITY
  }

  lemma HeardNearer(net: Net, n: Node, p: Node, x: Node, j: int)
    requires Setting(net, n, x, j) && Nearer(net, n, p, x, j) && Chan(net, p, n) != []
    ensures Listed(Chan(net, p, n)[0], Ula(x)) == Some(j - 1) && (p == x ==> j == 1)
  {
    hide Sane, Floors;
    NearerPeer(net.reg, j, n, p, x);
    assert TellsAt(net, p, n, x, j - 1);
    if p == x {
      DirectIsOne(net.reg, j, n, x);
    }
  }

  lemma StepKeepsFresh(exits: set<Node>, net: Net, e: Event, n: Node, x: Node, j: int, heard: set<Node>)
    requires Setting(net, n, x, j) && Fixed(e) && Enabled(exits, net, e) && Fresh(net, n, x, j, heard)
    ensures Fresh(Step(net, e), n, x, j, if e.Receive? && e.n == n then heard + {e.p} else heard)
  {
    hide HandleRoutes, Changed, Advertises, Step, QueueSane, Floors, Within, Distant, Tells;
    EventAt(exits, net, e, n, x);
    StepFrame(exits, net, e);
    if e.Receive? && e.n == n && Nearer(net, n, e.p, x, j) {
      HeardNearer(net, n, e.p, x, j);
    }
  }

  /** A short route is true, so it leads to a nearer peer. */
  lemma ShortIsNearer(net: Net, n: Node, x: Node, j: int)
    requires Setting(net, n, x, j) && Lookup(RibOf(net, n), Ula(x)).Some?
    ensures var e := Lookup(RibOf(net, n), Ula(x)).value;
            e.metric <= j ==> e.metric == j && Nearer(net, n, e.next, x, j)
  {
    hide Tells, QueueSane;
    var e := Lookup(RibOf(net, n), Ula(x)).value;
    assert RouteSane(net, n, x) && RibFloor(net, n, x, j + 1);
    if e.metric <= j {
      WithinStep(net.reg, e.metric - 1, n, e.next, x);
      if e.metric < j {
        WithinMonotone(net.reg, net.reg, e.metric, j - 1, n, x);
      }
    }
  }

  lemma StepKeepsHopeful(exits: set<Node>, net: Net, e: Event, n: Node, x: Node, j: int, heard: set<Node>)
    requires Setting(net, n, x, j) && Fixed(e) && Enabled(exits, net, e)
    requires Fresh(net, n, x, j, heard) && Hopeful(net, n, x, j, heard)
    ensures Hopeful(Step(net, e), n, x, j, if e.Receive? && e.n == n then heard + {e.p} else heard)
  {
    StepFrame(exits, net, e);
    var net' := Step(net, e);
    hide HandleRoutes, Changed, Advertises, Step, QueueSane, Floors, Within, Distant, Tells;
    var cur := Lookup(RibOf(net, n), Ula(x));
    if GoodEntry(net.reg, cur, x, j) {
      GoodStays(exits, net, e, n, x, j, j + 1, j + 1);
    } else {
      var p :| Nearer(net, n, p, x, j) && p !in heard;
      if e == Receive(n, p) {
        HearNearer(exits, net, n, p, x, j, heard);
      } else {
        assert Nearer(net', n, p, x, j);
      }
    }
  }

  lemma HearNearer(exits: set<Node>, net: Net, n: Node, p: Node, x: Node, j: int, heard: set<Node>)
    requires Setting(net, n, x, j) && Enabled(exits, net, Receive(n, p)) && Nearer(net, n, p, x, j)
    requires Fresh(net, n, x, j, heard)
    ensures Hopeful(Step(net, Receive(n, p)), n, x, j, heard + {p})
  {
    var e := Receive(n, p);
    StepFrame(exits, net, e);
    hide HandleRoutes, Changed, Advertises, Step, QueueSane, Floors, Within, Distant, Tells;
    EventAt(exits, net, e, n, x);
    HeardNearer(net, n, p, x, j);
    var cur := Lookup(RibOf(net, n), Ula(x));
    if cur.Some? {
      ShortIsNearer(net, n, x, j);
      if cur.value.next !in heard && cur.value.next != p && cur.value.metric == j {
        assert Nearer(Step(net, e), n, cur.value.next, x, j);
      }
    }
  }

  lemma NothingUnheard(net: Net, n: Node, x: Node, j: int, heard: set<Node>)
    requires Hopeful(net, n, x, j, heard) && forall p | Nearer(net, n, p, x, j) :: p in heard
    ensures GoodEntry(net.reg, Lookup(RibOf(net, n), Ula(x)), x, j)
  {
  }

  lemma LevelUnder(net: Net, x: Node, j: int)
    requires Firm(net, x, j)
    ensures Level(net, x, j)
  {
  }

  lemma {:induction false} HearLevel(exits: set<Node>, net: Net, run: seq<Event>, n: Node, x: Node, j: int, heard: set<Node>)
    requires Setting(net, n, x, j) && FixedRun(exits, net, run) && Firm(net, x, j - 1)
    requires Fresh(net, n, x, j, heard) && Hopeful(net, n, x, j, heard)
    requires forall p | Nearer(net, n, p, x, j) :: p in heard || Reads(run, n, p) > 0
    ensures GoodEntry(net.reg, Lookup(RibOf(Exec(exits, net, run), n), Ula(x)), x, j)
    decreases |run|
  {
    hide Sane, Floors, Firm, Step, Fresh, Hopeful, Within, Distant, Tells, GoodEntry;
    if run == [] {
      NothingUnheard(net, n, x, j, heard);
    } else {
      var e := run[0];
      assert Fixed(e);
      StepFrame(exits, net, e);
      StepKeepsSane(exits, net, e, x);
      StepKeepsFloors(exits, net, e, x, j + 1, j + 1);
      StepKeepsFirm(exits, net, e, x, j - 1, j + 1, j + 1);
      LevelUnder(net, x, j - 1);
      StepKeepsTells(exits, net, e, x, j - 1);
      StepKeepsFresh(exits, net, e, n, x, j, heard);
      StepKeepsHopeful(exits, net, e, n, x, j, heard);
      HearLevel(exits, Step(net, e), run[1..], n, x, j, if e.Receive? && e.n == n then heard + {e.p} else heard);
    }
  }

  lemma {:induction false} HeardLevel(exits: set<Node>, net: Net, run: seq<Event>, x: Node, j: int)
    requires Sane(net, x) && FixedRun(exits, net, run) && Floors(net, x, j + 1, j + 1)
    requires Firm(net, x, j - 1) && Tells(net, x, j - 1) && j < ROUTE_INFINITY
    requires forall n, p | (n, p) in net.reg :: Reads(run, n, p) > 0
    ensures Level(Exec(exits, net, run), x, j)
  {
    hide Sane, Floors, Firm, Tells, GoodEntry;
    RunKeepsFloors(exits, net, run, x, j + 1, j + 1);
    forall n ensures LevelAt(Exec(exits, net, run), n, x, j) {
      if n != x && Distant(net.reg, j, n, x) {
        var p :| (n, p) in net.reg && Within(net.reg, j - 1, p, x);
        assert Nearer(net, n, p, x, j);
        assert Hopeful(net, n, x, j, {});
        HearLevel(exits, net, run, n, x, j, {});
      }
    }
  }

  // ---- epochs -------------------------------------------------------------

  lemma FirmGrows(net: Net, x: Node, j: int)
    requires Firm(net, x, j - 1) && Tells(net, x, j - 1) && Level(net, x, j)
    ensures Firm(net, x, j)
  {
    hide Level, Tells;
  }

  /** One epoch pushes the truth one hop further out. */
  lemma {:induction false} EpochFirms(exits: set<Node>, net: Net, t: Epoch, x: Node, j: int)
    requires Sane(net, x) && Floors(net, x, j + 1, j) && IsEpoch(exits, net, t)
    requires Firm(net, x, j - 1) && j < ROUTE_INFINITY
    ensures Sane(After(exits, net, t), x) && Floors(After(exits, net, t), x, j + 2, j + 1) && After(exits, net, t).reg == net.reg
    ensures Firm(After(exits, net, t), x, j)
  {
    hide Sane, Floors, Firm, Tells, Level;
    EpochRaisesFloor(exits, net, t, x, j + 1);
    var drained := Exec(exits, net, t.drain);
    DrainRaisesAds(exits, net, t.drain, x, j + 1, j);
    RunKeepsFirm(exits, net, t.drain, x, j - 1, j + 1, j);
    DrainedTells(exits, net, t.drain, x, j - 1, j + 1, j);
    var heard := Exec(exits, drained, t.hear);
    RunKeepsFloors(exits, drained, t.hear, x, j + 1, j + 1);
    FirmThroughHearing(exits, drained, t.hear, x, j);
    var held := Exec(exits, heard, t.hold);
    RunKeepsFloors(exits, heard, t.hold, x, j + 1, j + 1);
    RunKeepsFirm(exits, heard, t.hold, x, j, j + 1, j + 1);
    RunKeepsFirm(exits, held, t.sweep, x, j, j + 1, j + 1);
  }

  lemma {:induction false} RunKeepsTells(exits: set<Node>, net: Net, run: seq<Event>, x: Node, j: int, r: int, a: int)
    requires Sane(net, x) && FixedRun(exits, net, run) && Floors(net, x, r, a) && r <= a + 1 && a <= r
    requires Firm(net, x, j) && Tells(net, x, j) && a >= j && j < ROUTE_INFINITY
    ensures Tells(Exec(exits, net, run), x, j)
    decreases |run|
  {
    hide Sane, Floors, Firm, Step, Tells;
    if run != [] {
      assert Fixed(run[0]);
      StepKeepsSane(exits, net, run[0], x);
      StepKeepsFloors(exits, net, run[0], x, r, a);
      StepKeepsFirm(exits, net, run[0], x, j, r, a);
      LevelUnder(net, x, j);
      StepKeepsTells(exits, net, run[0], x, j);
      RunKeepsTells(exits, Step(net, run[0]), run[1..], x, j, r, a);
    }
  }

  lemma FirmThroughHearing(exits: set<Node>, net: Net, run: seq<Event>, x: Node, j: int)
    requires Sane(net, x) && FixedRun(exits, net, run) && Floors(net, x, j + 1, j + 1)
    requires Firm(net, x, j - 1) && Tells(net, x, j - 1) && j < ROUTE_INFINITY
    requires forall n, p | (n, p) in net.reg :: Reads(run, n, p) > 0
    ensures Firm(Exec(exits, net, run), x, j)
  {
    hide Sane, Floors, Firm, Tells, Level;
    RunKeepsFirm(exits, net, run, x, j - 1, j + 1, j + 1);
    RunKeepsTells(exits, net, run, x, j - 1, j + 1, j + 1);
    HeardLevel(exits, net, run, x, j);
    FirmGrows(Exec(exits, net, run), x, j);
  }

  lemma {:induction false} EpochKeepsFirm(exits: set<Node>, net: Net, t: Epoch, x: Node, j: int, r: int)
    requires Sane(net, x) && Floors(net, x, r, r - 1) && IsEpoch(exits, net, t)
    requires Firm(net, x, j) && j < ROUTE_INFINITY && j < r
    ensures Sane(After(exits, net, t), x) && Floors(After(exits, net, t), x, r + 1, r) && After(exits, net, t).reg == net.reg
    ensures Firm(After(exits, net, t), x, j)
  {
    hide Sane, Floors, Firm;
    EpochRaisesFloor(exits, net, t, x, r);
    var drained := Exec(exits, net, t.drain);
    RunKeepsFloors(exits, net, t.drain, x, r, r - 1);
    RunKeepsFirm(exits, net, t.drain, x, j, r, r - 1);
    var heard := Exec(exits, drained, t.hear);
    RunKeepsFloors(exits, drained, t.hear, x, r, r - 1);
    RunKeepsFirm(exits, drained, t.hear, x, j, r, r - 1);
    var held := Exec(exits, heard, t.hold);
    RunKeepsFloors(exits, heard, t.hold, x, r, r - 1);
    RunKeepsFirm(exits, heard, t.hold, x, j, r, r - 1);
    RunKeepsFirm(exits, held, t.sweep, x, j, r, r - 1);
  }

  function Capped(j: int): int {
    if j < ROUTE_INFINITY then j else ROUTE_INFINITY - 1
  }

  lemma {:induction false} EpochsFirm(exits: set<Node>, net: Net, ts: seq<Epoch>, x: Node, j: int)
    requires Sane(net, x) && Floors(net, x, j + 1, j) && AreEpochs(exits, net, ts) && Firm(net, x, Capped(j - 1))
    ensures var end := AfterAll(exits, net, ts);
            Sane(end, x) && Floors(end, x, j + |ts| + 1, j + |ts|) && Firm(end, x, Capped(j + |ts| - 1)) && end.reg == net.reg
    decreases |ts|
  {
    hide Sane, Floors, Firm, IsEpoch, After;
    if ts != [] {
      if j < ROUTE_INFINITY {
        EpochFirms(exits, net, ts[0], x, j);
      } else {
        EpochKeepsFirm(exits, net, ts[0], x, ROUTE_INFINITY - 1, j + 1);
      }
      EpochsFirm(exits, After(exits, net, ts[0]), ts[1..], x, j + 1);
    }
  }

  // ---- exact tables -------------------------------------------------------

  lemma {:induction false} DistanceExists(links: set<Link>, k: int, n: Node, x: Node) returns (j: int)
    requires Within(links, k, n, x)
    ensures 0 <= j <= k && Distant(links, j, n, x)
    decreases k
  {
    if Within(links, k - 1, n, x) {
      j := DistanceExists(links, k - 1, n, x);
    } else {
      j := k;
    }
  }

  lemma FirmIsExact(net: Net, n: Node, x: Node, k: int)
    requires Sane(net, x) && Floors(net, x, ROUTE_INFINITY, ROUTE_INFINITY - 1) && Firm(net, x, ROUTE_INFINITY - 1)
    requires 0 <= k < ROUTE_INFINITY
    ensures M(net, n, x) == k <==> Distant(net.reg, k, n, x)
  {
    hide Tells, QueueSane, Level, Within, Distant;
    SelfDistance(net.reg, k, x);
    if n != x {
      assert RouteSane(net, n, x) && RibFloor(net, n, x, ROUTE_INFINITY);
      if Distant(net.reg, k, n, x) {
        MetricIsDistance(net, n, x, k);
      }
      if M(net, n, x) == k {
        var e := RibOf(net, n)[Ula(x)];
        assert Lookup(RibOf(net, n), Ula(x)) == Some(e);
        WithinStep(net.reg, k - 1, n, e.next, x);
        var j := DistanceExists(net.reg, k, n, x);
        MetricIsDistance(net, n, x, j);
      }
    }
  }

  lemma MetricIsDistance(net: Net, n: Node, x: Node, k: int)
    requires Firm(net, x, ROUTE_INFINITY - 1) && n != x && k < ROUTE_INFINITY && Distant(net.reg, k, n, x)
    ensures M(net, n, x) == k && Ula(x) in RibOf(net, n)
  {
    assert Level(net, x, k) && LevelAt(net, n, x, k);
  }

  lemma ListedIffClose(net: Net, n: Node, x: Node)
    requires Sane(net, x) && Floors(net, x, ROUTE_INFINITY, ROUTE_INFINITY - 1) && Firm(net, x, ROUTE_INFINITY - 1) && n != x
    ensures Ula(x) in RibOf(net, n) <==> Within(net.reg, ROUTE_INFINITY - 1, n, x)
  {
    hide Tells, QueueSane, Level;
    assert RouteSane(net, n, x);
    if Ula(x) in RibOf(net, n) {
      var k := RibOf(net, n)[Ula(x)].metric;
      FirmIsExact(net, n, x, k);
      WithinMonotone(net.reg, net.reg, k, ROUTE_INFINITY - 1, n, x);
    }
    if Within(net.reg, ROUTE_INFINITY - 1, n, x) {
      var j := DistanceExists(net.reg, ROUTE_INFINITY - 1, n, x);
      MetricIsDistance(net, n, x, j);
    }
  }

  /** Sixteen epochs make every table exact, whatever it held before. */
  lemma {:induction false} SixteenEpochsHeal(exits: set<Node>, net: Net, ts: seq<Epoch>)
    requires (forall x :: Sane(net, x)) && AreEpochs(exits, net, ts) && |ts| >= 16
    ensures AfterAll(exits, net, ts).reg == net.reg && Convergence.Exact(AfterAll(exits, net, ts))
  {
    hide Sane, Floors, Firm, AreEpochs;
    var end := AfterAll(exits, net, ts);
    EpochsHealAt(exits, net, ts, Node([]));
    forall x ensures Healed(end, x) {
      EpochsHealAt(exits, net, ts, x);
    }
    HealedIsExact(end);
  }

  ghost predicate Healed(net: Net, x: Node) {
    Sane(net, x) && Floors(net, x, ROUTE_INFINITY, ROUTE_INFINITY - 1) && Firm(net, x, ROUTE_INFINITY - 1)
  }

  lemma HealedIsExact(net: Net)
    requires forall x :: Healed(net, x)
    ensures Convergence.Exact(net)
  {
    hide Sane, Floors, Firm;
    forall n, x, k | 0 <= k < ROUTE_INFINITY ensures M(net, n, x) == k <==> Distant(net.reg, k, n, x) {
      assert Healed(net, x);
      FirmIsExact(net, n, x, k);
    }
    forall n, x | n != x ensures Ula(x) in RibOf(net, n) <==> Within(net.reg, ROUTE_INFINITY - 1, n, x) {
      assert Healed(net, x);
      ListedIffClose(net, n, x);
    }
  }

  lemma EpochsHealAt(exits: set<Node>, net: Net, ts: seq<Epoch>, x: Node)
    requires Sane(net, x) && AreEpochs(exits, net, ts) && |ts| >= ROUTE_INFINITY
    ensures var end := AfterAll(exits, net, ts);
            Sane(end, x) && Floors(end, x, ROUTE_INFINITY, ROUTE_INFINITY - 1) && Firm(end, x, ROUTE_INFINITY - 1) && end.reg == net.reg
  {
    hide Sane, AreEpochs, RibFloor, AdFloor;
    SaneFloors(net, x);
    NothingFirm(net, x);
    EpochsFirm(exits, net, ts, x, 0);
    LowerFloors(AfterAll(exits, net, ts), x, |ts| + 1, |ts|, ROUTE_INFINITY, ROUTE_INFINITY - 1);
  }

  lemma NothingFirm(net: Net, x: Node)
    ensures Firm(net, x, -1)
  {
    assert forall i, n | i < 0 :: !Distant(net.reg, i, n, x);
  }

  lemma LowerFloors(net: Net, x: Node, r: int, a: int, r': int, a': int)
    requires Floors(net, x, r, a) && r' <= r && a' <= a
    ensures Floors(net, x, r', a')
  {
    forall n ensures RibFloor(net, n, x, r') {
      assert RibFloor(net, n, x, r);
    }
    forall p, n | (n, p) in net.reg ensures AdFloor(net.reg, p, Chan(net, p, n), x, a', 0) {
      assert AdFloor(net.reg, p, Chan(net, p, n), x, a, 0);
    }
  }
}
