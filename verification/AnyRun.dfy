// The lower bound in every run: sessions come, go and are replaced, and
// advertisements are lost, repeated, delayed and reordered at will.
module AnyRun {
  import opened Base
  import opened Rib
  import opened Distance

  datatype World = World(
    ribs: map<Node, Table>,
    ever: set<Link>,              // (n, p): n has at some time had a session to p
    sent: set<(Link, Ad)>,        // ((p, n), ad): ad was at some time written by p to n
    now: int)

  datatype Move =
    | Up(n: Node, p: Node)
    | Down(n: Node, p: Node)
    | Send(n: Node, p: Node, ad: Ad)
    | Receive(n: Node, p: Node, ad: Ad)
    | ExpireStale(n: Node)
    | Tick(elapsed: nat)

  const Start := World(map[], {}, {}, 0)

  function RibOf(w: World, n: Node): Table {
    if n in w.ribs then w.ribs[n] else map[]
  }

  ghost predicate Enabled(exits: set<Node>, w: World, m: Move) {
    match m
    case Up(n, p) => n != p
    case Send(n, p, ad) => Advertises(n, n in exits, RibOf(w, n), p, ad)
    case Receive(n, p, ad) => (n, p) in w.ever && ((p, n), ad) in w.sent
    case _ => true
  }

  function Step(w: World, m: Move): World {
    match m
    case Up(n, p) => w.(ribs := w.ribs[n := InstallPeer(RibOf(w, n), p)], ever := w.ever + {(n, p)})
    case Down(n, p) => w.(ribs := w.ribs[n := DropVia(RibOf(w, n), p)])
    case Send(n, p, ad) => w.(sent := w.sent + {((n, p), ad)})
    case Receive(n, p, ad) => w.(ribs := w.ribs[n := HandleRoutes(RibOf(w, n), n, p, ad, w.now)])
    case ExpireStale(n) => w.(ribs := w.ribs[n := Expire(RibOf(w, n), w.now)])
    case Tick(elapsed) => w.(now := w.now + elapsed)
  }

  /** d is at most k hops from n; for a default route, some exit node is. */
  ghost predicate Reaches(exits: set<Node>, links: set<Link>, k: int, n: Node, d: Dest) {
    if d.Ula? then Within(links, k, n, d.node)
    else exists x :: x in exits && Within(links, k, n, x)
  }

  ghost predicate TableOk(exits: set<Node>, links: set<Link>, n: Node, rib: Table) {
    forall d | d in rib ::
      d != Ula(n) && 1 <= rib[d].metric < ROUTE_INFINITY && Reaches(exits, links, rib[d].metric, n, d)
  }

  ghost predicate AdOk(exits: set<Node>, links: set<Link>, p: Node, ad: Ad) {
    forall r | r in ad ::
      r.dest.Some? && 0 <= r.metric < ROUTE_INFINITY && Reaches(exits, links, r.metric, p, r.dest.value)
  }

  ghost predicate Inv(exits: set<Node>, w: World) {
    && (forall l | l in w.ever :: l.0 != l.1)
    && (forall n :: TableOk(exits, w.ever, n, RibOf(w, n)))
    && (forall s | s in w.sent :: AdOk(exits, w.ever, s.0.0, s.1))
  }

  lemma ReachesMonotone(exits: set<Node>, links: set<Link>, links': set<Link>, k: int, n: Node, d: Dest)
    requires links <= links' && Reaches(exits, links, k, n, d)
    ensures Reaches(exits, links', k, n, d)
  {
    var x :| (if d.Ula? then x == d.node else x in exits) && Within(links, k, n, x);
    WithinMonotone(links, links', k, k, n, x);
  }

  lemma ReachesStep(exits: set<Node>, links: set<Link>, k: int, n: Node, p: Node, d: Dest)
    requires (n, p) in links && Reaches(exits, links, k, p, d)
    ensures Reaches(exits, links, k + 1, n, d)
  {
  }

  lemma {:induction false} ApplyKeepsOk(exits: set<Node>, links: set<Link>, n: Node, p: Node, rib: Table, ad: Ad)
    requires (n, p) in links && TableOk(exits, links, n, rib) && AdOk(exits, links, p, ad)
    ensures TableOk(exits, links, n, ApplyRoutes(rib, n, p, ad))
  {
    if ad != [] {
      var last := ad[|ad| - 1];
      assert last in ad;
      assert forall r | r in ad[..|ad| - 1] :: r in ad;
      ApplyKeepsOk(exits, links, n, p, rib, ad[..|ad| - 1]);
      ReachesStep(exits, links, last.metric, n, p, last.dest.value);
    }
  }

  lemma ReceiveKeepsOk(exits: set<Node>, links: set<Link>, n: Node, p: Node, rib: Table, ad: Ad, now: int)
    requires n != p && (n, p) in links && TableOk(exits, links, n, rib) && AdOk(exits, links, p, ad)
    ensures TableOk(exits, links, n, HandleRoutes(rib, n, p, ad, now))
  {
    WithinStep(links, 0, n, p, p);
    ApplyKeepsOk(exits, links, n, p, InstallDirect(rib, p), ad);
  }

  lemma SendIsOk(exits: set<Node>, links: set<Link>, n: Node, p: Node, rib: Table, ad: Ad)
    requires TableOk(exits, links, n, rib) && Advertises(n, n in exits, rib, p, ad)
    ensures AdOk(exits, links, n, ad)
  {
  }

  lemma StepKeepsInv(exits: set<Node>, w: World, m: Move)
    requires Inv(exits, w) && Enabled(exits, w, m)
    ensures Inv(exits, Step(w, m))
  {
    var w' := Step(w, m);
    forall n ensures TableOk(exits, w'.ever, n, RibOf(w', n)) {
      assert TableOk(exits, w.ever, n, RibOf(w, n));
      match m {
        case Up(a, p) =>
          forall d | d in RibOf(w, n) {
            ReachesMonotone(exits, w.ever, w'.ever, RibOf(w, n)[d].metric, n, d);
          }
          WithinStep(w'.ever, 0, a, p, p);
        case Receive(a, p, ad) =>
          if n == a {
            ReceiveKeepsOk(exits, w.ever, n, p, RibOf(w, n), ad, w.now);
          }
        case _ =>
      }
    }
    forall s | s in w'.sent ensures AdOk(exits, w'.ever, s.0.0, s.1) {
      if s in w.sent {
        forall r | r in s.1 {
          ReachesMonotone(exits, w.ever, w'.ever, r.metric, s.0.0, r.dest.value);
        }
      } else {
        SendIsOk(exits, w.ever, s.0.0, s.0.1, RibOf(w, s.0.0), s.1);
      }
    }
  }

  ghost predicate ValidRun(exits: set<Node>, w: World, run: seq<Move>)
    decreases |run|
  {
    run == [] || (Enabled(exits, w, run[0]) && ValidRun(exits, Step(w, run[0]), run[1..]))
  }

  ghost function Exec(exits: set<Node>, w: World, run: seq<Move>): World
    requires ValidRun(exits, w, run)
    decreases |run|
  {
    if run == [] then w else Exec(exits, Step(w, run[0]), run[1..])
  }

  lemma {:induction false} RunKeepsInv(exits: set<Node>, w: World, run: seq<Move>)
    requires Inv(exits, w) && ValidRun(exits, w, run)
    ensures Inv(exits, Exec(exits, w, run))
    decreases |run|
  {
    if run != [] {
      StepKeepsInv(exits, w, run[0]);
      RunKeepsInv(exits, Step(w, run[0]), run[1..]);
    }
  }

  /** In every run each metric lies in 1..15 and none is below the distance
      over the sessions ever established: to the owner of a ULA, or to the
      nearest exit node of a default route. */
  lemma MetricNeverBelowDistance(exits: set<Node>, run: seq<Move>, n: Node, d: Dest, k: int)
    requires ValidRun(exits, Start, run) && d in RibOf(Exec(exits, Start, run), n)
    ensures var w := Exec(exits, Start, run);
            var metric := RibOf(w, n)[d].metric;
            && d != Ula(n) && 1 <= metric < 16
            && (d.Ula? && Distant(w.ever, k, n, d.node) ==> k <= metric)
            && (!d.Ula? ==> exists x :: x in exits && Within(w.ever, metric, n, x))
  {
    RunKeepsInv(exits, Start, run);
    var w := Exec(exits, Start, run);
    var metric := RibOf(w, n)[d].metric;
    assert TableOk(exits, w.ever, n, RibOf(w, n));
    if d.Ula? && Distant(w.ever, k, n, d.node) && metric < k {
      WithinMonotone(w.ever, w.ever, metric, k - 1, n, d.node);
      assert false;
    }
  }
}
