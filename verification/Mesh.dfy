// A mesh of nodes running internal/node/route.go over FIFO control streams,
// in runs where sessions come up and none is lost. A handler that advertises
// owes one advertisement to every registered session; each owed advertisement
// is a later atomic snapshot-and-write, so handlers and writes interleave.
module Mesh {
  import opened Base
  import opened Rib
  import opened Distance

  datatype Net = Net(
    ribs: map<Node, Table>,
    reg: set<Link>,              // (n, p): n has a registered session to p
    up: set<Link>,               // (n, p): n has run onSessionUp for it
    queue: map<Link, seq<Ad>>,   // (p, n): written by p, not yet read by n
    owed: multiset<Link>,        // (p, n): advertisements p has still to write to n
    now: int)

  datatype Event =
    | Register(n: Node, p: Node)
    | Up(n: Node, p: Node)
    | Send(n: Node, p: Node, ad: Ad)
    | Receive(n: Node, p: Node)
    | ExpireStale(n: Node)
    | Refresh(n: Node)
    | Tick(elapsed: nat)

  const Start := Net(map[], {}, {}, map[], multiset{}, 0)

  function RibOf(net: Net, n: Node): Table {
    if n in net.ribs then net.ribs[n] else map[]
  }

  function Chan(net: Net, p: Node, n: Node): seq<Ad> {
    if (p, n) in net.queue then net.queue[(p, n)] else []
  }

  function Out(net: Net, n: Node): multiset<Link> {
    multiset(set l | l in net.reg && l.0 == n)
  }

  ghost predicate Enabled(exits: set<Node>, net: Net, e: Event) {
    match e
    case Register(n, p) => n != p && (n, p) !in net.reg
    case Up(n, p) => (n, p) in net.reg && (n, p) !in net.up
    case Send(n, p, ad) => net.owed[(n, p)] > 0 && Advertises(n, n in exits, RibOf(net, n), p, ad)
    case Receive(n, p) => (n, p) in net.reg && Chan(net, p, n) != []
    case _ => true
  }

  function Step(net: Net, e: Event): Net
    requires e.Receive? ==> Chan(net, e.p, e.n) != []
  {
    match e
    case Register(n, p) =>
      net.(reg := net.reg + {(n, p)})
    case Up(n, p) =>
      net.(ribs := net.ribs[n := InstallPeer(RibOf(net, n), p)],
           up := net.up + {(n, p)},
           owed := net.owed + multiset{(n, p)} + Out(net, n))
    case Send(n, p, ad) =>
      net.(queue := net.queue[(n, p) := Chan(net, n, p) + [ad]],
           owed := net.owed - multiset{(n, p)})
    case Receive(n, p) =>
      var ad := Chan(net, p, n)[0];
      net.(ribs := net.ribs[n := HandleRoutes(RibOf(net, n), n, p, ad, net.now)],
           queue := net.queue[(p, n) := Chan(net, p, n)[1..]],
           owed := net.owed + if Changed(RibOf(net, n), n, p, ad, net.now) then Out(net, n) else multiset{})
    case ExpireStale(n) =>
      var rib := Expire(RibOf(net, n), net.now);
      net.(ribs := net.ribs[n := rib],
           owed := net.owed + if rib != RibOf(net, n) then Out(net, n) else multiset{})
    case Refresh(n) =>
      net.(owed := net.owed + Out(net, n))
    case Tick(elapsed) =>
      net.(now := net.now + elapsed)
  }

  ghost predicate ValidRun(exits: set<Node>, net: Net, run: seq<Event>)
    decreases |run|
  {
    run == [] || (Enabled(exits, net, run[0]) && ValidRun(exits, Step(net, run[0]), run[1..]))
  }

  ghost function Exec(exits: set<Node>, net: Net, run: seq<Event>): Net
    requires ValidRun(exits, net, run)
    decreases |run|
  {
    if run == [] then net else Exec(exits, Step(net, run[0]), run[1..])
  }

  // ---- one destination on one link ----------------------------------------

  /** n's metric to x: 0 at x itself, ROUTE_INFINITY when there is no entry. */
  function M(net: Net, n: Node, x: Node): int {
    if n == x then 0
    else if Ula(x) in RibOf(net, n) then RibOf(net, n)[Ula(x)].metric
    else ROUTE_INFINITY
  }

  predicate Uses(net: Net, n: Node, x: Node, p: Node) {
    n != x && Via(Lookup(RibOf(net, n), Ula(x)), p)
  }

  function Listings(q: seq<Ad>, x: Node): seq<Option<int>> {
    seq(|q|, i requires 0 <= i < |q| => Listed(q[i], Ula(x)))
  }

  /** The metric n's own advertisement to p shows for x now. */
  function Shown(net: Net, n: Node, p: Node, x: Node): Option<int> {
    if M(net, n, x) < ROUTE_INFINITY && !Uses(net, n, x, p) then Some(M(net, n, x)) else None
  }

  /** The receiver's metric mn, the sender's metric mp, who routes via whom,
      and the listings still in flight from sender to receiver. */
  ghost predicate LinkOk(mn: int, nViaP: bool, mp: int, pViaN: bool, q: seq<Option<int>>) {
    && (nViaP ==> mp < mn && forall i | 0 <= i < |q| :: q[i].Some? && q[i].value < mn)
    && (pViaN ==> mn < mp)
    && (forall i | 0 <= i < |q| :: q[i].Some? ==> mp <= q[i].value)
    && (forall i, j | 0 <= i < j < |q| :: q[i].Some? ==>
          if q[j].Some? then q[j].value <= q[i].value else mn < q[i].value)
  }

  ghost predicate LinkInv(net: Net, p: Node, n: Node, x: Node) {
    LinkOk(M(net, n, x), Uses(net, n, x, p), M(net, p, x), Uses(net, p, x, n), Listings(Chan(net, p, n), x))
  }

  /** Nothing owed from p to n: the last word p wrote, or n's table, is current. */
  ghost predicate Settled(mn: int, mp: int, shown: Option<int>, q: seq<Option<int>>) {
    if q != [] then shown.Some? ==> q[|q| - 1] == shown
    else shown.Some? && mp + 1 < ROUTE_INFINITY ==> mn <= mp + 1
  }

  ghost predicate SettledInv(net: Net, p: Node, n: Node, x: Node) {
    (p, n) in net.up && net.owed[(p, n)] == 0 ==>
      Settled(M(net, n, x), M(net, p, x), Shown(net, p, n, x), Listings(Chan(net, p, n), x))
  }

  ghost predicate EntryInv(net: Net, n: Node, x: Node) {
    Ula(x) in RibOf(net, n) ==>
      var e := RibOf(net, n)[Ula(x)];
      n != x && 1 <= e.metric < ROUTE_INFINITY && e.stale.None? && (n, e.next) in net.reg && e.next != n
  }

  ghost predicate ListingInv(p: Node, ad: Ad, x: Node) {
    && Once(ad, Ula(x))
    && (Listed(ad, Ula(x)).Some? ==> 0 <= Listed(ad, Ula(x)).value < ROUTE_INFINITY)
    && (Listed(ad, Ula(x)) == Some(0) <==> x == p)
  }

  ghost predicate ChanInv(p: Node, q: seq<Ad>, x: Node) {
    forall i | 0 <= i < |q| :: ListingInv(p, q[i], x)
  }

  ghost predicate Inv(net: Net) {
    && (forall n, x :: EntryInv(net, n, x))
    && (forall p, n, x :: ChanInv(p, Chan(net, p, n), x))
    && (forall n, p :: (n, p) in net.up ==> (n, p) in net.reg && M(net, n, p) == 1)
    && (forall n, p :: (n, p) in net.reg ==> n != p)
    && (forall p, n, x :: LinkInv(net, p, n, x))
    && (forall p, n, x :: SettledInv(net, p, n, x))
  }
}
