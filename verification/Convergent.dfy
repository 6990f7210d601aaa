// The routing protocol as a whole: on a fixed mesh where no advertisement lists
// a default twice, triggered advertisement alone always stops, and it stops
// with exact tables, the defaults included.
module Convergent {
  import opened Base
  import opened Rib
  import opened Distance
  import opened Mesh
  import opened DefaultRoutes
  import opened Termination
  import Convergence

  /** Nothing is left to write or read. */
  ghost predicate Stuck(exits: set<Node>, net: Net) {
    forall e | Triggered(e) :: !Enabled(exits, net, e)
  }

  /** Both ends of every session have come up. */
  ghost predicate HandshakesDone(net: Net) {
    net.up == net.reg && Symmetric(net.reg)
  }

  /** Only registered sessions are owed or carry advertisements. */
  ghost predicate Wired(net: Net) {
    && (forall l | l in net.owed :: l in net.reg)
    && (forall p, n :: Chan(net, p, n) != [] ==> (p, n) in net.reg)
  }

  lemma StepKeepsWired(exits: set<Node>, net: Net, e: Event)
    requires Wired(net) && Enabled(exits, net, e)
    ensures Wired(Step(net, e))
    ensures Triggered(e) ==> Step(net, e).reg == net.reg && Step(net, e).up == net.up
  {
    hide HandleRoutes, Changed, Expire, InstallPeer, Advertises;
    var net' := Step(net, e);
    forall l | l in net'.owed ensures l in net'.reg {
    }
    forall p, n | Chan(net', p, n) != [] ensures (p, n) in net'.reg {
      assert Chan(net, p, n) != [] ==> (p, n) in net.reg;
    }
  }

  lemma {:induction false} RunKeepsWired(exits: set<Node>, net: Net, run: seq<Event>)
    requires Wired(net) && ValidRun(exits, net, run)
    ensures Wired(Exec(exits, net, run))
    ensures (forall e | e in run :: Triggered(e)) ==> Exec(exits, net, run).reg == net.reg && Exec(exits, net, run).up == net.up
    decreases |run|
  {
    hide Wired, Step;
    if run != [] {
      StepKeepsWired(exits, net, run[0]);
      RunKeepsWired(exits, Step(net, run[0]), run[1..]);
      assert run[0] in run;
    }
  }

  lemma {:induction false} RunsCompose(exits: set<Node>, net: Net, a: seq<Event>, b: seq<Event>)
    requires ValidRun(exits, net, a) && ValidRun(exits, Exec(exits, net, a), b)
    ensures ValidRun(exits, net, a + b) && Exec(exits, net, a + b) == Exec(exits, Exec(exits, net, a), b)
    decreases |a|
  {
    hide Step;
    if a == [] {
      assert a + b == b;
    } else {
      assert (a + b)[1..] == a[1..] + b;
      RunsCompose(exits, Step(net, a[0]), a[1..], b);
    }
  }

  /** There is always something truthful to send. */
  lemma SomeAd(n: Node, exit: bool, rib: Table, p: Node) returns (ad: Ad)
    ensures Advertises(n, exit, rib, p, ad)
  {
    var ds := Enumerate(set d | d in rib && Exported(rib, p, d));
    var listed := seq(|ds|, i requires 0 <= i < |ds| =>
      assert ds[i] in ds; Route(Some(ds[i]), rib[ds[i]].metric));
    var h := OwnRoutes(n, exit);
    ad := h + listed;
    forall i | |h| <= i < |ad|
      ensures ad[i].dest.Some? && Exported(rib, p, ad[i].dest.value) && ad[i].metric == rib[ad[i].dest.value].metric
    {
      assert ds[i - |h|] in ds;
    }
    forall d | Exported(rib, p, d) ensures exists i :: |h| <= i < |ad| && ad[i].dest == Some(d) {
      assert d in ds;
      var j :| 0 <= j < |ds| && ds[j] == d;
      assert ad[|h| + j].dest == Some(d);
    }
  }

  lemma StuckIsQuiescent(exits: set<Node>, net: Net)
    requires Wired(net) && HandshakesDone(net) && Stuck(exits, net)
    ensures Convergence.Quiescent(net)
  {
    if net.owed != multiset{} {
      var l :| l in net.owed;
      var ad := SomeAd(l.0, l.0 in exits, RibOf(net, l.0), l.1);
      assert Triggered(Send(l.0, l.1, ad)) && Enabled(exits, net, Send(l.0, l.1, ad));
      assert false;
    }
    forall p, n ensures Chan(net, p, n) == [] {
      assert Triggered(Receive(n, p));
    }
  }

  /** Sessions come up in any order among the nodes of v, interleaved with
      anything; once all handshakes are done, writes and reads alone go on for
      at most Rank steps, and where they can go on no further every table is
      exact: for each node, and for the nearest exit. */
  lemma {:induction false} TriggeredUpdatesConverge(exits: set<Node>, v: set<Node>, pairs: seq<Link>, history: seq<Event>, run: seq<Event>)
    requires ValidRun(exits, Start, history) && forall e | e in history && e.Register? :: e.n in v && e.p in v
    requires AllPairs(pairs, v)
    requires HandshakesDone(Exec(exits, Start, history))
    requires ValidRun(exits, Exec(exits, Start, history), run) && forall e | e in run :: Triggered(e)
    requires exits == {} || forall e | e in history + run :: SingleListed(e)
    ensures |run| <= Rank(exits, Exec(exits, Start, history), pairs)
    ensures var end := Exec(exits, Exec(exits, Start, history), run);
            Stuck(exits, end) ==> Convergence.Exact(end) && DefaultsExact(exits, end, DefaultV6) && DefaultsExact(exits, end, DefaultV4)
  {
    hide Rank, Convergence.Exact, Stuck, Step, Enabled, DefaultsExact, SingleListed;
    TriggeredUpdatesEnd(exits, v, pairs, history, run);
    var net := Exec(exits, Start, history);
    var end := Exec(exits, net, run);
    if Stuck(exits, end) {
      RunKeepsWired(exits, Start, history);
      RunKeepsWired(exits, net, run);
      StuckIsQuiescent(exits, end);
      RunsCompose(exits, Start, history, run);
      Convergence.QuiescentIsExact(exits, history + run);
      if exits == {} {
        NoExitRunsListOnce(Start, history + run);
      }
      DefaultsAreExact(exits, history + run, DefaultV6);
      DefaultsAreExact(exits, history + run, DefaultV4);
    }
  }
}
