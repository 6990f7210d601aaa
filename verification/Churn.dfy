// Meshes that lose sessions. However sessions have come, gone and been
// replaced, once they stay the tables become exact.
module Churn {
  import opened Base
  import opened Rib
  import opened Distance
  import opened Mesh
  import opened Decay
  import opened Stabilize
  import Convergence
  import Convergent

  /** An event of Mesh; n's end of its session to p ends; or a new session to
      p takes the old one's place at n. */
  datatype Happening = Ordinary(e: Event) | Lost(n: Node, p: Node) | Renewed(n: Node, p: Node)

  ghost predicate CanHappen(exits: set<Node>, net: Net, h: Happening) {
    match h
    case Ordinary(e) => Enabled(exits, net, e)
    case Lost(n, p) => (n, p) in net.reg
    case Renewed(n, p) => (n, p) in net.reg
  }

  /** What n had not read from p is gone with the old session. */
  function Happen(net: Net, h: Happening): Net
    requires h.Ordinary? && h.e.Receive? ==> Chan(net, h.e.p, h.e.n) != []
  {
    match h
    case Ordinary(e) => Step(net, e)
    case Lost(n, p) =>
      var rib := DropVia(RibOf(net, n), p);
      var cut := net.(ribs := net.ribs[n := rib], reg := net.reg - {(n, p)}, up := net.up - {(n, p)},
                      queue := net.queue[(p, n) := []], owed := net.owed[(n, p) := 0]);
      if rib != RibOf(net, n) then cut.(owed := cut.owed + Out(cut, n)) else cut
    case Renewed(n, p) =>
      net.(ribs := net.ribs[n := InstallPeer(RibOf(net, n), p)], up := net.up + {(n, p)},
           queue := net.queue[(p, n) := []], owed := net.owed + multiset{(n, p)} + Out(net, n))
  }

  ghost predicate ValidHistory(exits: set<Node>, net: Net, hs: seq<Happening>)
    decreases |hs|
  {
    hs == [] || (CanHappen(exits, net, hs[0]) && ValidHistory(exits, Happen(net, hs[0]), hs[1..]))
  }

  ghost function Played(exits: set<Node>, net: Net, hs: seq<Happening>): Net
    requires ValidHistory(exits, net, hs)
    decreases |hs|
  {
    if hs == [] then net else Played(exits, Happen(net, hs[0]), hs[1..])
  }

  // ---- what a loss costs --------------------------------------------------

  /** When n's session to p ends, n forgets its routes via p and nothing else:
      every route via another peer, however long, stays exactly as it was, and
      so does every other node's table. If anything went, n owes each peer it
      still has one more advertisement. */
  lemma {:induction false} LossSparesOthers(exits: set<Node>, net: Net, n: Node, p: Node, m: Node, d: Dest)
    requires CanHappen(exits, net, Lost(n, p))
    ensures var before, after := RibOf(net, m), RibOf(Happen(net, Lost(n, p)), m);
            if m == n && d in before && before[d].next == p then d !in after
            else (d in after <==> d in before) && (d in before ==> after[d] == before[d])
    ensures var net' := Happen(net, Lost(n, p));
            && net'.reg == net.reg - {(n, p)} && net'.up == net.up - {(n, p)}
            && forall q | (n, q) in net'.reg ::
                 net'.owed[(n, q)] == net.owed[(n, q)] + if exists c :: c in RibOf(net, n) && RibOf(net, n)[c].next == p then 1 else 0
  {
    var before := RibOf(net, n);
    var net' := Happen(net, Lost(n, p));
    if c :| c in before && before[c].next == p {
      assert c !in DropVia(before, p);
    } else {
      assert DropVia(before, p) == before;
    }
    forall q | (n, q) in net'.reg ensures (n, q) in net.reg && q != p && Out(net', n)[(n, q)] == 1 {
      assert (n, q) in (set l | l in net'.reg && l.0 == n);
    }
  }

  /** What n owes its peer q after an event at n: an advertisement for a new
      session, two to the peer it leads to; one if the table changed; one at
      each refresh; and one less once it is written. */
  lemma {:induction false} WhatIsOwed(exits: set<Node>, net: Net, h: Happening, n: Node, q: Node)
    requires CanHappen(exits, net, h) && (n, q) in net.reg
    ensures var more: int := Happen(net, h).owed[(n, q)] as int - net.owed[(n, q)] as int;
            match h
            case Ordinary(Up(m, p)) => more == if m != n then 0 else if q == p then 2 else 1
            case Renewed(m, p) => more == if m != n then 0 else if q == p then 2 else 1
            case Ordinary(ExpireStale(m)) =>
              more == if m == n && exists d :: d in RibOf(net, n) && Expired(RibOf(net, n)[d], net.now) then 1 else 0
            case Ordinary(Receive(m, p)) =>
              more == if m == n && Changed(RibOf(net, n), n, p, Chan(net, p, n)[0], net.now) then 1 else 0
            case Ordinary(Refresh(m)) => more == if m == n then 1 else 0
            case Ordinary(Send(m, p, ad)) => more == if (m, p) == (n, q) then -1 else 0
            case _ => true
  {
    hide Changed, HandleRoutes, Advertises;
    OwedOnce(net, n, q);
    match h
    case Ordinary(e) =>
      if !e.Tick? {
        OwedOnce(net, e.n, q);
        OwedElsewhere(net, e.n, n, q);
      }
      if e.ExpireStale? && e.n == n {
        var rib := RibOf(net, n);
        if d :| d in rib && Expired(rib[d], net.now) {
          assert d !in Expire(rib, net.now);
        } else {
          assert Expire(rib, net.now) == rib;
        }
      }
    case Renewed(m, p) =>
      OwedElsewhere(net, m, n, q);
    case Lost(_, _) =>
  }

  lemma OwedOnce(net: Net, n: Node, q: Node)
    ensures Out(net, n)[(n, q)] == if (n, q) in net.reg then 1 else 0
  {
    assert (n, q) in (set l | l in net.reg && l.0 == n) <==> (n, q) in net.reg;
  }

  lemma OwedElsewhere(net: Net, m: Node, n: Node, q: Node)
    ensures m != n ==> Out(net, m)[(n, q)] == 0
  {
  }

  // ---- what every history keeps -------------------------------------------

  lemma ComingUpKeepsSane(exits: set<Node>, net: Net, e: Event, x: Node)
    requires Sane(net, x) && !Fixed(e) && Enabled(exits, net, e)
    ensures Sane(Step(net, e), x)
  {
    hide QueueSane;
    var net' := Step(net, e);
    forall n ensures RouteSane(net', n, x) {
      assert RouteSane(net, n, x);
    }
    forall p, n ensures QueueSane(p, Chan(net', p, n), x) {
      assert QueueSane(p, Chan(net, p, n), x);
    }
    forall l | l in net'.owed ensures l in net'.reg {
      OutAt(net, e.n, l);
    }
  }

  lemma LossKeepsSane(net: Net, n: Node, p: Node, x: Node)
    requires Sane(net, x) && (n, p) in net.reg
    ensures Sane(Happen(net, Lost(n, p)), x)
  {
    hide AdSane;
    var net' := Happen(net, Lost(n, p));
    forall m ensures RouteSane(net', m, x) {
      assert RouteSane(net, m, x);
    }
    forall q, m ensures QueueSane(q, Chan(net', q, m), x) {
      assert QueueSane(q, Chan(net, q, m), x);
    }
    forall l | l in net'.owed ensures l in net'.reg {
      OutAt(net', n, l);
      assert Out(net', n) == Out(net.(reg := net'.reg), n);
    }
  }

  lemma RenewalKeepsSane(net: Net, n: Node, p: Node, x: Node)
    requires Sane(net, x) && (n, p) in net.reg
    ensures Sane(Happen(net, Renewed(n, p)), x)
  {
    hide AdSane;
    var net' := Happen(net, Renewed(n, p));
    forall m ensures RouteSane(net', m, x) {
      assert RouteSane(net, m, x);
    }
    forall q, m ensures QueueSane(q, Chan(net', q, m), x) {
      assert QueueSane(q, Chan(net, q, m), x);
    }
    forall l | l in net'.owed ensures l in net'.reg {
      OutAt(net, n, l);
    }
  }

  lemma {:induction false} HistoryKeepsSane(exits: set<Node>, net: Net, hs: seq<Happening>, x: Node)
    requires Sane(net, x) && ValidHistory(exits, net, hs)
    ensures Sane(Played(exits, net, hs), x)
    decreases |hs|
  {
    hide Sane, Step;
    if hs != [] {
      match hs[0] {
        case Ordinary(e) =>
          if Fixed(e) {
            StepKeepsSane(exits, net, e, x);
          } else {
            ComingUpKeepsSane(exits, net, e, x);
          }
        case Lost(n, p) => LossKeepsSane(net, n, p, x);
        case Renewed(n, p) => RenewalKeepsSane(net, n, p, x);
      }
      HistoryKeepsSane(exits, Happen(net, hs[0]), hs[1..], x);
    }
  }

  // ---- there is always another epoch --------------------------------------

  lemma {:induction false} FixedRunsCompose(exits: set<Node>, net: Net, a: seq<Event>, b: seq<Event>)
    requires FixedRun(exits, net, a) && FixedRun(exits, Exec(exits, net, a), b)
    ensures FixedRun(exits, net, a + b) && Exec(exits, net, a + b) == Exec(exits, Exec(exits, net, a), b)
  {
    hide ValidRun, Exec;
    Convergent.RunsCompose(exits, net, a, b);
  }

  lemma {:induction false} ReadsAdd(a: seq<Event>, b: seq<Event>, n: Node, p: Node)
    ensures Reads(a + b, n, p) == Reads(a, n, p) + Reads(b, n, p)
  {
    if a == [] {
      assert a + b == b;
    } else {
      assert (a + b)[1..] == a[1..] + b;
      ReadsAdd(a[1..], b, n, p);
    }
  }

  /** n reads all that p has written so far. */
  lemma {:induction false} ReadUp(exits: set<Node>, net: Net, n: Node, p: Node) returns (run: seq<Event>)
    requires (n, p) in net.reg
    ensures FixedRun(exits, net, run) && Exec(exits, net, run).reg == net.reg
    ensures Reads(run, n, p) >= |Chan(net, p, n)|
    ensures forall q, m | (q, m) != (p, n) :: Chan(Exec(exits, net, run), q, m) == Chan(net, q, m)
    decreases |Chan(net, p, n)|
  {
    hide HandleRoutes, Changed;
    if Chan(net, p, n) == [] {
      run := [];
    } else {
      var e := Receive(n, p);
      var rest := ReadUp(exits, Step(net, e), n, p);
      run := [e] + rest;
      assert run[1..] == rest;
    }
  }

  lemma {:induction false} ReadAllUp(exits: set<Node>, net: Net, links: seq<Link>) returns (run: seq<Event>)
    requires forall l | l in links :: l in net.reg
    ensures FixedRun(exits, net, run) && Exec(exits, net, run).reg == net.reg
    ensures forall l | l in links :: Reads(run, l.0, l.1) >= |Chan(net, l.1, l.0)|
    decreases |links|
  {
    hide ValidRun, Exec, Reads;
    if links == [] {
      run := ReadNothing(exits, net);
    } else {
      var (n, p) := links[0];
      var first := ReadUp(exits, net, n, p);
      var rest := ReadAllUp(exits, Exec(exits, net, first), links[1..]);
      FixedRunsCompose(exits, net, first, rest);
      run := first + rest;
      forall l | l in links ensures Reads(run, l.0, l.1) >= |Chan(net, l.1, l.0)| {
        ReadsAdd(first, rest, l.0, l.1);
        if l != (n, p) {
          assert l in links[1..];
        }
      }
    }
  }

  lemma ReadNothing(exits: set<Node>, net: Net) returns (run: seq<Event>)
    ensures run == [] && FixedRun(exits, net, run) && Exec(exits, net, run) == net
  {
    run := [];
  }

  /** p advertises to n once more, and n reads an advertisement of p. */
  lemma {:induction false} HearOnce(exits: set<Node>, net: Net, n: Node, p: Node) returns (run: seq<Event>)
    requires (n, p) in net.reg && (p, n) in net.reg
    ensures FixedRun(exits, net, run) && Exec(exits, net, run).reg == net.reg && Reads(run, n, p) > 0
  {
    hide ValidRun, Exec, Reads, HandleRoutes, Changed, Advertises;
    var net1 := Step(net, Refresh(p));
    OneEvent(exits, net, Refresh(p));
    assert (p, n) in Out(net, p);
    var ad := Convergent.SomeAd(p, p in exits, RibOf(net1, p), n);
    var net2 := Step(net1, Send(p, n, ad));
    OneEvent(exits, net1, Send(p, n, ad));
    OneEvent(exits, net2, Receive(n, p));
    FixedRunsCompose(exits, net1, [Send(p, n, ad)], [Receive(n, p)]);
    FixedRunsCompose(exits, net, [Refresh(p)], [Send(p, n, ad)] + [Receive(n, p)]);
    ReadsAdd([Send(p, n, ad)], [Receive(n, p)], n, p);
    ReadsAdd([Refresh(p)], [Send(p, n, ad)] + [Receive(n, p)], n, p);
    run := [Refresh(p)] + ([Send(p, n, ad)] + [Receive(n, p)]);
  }

  lemma OneEvent(exits: set<Node>, net: Net, e: Event)
    requires Fixed(e) && Enabled(exits, net, e)
    ensures FixedRun(exits, net, [e]) && Exec(exits, net, [e]) == Step(net, e)
    ensures e.Receive? ==> Reads([e], e.n, e.p) == 1
  {
    hide Step, Advertises;
    assert [e][1..] == [];
    assert ValidRun(exits, net, [e]) && forall x | x in [e] :: Fixed(x);
  }

  lemma {:induction false} HearAll(exits: set<Node>, net: Net, links: seq<Link>) returns (run: seq<Event>)
    requires Symmetric(net.reg) && forall l | l in links :: l in net.reg
    ensures FixedRun(exits, net, run) && Exec(exits, net, run).reg == net.reg
    ensures forall l | l in links :: Reads(run, l.0, l.1) > 0
    decreases |links|
  {
    hide ValidRun, Exec, Reads;
    if links == [] {
      run := ReadNothing(exits, net);
    } else {
      var (n, p) := links[0];
      var first := HearOnce(exits, net, n, p);
      var rest := HearAll(exits, Exec(exits, net, first), links[1..]);
      FixedRunsCompose(exits, net, first, rest);
      run := first + rest;
      forall l | l in links ensures Reads(run, l.0, l.1) > 0 {
        ReadsAdd(first, rest, l.0, l.1);
        if l != (n, p) {
          assert l in links[1..];
        }
      }
    }
  }

  lemma {:induction false} SweepAll(exits: set<Node>, net: Net, links: seq<Link>) returns (run: seq<Event>)
    ensures FixedRun(exits, net, run) && Exec(exits, net, run).reg == net.reg
    ensures forall l | l in links :: ExpireStale(l.0) in run
    decreases |links|
  {
    hide Expire;
    if links == [] {
      run := [];
    } else {
      var e := ExpireStale(links[0].0);
      var rest := SweepAll(exits, Step(net, e), links[1..]);
      run := [e] + rest;
      assert run[1..] == rest;
      forall l | l in links ensures ExpireStale(l.0) in run {
        if l != links[0] {
          assert l in links[1..];
        }
      }
    }
  }

  /** Wherever a mesh stands, an epoch can follow: the results about epochs are
      about something. */
  lemma {:induction false} EpochExists(exits: set<Node>, net: Net) returns (t: Epoch)
    requires Symmetric(net.reg)
    ensures IsEpoch(exits, net, t) && After(exits, net, t).reg == net.reg
  {
    hide ValidRun, Reads;
    var links := Enumerate(net.reg);
    var drain := ReadAllUp(exits, net, links);
    var drained := Exec(exits, net, drain);
    var hear := HearAll(exits, drained, links);
    var heard := Exec(exits, drained, hear);
    var hold := Wait(exits, heard);
    var held := Exec(exits, heard, hold);
    var sweep := SweepAll(exits, held, links);
    t := Epoch(drain, hear, hold, sweep);
    forall n, p | (n, p) in net.reg
      ensures Reads(drain, n, p) >= |Chan(net, p, n)| && Reads(hear, n, p) > 0 && ExpireStale(n) in sweep
    {
      assert (n, p) in links;
    }
  }

  lemma Wait(exits: set<Node>, net: Net) returns (run: seq<Event>)
    ensures FixedRun(exits, net, run)
    ensures Exec(exits, net, run) == net.(now := net.now + HOLDDOWN)
  {
    run := [Tick(HOLDDOWN)];
    assert run[1..] == [];
  }

  lemma {:induction false} EpochsExist(exits: set<Node>, net: Net, k: nat) returns (ts: seq<Epoch>)
    requires Symmetric(net.reg)
    ensures |ts| == k && AreEpochs(exits, net, ts)
    decreases k
  {
    hide IsEpoch, After;
    if k == 0 {
      ts := [];
    } else {
      var t := EpochExists(exits, net);
      var rest := EpochsExist(exits, After(exits, net, t), k - 1);
      ts := [t] + rest;
      assert ts[1..] == rest;
    }
  }

  // ---- the results --------------------------------------------------------

  /** Sessions come, go and are replaced in any order, interleaved with
      anything; sixteen epochs after the last change every table is exact for
      the sessions there are: what was lost is gone, what was cut off is gone,
      and what became reachable another way has been learned. */
  lemma {:induction false} ChurnHeals(exits: set<Node>, history: seq<Happening>, ts: seq<Epoch>)
    requires ValidHistory(exits, Start, history)
    requires AreEpochs(exits, Played(exits, Start, history), ts) && |ts| >= 16
    ensures var end := AfterAll(exits, Played(exits, Start, history), ts);
            end.reg == Played(exits, Start, history).reg && Convergence.Exact(end)
  {
    hide Sane, AreEpochs, Convergence.Exact, ValidHistory;
    var net := Played(exits, Start, history);
    forall x ensures Sane(net, x) {
      StartIsSane(x);
      HistoryKeepsSane(exits, Start, history, x);
    }
    SixteenEpochsHeal(exits, net, ts);
  }

  lemma StartIsSane(x: Node)
    ensures Sane(Start, x)
  {
  }

  lemma {:induction false} SomeoneNextTo(links: set<Link>, k: int, n: Node, x: Node) returns (b: Node)
    requires Within(links, k, n, x) && n != x
    ensures (b, x) in links
    decreases k
  {
    b :| (n, b) in links && Within(links, k - 1, b, x);
    if b == x {
      b := n;
    } else {
      b := SomeoneNextTo(links, k - 1, b, x);
    }
  }

  /** Node x leaves, each of its peers noticing in its own time: fifteen epochs
      after the last has noticed nobody holds a route to it. */
  lemma {:induction false} DepartedIsForgotten(exits: set<Node>, history: seq<Happening>, ts: seq<Epoch>, n: Node, x: Node)
    requires ValidHistory(exits, Start, history)
    requires forall b :: (b, x) !in Played(exits, Start, history).reg
    requires AreEpochs(exits, Played(exits, Start, history), ts) && |ts| >= 15
    ensures Ula(x) !in RibOf(AfterAll(exits, Played(exits, Start, history), ts), n)
  {
    hide Sane, AreEpochs, ValidHistory, Within;
    var net := Played(exits, Start, history);
    StartIsSane(x);
    HistoryKeepsSane(exits, Start, history, x);
    CountingToInfinityIsBounded(exits, net, ts, n, x);
    var end := AfterAll(exits, net, ts);
    if Ula(x) in RibOf(end, n) {
      var e := RibOf(end, n)[Ula(x)];
      if e.next != x {
        var b := SomeoneNextTo(net.reg, e.metric - 1, e.next, x);
      }
    }
  }
}
