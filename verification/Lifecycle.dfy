// One node's sessions and routes over whole runs, lock by lock: a session is
// registered, announced, read from, replaced and torn down by goroutines that
// interleave. The teardown reads the session map under one lock and sweeps the
// table under another, so its check and its sweep are separate events.
module Lifecycle {
  import opened Base
  import opened Rib
  import opened Router

  datatype Heard = Heard(peer: Node, ad: Ad, at: int)

  datatype Local = Local(
    sessions: map<Node, Session>,
    used: set<Session>,       // every session object ever created
    open: set<Session>,       // created, teardown not finished
    upped: set<Session>,      // onSessionUp has run
    leaving: set<Session>,    // read loop has ended and unregistered
    sweeping: set<Session>,   // teardown has decided to sweep, not swept yet
    rib: Table,
    log: seq<Heard>,          // advertisements processed, oldest first
    now: int)

  datatype Event =
    | Establish(s: Session)
    | SessionUp(s: Session)
    | Receive(s: Session, ad: Ad)
    | Unregister(s: Session)
    | Check(s: Session)
    | Sweep(s: Session)
    | ExpireStale
    | Tick(elapsed: nat)

  const Start := Local(map[], {}, {}, {}, {}, {}, map[], [], 0)

  predicate Enabled(self: Node, l: Local, e: Event) {
    match e
    case Establish(s) => s !in l.used && s.peer != self
    case SessionUp(s) => s in l.used && s !in l.upped
    case Receive(s, ad) => s in l.open && s !in l.leaving
    case Unregister(s) => s in l.open && s !in l.leaving
    case Check(s) => s in l.open && s in l.leaving && s !in l.sweeping
    case Sweep(s) => s in l.sweeping
    case _ => true
  }

  function Step(self: Node, l: Local, e: Event): Local {
    match e
    case Establish(s) =>
      l.(sessions := l.sessions[s.peer := s], used := l.used + {s}, open := l.open + {s})
    case SessionUp(s) =>
      l.(rib := InstallPeer(l.rib, s.peer), upped := l.upped + {s})
    case Receive(s, ad) =>
      l.(rib := HandleRoutes(l.rib, self, s.peer, ad, l.now), log := l.log + [Heard(s.peer, ad, l.now)])
    case Unregister(s) =>
      l.(leaving := l.leaving + {s},
         sessions := if s.peer in l.sessions && l.sessions[s.peer] == s then l.sessions - {s.peer} else l.sessions)
    case Check(s) =>
      if s.peer in l.sessions && l.sessions[s.peer] != s then l.(open := l.open - {s})
      else l.(sweeping := l.sweeping + {s})
    case Sweep(s) =>
      l.(rib := DropVia(l.rib, s.peer), sweeping := l.sweeping - {s}, open := l.open - {s})
    case ExpireStale =>
      l.(rib := Expire(l.rib, l.now))
    case Tick(elapsed) =>
      l.(now := l.now + elapsed)
  }

  ghost predicate ValidRun(self: Node, l: Local, run: seq<Event>)
    decreases |run|
  {
    run == [] || (Enabled(self, l, run[0]) && ValidRun(self, Step(self, l, run[0]), run[1..]))
  }

  ghost function Exec(self: Node, l: Local, run: seq<Event>): Local
    requires ValidRun(self, l, run)
    decreases |run|
  {
    if run == [] then l else Exec(self, Step(self, l, run[0]), run[1..])
  }

  // ---- routes and the sessions behind them --------------------------------

  ghost predicate SessionsInv(self: Node, l: Local) {
    && l.open <= l.used
    && (forall p | p in l.sessions :: l.sessions[p].peer == p && l.sessions[p] in l.open && l.sessions[p] !in l.leaving)
    && (forall s | s in l.used :: s.peer != self)
    && l.sweeping <= l.leaving && l.sweeping <= l.open && l.leaving <= l.used && l.upped <= l.used
    && Ula(self) !in l.rib
  }

  /** A route via p needs a session object of p that is not fully torn down. */
  ghost predicate Backed(l: Local) {
    forall d | d in l.rib :: exists s :: s in l.open && s.peer == l.rib[d].next
  }

  lemma {:induction false} ApplyNext(rib: Table, self: Node, from: Node, ad: Ad, d: Dest)
    ensures d in ApplyRoutes(rib, self, from, ad) ==>
              var e := ApplyRoutes(rib, self, from, ad)[d]; e.next == from || (d in rib && e == rib[d])
  {
    if ad != [] {
      ApplyNext(rib, self, from, ad[..|ad| - 1], d);
    }
  }

  lemma StepKeepsSessions(self: Node, l: Local, e: Event)
    requires SessionsInv(self, l) && Enabled(self, l, e)
    ensures SessionsInv(self, Step(self, l, e))
  {
    if e.Receive? {
      HandleRoutesAtSelf(l.rib, self, e.s.peer, e.ad, l.now);
    }
  }

  /** A session comes up when every session of its peer is torn down. */
  ghost predicate OrphanUp(l: Local, e: Event) {
    e.SessionUp? && forall s | s in l.open :: s.peer != e.s.peer
  }

  lemma StepBackedIff(self: Node, l: Local, e: Event)
    requires SessionsInv(self, l) && Backed(l) && Enabled(self, l, e)
    ensures Backed(Step(self, l, e)) <==> !OrphanUp(l, e)
  {
    var l' := Step(self, l, e);
    if OrphanUp(l, e) {
      assert Ula(e.s.peer) in l'.rib;
    } else {
      StepKeepsBacked(self, l, e);
    }
  }

  lemma StepKeepsBacked(self: Node, l: Local, e: Event)
    requires SessionsInv(self, l) && Backed(l) && Enabled(self, l, e) && !OrphanUp(l, e)
    ensures Backed(Step(self, l, e))
  {
    var l' := Step(self, l, e);
    forall d | d in l'.rib ensures exists s :: s in l'.open && s.peer == l'.rib[d].next {
      match e {
        case Receive(s, ad) =>
          ApplyNext(InstallDirect(l.rib, s.peer), self, s.peer, ad, d);
          if l'.rib[d].next != s.peer {
            var t :| t in l.open && t.peer == l.rib[d].next;
          }
        case SessionUp(s) =>
          if d == Ula(s.peer) {
            var t :| t in l.open && t.peer == s.peer;
          } else {
            var t :| t in l.open && t.peer == l.rib[d].next;
          }
        case Check(s) =>
          var t :| t in l.open && t.peer == l.rib[d].next;
          if t == s && t !in l'.open {
            assert l.sessions[s.peer] in l'.open;
          }
        case _ =>
          var t :| t in l.open && t.peer == l.rib[d].next;
          assert t in l'.open;
      }
    }
  }

  ghost predicate BackedThroughout(self: Node, l: Local, run: seq<Event>)
    requires ValidRun(self, l, run)
    decreases |run|
  {
    Backed(l) && (run != [] ==> BackedThroughout(self, Step(self, l, run[0]), run[1..]))
  }

  ghost predicate NoOrphanUp(self: Node, l: Local, run: seq<Event>)
    requires ValidRun(self, l, run)
    decreases |run|
  {
    run != [] ==> !OrphanUp(l, run[0]) && NoOrphanUp(self, Step(self, l, run[0]), run[1..])
  }

  lemma {:induction false} RunBackedIff(self: Node, l: Local, run: seq<Event>)
    requires SessionsInv(self, l) && Backed(l) && ValidRun(self, l, run)
    ensures BackedThroughout(self, l, run) <==> NoOrphanUp(self, l, run)
    decreases |run|
  {
    if run != [] {
      var l' := Step(self, l, run[0]);
      StepKeepsSessions(self, l, run[0]);
      StepBackedIff(self, l, run[0]);
      if Backed(l') {
        RunBackedIff(self, l', run[1..]);
      }
    }
  }

  /** In every run, whatever peers advertise: each route always has a session
      object of its next hop whose teardown is not finished, exactly when no
      session comes up after its own teardown with no other to its peer. */
  lemma RoutesAreBacked(self: Node, run: seq<Event>)
    requires ValidRun(self, Start, run)
    ensures BackedThroughout(self, Start, run) <==> NoOrphanUp(self, Start, run)
  {
    RunBackedIff(self, Start, run);
  }

  /** A read loop that ends at once, and is torn down before its session comes
      up, leaves a route without any session behind it. */
  lemma {:induction false} TeardownBeforeUp(self: Node, p: Node)
    requires self != p
    ensures var s := Session(p, 0);
            var run := [Establish(s), Unregister(s), Check(s), Sweep(s), SessionUp(s)];
            && ValidRun(self, Start, run)
            && var l := Exec(self, Start, run);
               l.open == {} && l.sessions == map[] && l.rib == map[Ula(p) := Entry(p, 1, None)]
  {
    hide ValidRun, Exec;
    var s := Session(p, 0);
    var l1 := Step(self, Start, Establish(s));
    var l2 := Step(self, l1, Unregister(s));
    var l3 := Step(self, l2, Check(s));
    var l4 := Step(self, l3, Sweep(s));
    var end := Step(self, l4, SessionUp(s));
    EmptyRun(self, end);
    Prepend(self, l4, SessionUp(s), [], end);
    Prepend(self, l3, Sweep(s), [SessionUp(s)] + [], end);
    Prepend(self, l2, Check(s), [Sweep(s)] + ([SessionUp(s)] + []), end);
    Prepend(self, l1, Unregister(s), [Check(s)] + ([Sweep(s)] + ([SessionUp(s)] + [])), end);
    Prepend(self, Start, Establish(s), [Unregister(s)] + ([Check(s)] + ([Sweep(s)] + ([SessionUp(s)] + []))), end);
    assert [Establish(s)] + ([Unregister(s)] + ([Check(s)] + ([Sweep(s)] + ([SessionUp(s)] + []))))
        == [Establish(s), Unregister(s), Check(s), Sweep(s), SessionUp(s)];
  }

  /** Such a route is for good: nothing but a new session to that peer can
      remove it. */
  lemma {:induction false} OrphanRouteStays(self: Node, l: Local, run: seq<Event>, p: Node)
    requires SessionsInv(self, l) && ValidRun(self, l, run) && p != self
    requires Lookup(l.rib, Ula(p)) == Some(Entry(p, 1, None)) && forall s | s in l.open :: s.peer != p
    requires forall e | e in run :: (e.Establish? ==> e.s.peer != p) && (e.Receive? ==> Honest(e.s.peer, e.ad))
    ensures Lookup(Exec(self, l, run).rib, Ula(p)) == Some(Entry(p, 1, None))
    decreases |run|
  {
    if run != [] {
      var e := run[0];
      assert e in run;
      StepKeepsSessions(self, l, e);
      if e.Receive? {
        assert Once(e.ad, Ula(p));
        HandleRoutesAt(l.rib, self, e.s.peer, e.ad, l.now, Ula(p));
      }
      OrphanRouteStays(self, Step(self, l, e), run[1..], p);
    }
  }

  // ---- who is registered, and until when ----------------------------------

  /** The newest session of a peer stays registered until its own read loop
      ends, whatever older sessions of that peer do meanwhile. */
  lemma {:induction false} NewestStaysRegistered(self: Node, l: Local, run: seq<Event>, s: Session)
    requires ValidRun(self, l, run) && s.peer in l.sessions && l.sessions[s.peer] == s
    requires forall e | e in run :: e != Unregister(s) && (e.Establish? ==> e.s.peer != s.peer)
    ensures var end := Exec(self, l, run); s.peer in end.sessions && end.sessions[s.peer] == s
    decreases |run|
  {
    if run != [] {
      assert run[0] in run && forall e | e in run[1..] :: e in run;
      NewestStaysRegistered(self, Step(self, l, run[0]), run[1..], s);
    }
  }

  /** Setting a session up registers it; the end of its read loop is the end of
      its registration, and of no other; its teardown is over once it has swept
      or found itself replaced, and not before. */
  lemma SessionsComeAndGo(self: Node, l: Local, e: Event, s: Session)
    requires SessionsInv(self, l) && Enabled(self, l, e)
    ensures var l' := Step(self, l, e);
            && (e == Establish(s) ==> s.peer in l'.sessions && l'.sessions[s.peer] == s)
            && (e == Unregister(s) ==> !(s.peer in l'.sessions && l'.sessions[s.peer] == s))
            && (s in l.open && s !in l'.open <==>
                  e == Sweep(s) || (e == Check(s) && s.peer in l.sessions && l.sessions[s.peer] != s))
  {
  }

  // ---- what a teardown costs ----------------------------------------------

  /** Sessions are set up, end and are torn down; nothing is heard. */
  predicate Silent(e: Event) {
    !e.Receive? && !e.SessionUp? && !e.ExpireStale?
  }

  /** However teardowns interleave, a route goes exactly if a session of its
      next hop is swept meanwhile; every other route, however long, is
      exactly as it was. */
  lemma {:induction false} TeardownsSpareOthers(self: Node, l: Local, run: seq<Event>, d: Dest)
    requires ValidRun(self, l, run) && forall e | e in run :: Silent(e)
    ensures var after := Exec(self, l, run).rib;
            if d in l.rib && !exists e :: e in run && e.Sweep? && e.s.peer == l.rib[d].next
            then d in after && after[d] == l.rib[d] else d !in after
    decreases |run|
  {
    if run != [] {
      var e := run[0];
      assert e in run && forall f | f in run :: f == e || f in run[1..];
      TeardownsSpareOthers(self, Step(self, l, e), run[1..], d);
    }
  }

  // ---- the direct route of a live session ---------------------------------

  /** Every registered session that has come up has its peer's ULA one hop
      away through the peer itself. */
  ghost predicate LiveDirect(l: Local) {
    forall p | p in l.sessions && l.sessions[p] in l.upped :: Lookup(l.rib, Ula(p)) == Some(Entry(p, 1, None))
  }

  /** An advertisement as sendRoutesTo builds it, for ULAs: the sender at 0,
      everyone else above, each at most once. */
  ghost predicate Honest(from: Node, ad: Ad) {
    forall x :: Once(ad, Ula(x)) && (Listed(ad, Ula(x)).Some? ==> Listed(ad, Ula(x)).value >= 0)
                && (x == from ==> Listed(ad, Ula(x)) == Some(0))
  }

  /** The sweep of this teardown hits a peer that is already back. */
  predicate SweepsReplaced(l: Local, e: Event) {
    e.Sweep? && e.s.peer in l.sessions && l.sessions[e.s.peer] in l.upped
  }

  /** Each event keeps every live direct route, except a sweep whose peer has
      registered and come up again since the teardown's check. */
  lemma LiveDirectUnlessSwept(self: Node, l: Local, e: Event)
    requires SessionsInv(self, l) && LiveDirect(l) && Enabled(self, l, e)
    requires e.Receive? ==> Honest(e.s.peer, e.ad)
    ensures LiveDirect(Step(self, l, e)) <==> !SweepsReplaced(l, e)
  {
    var l' := Step(self, l, e);
    if SweepsReplaced(l, e) {
      assert Ula(e.s.peer) !in l'.rib;
    } else {
      forall p | p in l'.sessions && l'.sessions[p] in l'.upped
        ensures Lookup(l'.rib, Ula(p)) == Some(Entry(p, 1, None))
      {
        assert p != self;
        if e.Receive? {
          assert Once(e.ad, Ula(p)) && Once(e.ad, Ula(e.s.peer));
          if p == e.s.peer {
            HandleRoutesAtPeer(l.rib, self, p, e.ad, l.now);
          } else {
            HandleRoutesAt(l.rib, self, e.s.peer, e.ad, l.now, Ula(p));
          }
        }
      }
    }
  }

  /** Teardowns whose check and sweep nothing separates. */
  ghost predicate Atomic(run: seq<Event>) {
    forall i | 0 <= i < |run| && run[i].Sweep? :: i > 0 && run[i - 1] == Check(run[i].s)
  }

  /** With atomic teardowns a late teardown of a replaced session never costs
      the new session its route. */
  lemma {:induction false} AtomicRunKeepsLiveDirect(self: Node, l: Local, run: seq<Event>)
    requires SessionsInv(self, l) && LiveDirect(l) && ValidRun(self, l, run)
    requires forall e | e in run && e.Receive? :: Honest(e.s.peer, e.ad)
    requires forall i | 0 < i < |run| && run[i].Sweep? :: run[i - 1] == Check(run[i].s)
    requires run != [] && run[0].Sweep? ==> run[0].s.peer !in l.sessions
    ensures LiveDirect(Exec(self, l, run))
    decreases |run|
  {
    if run != [] {
      var e := run[0];
      var l' := Step(self, l, e);
      assert e in run;
      LiveDirectUnlessSwept(self, l, e);
      StepKeepsSessions(self, l, e);
      if |run| > 1 && run[1].Sweep? {
        assert e == Check(run[1].s) && run[1].s in l'.sweeping;
        CheckFindsNoSession(self, l, run[1].s);
      }
      assert forall i | 0 < i < |run[1..]| :: run[1..][i] == run[i + 1] && run[1..][i - 1] == run[i];
      AtomicRunKeepsLiveDirect(self, l', run[1..]);
    }
  }

  lemma CheckFindsNoSession(self: Node, l: Local, s: Session)
    requires SessionsInv(self, l) && Enabled(self, l, Check(s)) && s in Step(self, l, Check(s)).sweeping
    ensures s.peer !in Step(self, l, Check(s)).sessions
  {
  }

  lemma LiveSessionsAreDirect(self: Node, run: seq<Event>)
    requires ValidRun(self, Start, run) && Atomic(run)
    requires forall e | e in run && e.Receive? :: Honest(e.s.peer, e.ad)
    ensures LiveDirect(Exec(self, Start, run))
  {
    AtomicRunKeepsLiveDirect(self, Start, run);
  }

  lemma {:induction false} Prepend(self: Node, l: Local, e: Event, rest: seq<Event>, end: Local)
    requires Enabled(self, l, e) && ValidRun(self, Step(self, l, e), rest) && Exec(self, Step(self, l, e), rest) == end
    ensures ValidRun(self, l, [e] + rest) && Exec(self, l, [e] + rest) == end
  {
  }

  /** The second half of the race: the new session comes up, then the old
      one's sweep goes through. */
  lemma {:induction false} SweepAfterRedial(self: Node, l: Local, s: Session, t: Session) returns (end: Local)
    requires s.peer == t.peer != self && s in l.sweeping && t !in l.used && t !in l.upped && s != t
    requires l.rib == map[Ula(s.peer) := Entry(s.peer, 1, None)] && l.sessions == map[]
    ensures ValidRun(self, l, [Establish(t), SessionUp(t), Sweep(s)])
    ensures end == Exec(self, l, [Establish(t), SessionUp(t), Sweep(s)])
    ensures end.sessions == map[t.peer := t] && t in end.upped && end.rib == map[]
  {
    hide ValidRun, Exec;
    var l1 := Step(self, l, Establish(t));
    var l2 := Step(self, l1, SessionUp(t));
    end := Step(self, l2, Sweep(s));
    EmptyRun(self, end);
    assert [Sweep(s)] + [] == [Sweep(s)] && [SessionUp(t)] + [Sweep(s)] == [SessionUp(t), Sweep(s)];
    Prepend(self, l2, Sweep(s), [], end);
    Prepend(self, l1, SessionUp(t), [Sweep(s)], end);
    Prepend(self, l, Establish(t), [SessionUp(t), Sweep(s)], end);
    assert [Establish(t)] + [SessionUp(t), Sweep(s)] == [Establish(t), SessionUp(t), Sweep(s)];
  }

  lemma EmptyRun(self: Node, l: Local)
    ensures ValidRun(self, l, []) && Exec(self, l, []) == l
  {
  }

  /** A redial between check and sweep: the new session ends up without even
      its direct route. */
  lemma {:induction false} RedialDuringTeardown(self: Node, p: Node)
    requires self != p
    ensures var s, t := Session(p, 0), Session(p, 1);
            var run := [Establish(s), SessionUp(s), Unregister(s), Check(s), Establish(t), SessionUp(t), Sweep(s)];
            && ValidRun(self, Start, run)
            && var l := Exec(self, Start, run);
               l.sessions == map[p := t] && t in l.upped && l.rib == map[]
  {
    hide ValidRun, Exec;
    var s, t := Session(p, 0), Session(p, 1);
    var rest := [Establish(t), SessionUp(t), Sweep(s)];
    var l1 := Step(self, Start, Establish(s));
    var l2 := Step(self, l1, SessionUp(s));
    var l3 := Step(self, l2, Unregister(s));
    var l4 := Step(self, l3, Check(s));
    var end := SweepAfterRedial(self, l4, s, t);
    Prepend(self, l3, Check(s), rest, end);
    Prepend(self, l2, Unregister(s), [Check(s)] + rest, end);
    Prepend(self, l1, SessionUp(s), [Unregister(s)] + ([Check(s)] + rest), end);
    Prepend(self, Start, Establish(s), [SessionUp(s)] + ([Unregister(s)] + ([Check(s)] + rest)), end);
    assert [Establish(s)] + ([SessionUp(s)] + ([Unregister(s)] + ([Check(s)] + rest)))
        == [Establish(s), SessionUp(s), Unregister(s), Check(s), Establish(t), SessionUp(t), Sweep(s)];
  }

  // ---- a neighbour is one hop away ----------------------------------------

  lemma {:induction false} OwnListing(rib: Table, self: Node, from: Node, ad: Ad)
    requires from != self && Via(Lookup(rib, Ula(from)), from)
    ensures Lookup(ApplyRoutes(rib, self, from, ad), Ula(from)) ==
            (match Listed(ad, Ula(from))
             case None => Lookup(rib, Ula(from))
             case Some(m) => if m + 1 >= ROUTE_INFINITY then None else Some(Entry(from, m + 1, None)))
  {
    if ad != [] {
      OwnListing(rib, self, from, ad[..|ad| - 1]);
    }
  }

  /** "Direct neighbor is always one hop, regardless of advertisements" holds
      exactly when the advertisement's last word on its sender, if any, is 0. */
  lemma NeighbourOneHopIff(rib: Table, self: Node, from: Node, ad: Ad, now: int)
    requires from != self
    ensures var e := Lookup(HandleRoutes(rib, self, from, ad, now), Ula(from));
            (Via(e, from) && e.value.metric == 1) <==>
            (Listed(ad, Ula(from)).None? || Listed(ad, Ula(from)) == Some(0))
  {
    OwnListing(InstallDirect(rib, from), self, from, ad);
  }

  lemma NeighbourSixHopsAway(self: Node, from: Node, now: int)
    requires from != self
    ensures Lookup(HandleRoutes(map[], self, from, [Route(Some(Ula(from)), 5)], now), Ula(from)) == Some(Entry(from, 6, None))
  {
    OwnListing(InstallDirect(map[], from), self, from, [Route(Some(Ula(from)), 5)]);
  }

  // ---- holddown -----------------------------------------------------------

  predicate Omits(self: Node, h: Heard, d: Dest) {
    d !in Seen(self, h.peer, h.ad)
  }

  /** From log position j on, every advertisement of p omitted d. */
  ghost predicate OmittedSince(self: Node, log: seq<Heard>, j: nat, p: Node, d: Dest) {
    forall k | j <= k < |log| && log[k].peer == p :: Omits(self, log[k], d)
  }

  /** A mark dates from an omission its next hop has not gone back on. */
  ghost predicate MarkExplained(self: Node, log: seq<Heard>, e: Entry, d: Dest) {
    e.stale.Some? ==>
      exists j :: 0 <= j < |log| && log[j].peer == e.next && log[j].at == e.stale.value
                  && OmittedSince(self, log, j, e.next, d)
  }

  ghost predicate MarksInv(self: Node, l: Local) {
    forall d | d in l.rib :: MarkExplained(self, l.log, l.rib[d], d)
  }

  /** A listed route through the lister carries no mark afterwards. */
  lemma {:induction false} ListingClears(rib: Table, self: Node, from: Node, ad: Ad, d: Dest)
    requires d != Ula(self)
    ensures var e := Lookup(ApplyRoutes(rib, self, from, ad), d);
            if Listed(ad, d).None? then e == Lookup(rib, d)
            else Via(e, from) ==> e.value.stale.None?
    ensures var e := Lookup(ApplyRoutes(rib, self, from, ad), d);
            e.Some? && e.value.next != from ==> e == Lookup(rib, d)
  {
    if ad != [] {
      ListingClears(rib, self, from, ad[..|ad| - 1], d);
    }
  }

  lemma ReceiveKeepsMarks(self: Node, l: Local, s: Session, ad: Ad, d: Dest)
    requires SessionsInv(self, l) && MarksInv(self, l) && Enabled(self, l, Receive(s, ad))
    requires d in Step(self, l, Receive(s, ad)).rib
    ensures var l' := Step(self, l, Receive(s, ad)); MarkExplained(self, l'.log, l'.rib[d], d)
  {
    var l' := Step(self, l, Receive(s, ad));
    var direct := InstallDirect(l.rib, s.peer);
    HandleRoutesAtSelf(l.rib, self, s.peer, ad, l.now);
    ListingClears(direct, self, s.peer, ad, d);
    SeenIffListed(self, s.peer, ad, d);
    var e := l'.rib[d];
    if e.stale.Some? {
      var applied := ApplyRoutes(direct, self, s.peer, ad);
      if applied[d].stale.None? {
        assert l'.log[|l.log|] == Heard(s.peer, ad, l.now);
        assert OmittedSince(self, l'.log, |l.log|, s.peer, d);
      } else {
        assert e == applied[d] && Lookup(direct, d) == Some(e) && Lookup(l.rib, d) == Some(e);
        var j :| 0 <= j < |l.log| && l.log[j].peer == e.next && l.log[j].at == e.stale.value && OmittedSince(self, l.log, j, e.next, d);
        assert Omits(self, l.log[j], d);
        assert l'.log[j] == l.log[j];
        assert OmittedSince(self, l'.log, j, e.next, d);
      }
    }
  }

  lemma StepKeepsMarks(self: Node, l: Local, e: Event)
    requires SessionsInv(self, l) && MarksInv(self, l) && Enabled(self, l, e)
    ensures MarksInv(self, Step(self, l, e))
  {
    if e.Receive? {
      forall d | d in Step(self, l, e).rib {
        ReceiveKeepsMarks(self, l, e.s, e.ad, d);
      }
    }
  }

  lemma {:induction false} RunKeepsMarks(self: Node, l: Local, run: seq<Event>)
    requires SessionsInv(self, l) && MarksInv(self, l) && ValidRun(self, l, run)
    ensures SessionsInv(self, Exec(self, l, run)) && MarksInv(self, Exec(self, l, run))
    decreases |run|
  {
    if run != [] {
      StepKeepsSessions(self, l, run[0]);
      StepKeepsMarks(self, l, run[0]);
      RunKeepsMarks(self, Step(self, l, run[0]), run[1..]);
    }
  }

  /** Every route some advertisement of its next hop has omitted since it was
      last listed carries a mark at least that old. */
  ghost predicate MarkedSince(self: Node, l: Local, d: Dest, j: nat) {
    d in l.rib && j < |l.log| && l.log[j].peer == l.rib[d].next && OmittedSince(self, l.log, j, l.rib[d].next, d) ==>
      l.rib[d].stale.Some? && l.rib[d].stale.value <= l.log[j].at
  }

  ghost predicate AgesInv(self: Node, l: Local) {
    (forall d | d in l.rib && l.rib[d].stale.Some? :: l.rib[d].stale.value <= l.now) && forall d, j :: MarkedSince(self, l, d, j)
  }

  lemma ReceiveKeepsAges(self: Node, l: Local, s: Session, ad: Ad, d: Dest, j: nat)
    requires SessionsInv(self, l) && AgesInv(self, l) && Enabled(self, l, Receive(s, ad))
    ensures MarkedSince(self, Step(self, l, Receive(s, ad)), d, j)
    ensures var rib := Step(self, l, Receive(s, ad)).rib; d in rib && rib[d].stale.Some? ==> rib[d].stale.value <= l.now
  {
    var l' := Step(self, l, Receive(s, ad));
    if d in l'.rib && l'.rib[d].stale.Some? {
      HandleRoutesAtSelf(l.rib, self, s.peer, ad, l.now);
      ListingClears(InstallDirect(l.rib, s.peer), self, s.peer, ad, d);
    }
    if d in l'.rib && j < |l'.log| && l'.log[j].peer == l'.rib[d].next && OmittedSince(self, l'.log, j, l'.rib[d].next, d) {
      HandleRoutesAtSelf(l.rib, self, s.peer, ad, l.now);
      ListingClears(InstallDirect(l.rib, s.peer), self, s.peer, ad, d);
      ApplyNext(InstallDirect(l.rib, s.peer), self, s.peer, ad, d);
      SeenIffListed(self, s.peer, ad, d);
      assert Omits(self, l'.log[j], d);
      var last := l'.log[|l.log|];
      assert last == Heard(s.peer, ad, l.now);
      if l'.rib[d].next == s.peer {
        assert Omits(self, last, d);
      }
      assert d in l.rib && l.rib[d].next == l'.rib[d].next;
      if j < |l.log| {
        assert l'.log[j] == l.log[j];
        assert forall k | j <= k < |l.log| :: l'.log[k] == l.log[k];
        assert MarkedSince(self, l, d, j);
      }
    }
  }

  lemma StepKeepsAges(self: Node, l: Local, e: Event)
    requires SessionsInv(self, l) && AgesInv(self, l) && Enabled(self, l, e)
    ensures AgesInv(self, Step(self, l, e))
  {
    var l' := Step(self, l, e);
    forall d | d in l'.rib && l'.rib[d].stale.Some? ensures l'.rib[d].stale.value <= l'.now {
      if e.Receive? {
        ReceiveKeepsAges(self, l, e.s, e.ad, d, 0);
      }
    }
    forall d, j: nat ensures MarkedSince(self, l', d, j) {
      if e.Receive? {
        ReceiveKeepsAges(self, l, e.s, e.ad, d, j);
      } else {
        assert MarkedSince(self, l, d, j);
        if e.SessionUp? && d == Ula(e.s.peer) && j < |l.log| && l.log[j].peer == e.s.peer {
          assert !Omits(self, l.log[j], d);
        }
      }
    }
  }

  lemma {:induction false} RunKeepsAges(self: Node, l: Local, run: seq<Event>)
    requires SessionsInv(self, l) && AgesInv(self, l) && ValidRun(self, l, run)
    ensures AgesInv(self, Exec(self, l, run))
    decreases |run|
  {
    if run != [] {
      StepKeepsSessions(self, l, run[0]);
      StepKeepsAges(self, l, run[0]);
      RunKeepsAges(self, Step(self, l, run[0]), run[1..]);
    }
  }

  /** The holddown timer, or an advertisement of the route's next hop that
      omits it: what may delete a route for omission. */
  predicate MayDelete(self: Node, l: Local, e: Event, d: Dest) {
    && d in l.rib
    && (e.ExpireStale? || (e.Receive? && e.s.peer == l.rib[d].next && Omits(self, Heard(e.s.peer, e.ad, l.now), d)))
  }

  /** A route is deleted for omission exactly when at least three seconds
      have passed in which every advertisement processed from its next hop
      omitted it. */
  lemma OmissionOutlastsHolddown(self: Node, run: seq<Event>, e: Event, d: Dest)
    requires ValidRun(self, Start, run)
    requires var l := Exec(self, Start, run); Enabled(self, l, e) && MayDelete(self, l, e, d)
    ensures var l := Exec(self, Start, run);
            d !in Step(self, l, e).rib <==>
            exists j :: 0 <= j < |l.log| && l.log[j].peer == l.rib[d].next
                        && l.now - l.log[j].at >= 3000
                        && OmittedSince(self, l.log, j, l.rib[d].next, d)
  {
    RunKeepsMarks(self, Start, run);
    RunKeepsAges(self, Start, run);
    var l := Exec(self, Start, run);
    DeletedIfExpired(self, l, e, d);
    assert MarkExplained(self, l.log, l.rib[d], d);
    if j :| 0 <= j < |l.log| && l.log[j].peer == l.rib[d].next && l.now - l.log[j].at >= HOLDDOWN
            && OmittedSince(self, l.log, j, l.rib[d].next, d) {
      assert MarkedSince(self, l, d, j);
    }
  }

  lemma DeletedIfExpired(self: Node, l: Local, e: Event, d: Dest)
    requires SessionsInv(self, l) && Enabled(self, l, e) && MayDelete(self, l, e, d)
    ensures d !in Step(self, l, e).rib <==> Expired(l.rib[d], l.now)
  {
    if e.Receive? {
      ListingClears(InstallDirect(l.rib, e.s.peer), self, e.s.peer, e.ad, d);
      SeenIffListed(self, e.s.peer, e.ad, d);
    }
  }
}
