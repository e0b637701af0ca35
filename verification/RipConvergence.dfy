/** Convergence on a fixed network. A phase is complete when every router has handled, from
    every neighbour, at least one response generated in that phase. Responses may be delayed
    within the phase, lost, repeated, reordered, and sent at any moment, triggered updates
    included; only responses of earlier phases are no longer delivered. */
module RipConvergence {
  import opened Words
  import opened Wrappers
  import opened FwdTables
  import opened RipRouter
  import opened RipNetwork

  datatype Phase = Phase(tables: map<nat, Table>, current: set<Message>, heard: set<(nat, nat)>, completed: nat)

  ghost predicate PhaseSend(g: Topology, s: Phase, s': Phase) {
    exists r: nat, m: nat, order: seq<FwdKey> ::
      && Adjacent(g, r, m) && Adjacent(g, m, r) && r in s.tables && IsOrder(s.tables[r], order)
      && s' == s.(current := s.current + {Message(r, m, ResponseFor(s.tables[r], order, g.addr[(m, r)]))})
  }

  // The effect of one delivery; `heard` holds the pair (router, neighbour it has heard from).
  ghost predicate Delivered(g: Topology, s: Phase, s': Phase, msg: Message, now: int, t': Table) {
    && msg in s.current && Adjacent(g, msg.from, msg.to) && msg.to in s.tables
    && ReceiveStep(s.tables[msg.to], g.addr[(msg.from, msg.to)], msg.entries, now, t')
    && s' == s.(tables := s.tables[msg.to := t'], heard := s.heard + {(msg.to, msg.from)})
  }

  ghost predicate PhaseDeliver(g: Topology, s: Phase, s': Phase) {
    exists msg: Message, now: int, t': Table :: Delivered(g, s, s', msg, now, t')
  }

  ghost predicate PhaseEnds(g: Topology, s: Phase, s': Phase) {
    && (forall r: nat, m: nat | Adjacent(g, r, m) :: (r, m) in s.heard)
    && s' == s.(current := {}, heard := {}, completed := s.completed + 1)
  }

  ghost predicate PhaseStep(g: Topology, s: Phase, s': Phase) {
    PhaseSend(g, s, s') || PhaseDeliver(g, s, s') || PhaseEnds(g, s, s')
  }

  function Within(k: nat): nat { if k < 15 then k else 15 }

  // The route has exactly the hop distance as cost.
  ghost predicate Exact(route: Option<FwdValue>, d: nat) { route.Some? && route.value.cost == d }

  /** After k phases every router within k hops (and 15) of a network has the exact cost. */
  ghost predicate ExactWithin(g: Topology, tables: map<nat, Table>, k: nat)
    requires ValidTopology(g)
  {
    forall r: nat, n: nat, d: nat | AtDistance(g, r, n, d) && d <= Within(k) :: Exact(RouteAt(g, tables, r, n), d)
  }

  // A response of this phase from a router within k hops tells any neighbour farther away the exact cost.
  ghost predicate TellsExact(g: Topology, msg: Message, k: nat)
    requires ValidTopology(g)
  {
    forall n: nat, d: nat | AtDistance(g, msg.from, n, d) && d <= Within(k) && !Reach(g, msg.to, n, d) ::
      Offers(msg.entries, g.bits, n, d) && forall c: U32 | Offers(msg.entries, g.bits, n, c) :: c == d
  }

  // In this phase r has heard from its neighbour m, one hop closer to n.
  ghost predicate HeardCloser(g: Topology, s: Phase, r: nat, m: nat, n: nat)
    requires ValidTopology(g)
  {
    && (r, m) in s.heard && Adjacent(g, r, m) && s.completed < 15
    && AtDistance(g, m, n, s.completed) && AtDistance(g, r, n, s.completed + 1)
  }

  // What hearing from a neighbour in this phase has already brought.
  ghost predicate HeardExact(g: Topology, s: Phase)
    requires ValidTopology(g)
  {
    forall r: nat, m: nat, n: nat | HeardCloser(g, s, r, m, n) :: Exact(RouteAt(g, s.tables, r, n), s.completed + 1)
  }

  ghost predicate PhaseOk(g: Topology, s: Phase)
    requires ValidTopology(g)
  {
    && s.tables.Keys == g.routers
    && (forall r | r in g.routers :: RouterOk(g, r, s.tables[r]))
    && (forall m | m in s.current :: MessageOk(g, m) && TellsExact(g, m, s.completed))
    && ExactWithin(g, s.tables, s.completed)
    && HeardExact(g, s)
  }

  // ---------- Distances of neighbours ----------

  lemma NeighbourDistance(g: Topology, r: nat, m: nat, n: nat, d: nat)
    requires ValidTopology(g) && Adjacent(g, r, m) && AtDistance(g, r, n, d) && d > 0
    ensures forall k: nat | Reach(g, m, n, k) :: k >= d - 1
    ensures Reach(g, m, n, d - 1) ==> AtDistance(g, m, n, d - 1)
  {
    forall k: nat | Reach(g, m, n, k) ensures k >= d - 1 {
      assert Reach(g, r, n, k + 1);
      if k + 1 < d { ReachMore(g, r, n, k + 1, d - 1); }
    }
  }

  // A router at distance d + 1 has a neighbour at distance d.
  lemma CloserNeighbour(g: Topology, r: nat, n: nat, d: nat) returns (m: nat)
    requires ValidTopology(g) && AtDistance(g, r, n, d + 1)
    ensures Adjacent(g, r, m) && AtDistance(g, m, n, d)
  {
    assert n !in g.attached[r];
    m :| Adjacent(g, r, m) && Reach(g, m, n, d);
    NeighbourDistance(g, r, m, n, d + 1);
  }

  // ---------- Sending ----------

  lemma SentTellsExact(g: Topology, r: nat, m: nat, t: Table, order: seq<FwdKey>, tables: map<nat, Table>, k: nat)
    requires ValidTopology(g) && Adjacent(g, r, m) && RouterOk(g, r, t) && IsOrder(t, order)
    requires r in tables && tables[r] == t && ExactWithin(g, tables, k)
    ensures TellsExact(g, Message(r, m, ResponseFor(t, order, g.addr[(m, r)])), k)
  {
    var dst := g.addr[(m, r)];
    var entries := ResponseFor(t, order, dst);
    forall n: nat, d: nat | AtDistance(g, r, n, d) && d <= Within(k) && !Reach(g, m, n, d)
      ensures Offers(entries, g.bits, n, d) && forall c: U32 | Offers(entries, g.bits, n, c) :: c == d
    {
      ResponseOffers(t, g.bits, order, dst, n);
      assert Exact(RouteAt(g, tables, r, n), d);
      NotPoisoned(g, r, m, n, Route(t, g.bits, n), d);
    }
  }

  // Towards a neighbour farther from the network the cost is not replaced by infinity.
  lemma NotPoisoned(g: Topology, r: nat, m: nat, n: nat, route: Option<FwdValue>, d: nat)
    requires ValidTopology(g) && Adjacent(g, r, m) && RouteOk(g, r, n, route) && Exact(route, d) && !Reach(g, m, n, d)
    ensures AdvertisedFor(route.value, n, g.addr[(m, r)], g.bits) == d
  {
    var v := route.value;
    if v.routeType == RIPRoute {
      var l :| Adjacent(g, l, r) && v.nextHop == Some(g.addr[(l, r)]) && Reach(g, l, n, v.cost - 1);
      if l == m { ReachMore(g, m, n, d - 1, d); }
    } else {
      assert Adjacent(g, m, r);
      assert n !in g.attached[m];
    }
  }

  // ---------- Receiving ----------

  /** The route of a router at distance d, once exact, stays exact: only its own next hop could
      worsen it, and that neighbour advertises exactly d - 1. */
  lemma ExactStays(g: Topology, msg: Message, n: nat, route: Option<FwdValue>, d: nat, c: U32, now: int)
    requires ValidTopology(g) && MessageOk(g, msg) && RouteOk(g, msg.to, n, route)
    requires AtDistance(g, msg.to, n, d) && Exact(route, d) && Offers(msg.entries, g.bits, n, c)
    requires d > 0 && AtDistance(g, msg.from, n, d - 1) ==> c == d - 1
    ensures var r := UpdateRoute(route, g.addr[(msg.from, msg.to)], c, now);
      Exact(r, d) && r.value.nextHop == route.value.nextHop
  {
    var v := route.value;
    if v.routeType == RIPRoute {
      assert OfferOk(g, msg.from, n, c);
      assert Adjacent(g, msg.to, msg.from) && d > 0;
      NeighbourDistance(g, msg.to, msg.from, n, d);
      var l :| Adjacent(g, l, msg.to) && v.nextHop == Some(g.addr[(l, msg.to)]) && Reach(g, l, n, v.cost - 1);
    }
  }

  /** Hearing from a neighbour at distance d makes a router at distance d + 1 exact. */
  lemma BecomesExact(g: Topology, msg: Message, n: nat, route: Option<FwdValue>, d: nat, now: int)
    requires ValidTopology(g) && MessageOk(g, msg) && RouteOk(g, msg.to, n, route) && d < 15
    requires AtDistance(g, msg.from, n, d) && AtDistance(g, msg.to, n, d + 1)
    ensures Exact(UpdateRoute(route, g.addr[(msg.from, msg.to)], d, now), d + 1)
  {
    if route.Some? { LearnedNotBetter(g, msg.to, n, route.value, d + 1); }
  }

  // The route of network n at the receiver after a delivery.
  lemma DeliveredRoute(g: Topology, msg: Message, t: Table, now: int, t': Table, n: nat)
    requires ValidTopology(g) && MessageOk(g, msg) && RouterOk(g, msg.to, t)
    requires ReceiveStep(t, g.addr[(msg.from, msg.to)], msg.entries, now, t')
    ensures Route(t', g.bits, n) == Route(t, g.bits, n)
      || exists c: U32 :: Offers(msg.entries, g.bits, n, c)
           && Route(t', g.bits, n) == UpdateRoute(Route(t, g.bits, n), g.addr[(msg.from, msg.to)], c, now)
    ensures forall c: U32 | Offers(msg.entries, g.bits, n, c) ::
      Route(t', g.bits, n) == UpdateRoute(Route(t, g.bits, n), g.addr[(msg.from, msg.to)], c, now)
  {
    ResponseRoute(t, g.bits, g.addr[(msg.from, msg.to)], msg.entries, now, t', n);
  }

  lemma DeliveryKeepsExact(g: Topology, msg: Message, t: Table, now: int, t': Table, k: nat, n: nat, d: nat)
    requires ValidTopology(g) && MessageOk(g, msg) && TellsExact(g, msg, k) && RouterOk(g, msg.to, t)
    requires ReceiveStep(t, g.addr[(msg.from, msg.to)], msg.entries, now, t')
    requires AtDistance(g, msg.to, n, d) && d <= Within(k) + 1 && Exact(Route(t, g.bits, n), d)
    ensures Exact(Route(t', g.bits, n), d)
    ensures Route(t', g.bits, n).value.nextHop == Route(t, g.bits, n).value.nextHop
  {
    DeliveredRoute(g, msg, t, now, t', n);
    assert RouteOk(g, msg.to, n, Route(t, g.bits, n));
    if Route(t', g.bits, n) != Route(t, g.bits, n) {
      var c: U32 :| Offers(msg.entries, g.bits, n, c)
        && Route(t', g.bits, n) == UpdateRoute(Route(t, g.bits, n), g.addr[(msg.from, msg.to)], c, now);
      ExactStays(g, msg, n, Route(t, g.bits, n), d, c, now);
    }
  }

  lemma DeliveryBecomesExact(g: Topology, msg: Message, t: Table, now: int, t': Table, k: nat, n: nat)
    requires ValidTopology(g) && MessageOk(g, msg) && TellsExact(g, msg, k) && RouterOk(g, msg.to, t) && k < 15
    requires ReceiveStep(t, g.addr[(msg.from, msg.to)], msg.entries, now, t')
    requires AtDistance(g, msg.from, n, k) && AtDistance(g, msg.to, n, k + 1)
    ensures Exact(Route(t', g.bits, n), k + 1)
  {
    DeliveredRoute(g, msg, t, now, t', n);
    assert RouteOk(g, msg.to, n, Route(t, g.bits, n));
    assert Offers(msg.entries, g.bits, n, k);
    BecomesExact(g, msg, n, Route(t, g.bits, n), k, now);
  }

  // ---------- Steps ----------

  lemma SendKeepsPhase(g: Topology, s: Phase, s': Phase)
    requires ValidTopology(g) && PhaseOk(g, s) && PhaseSend(g, s, s')
    ensures PhaseOk(g, s')
  {
    var r: nat, m: nat, order: seq<FwdKey> :|
      && Adjacent(g, r, m) && Adjacent(g, m, r) && r in s.tables && IsOrder(s.tables[r], order)
      && s' == s.(current := s.current + {Message(r, m, ResponseFor(s.tables[r], order, g.addr[(m, r)]))});
    SentMessageOk(g, r, m, s.tables[r], order);
    SentTellsExact(g, r, m, s.tables[r], order, s.tables, s.completed);
    HeardUnchanged(g, s, s');
  }

  lemma HeardUnchanged(g: Topology, s: Phase, s': Phase)
    requires ValidTopology(g) && HeardExact(g, s)
    requires s'.tables == s.tables && s'.heard == s.heard && s'.completed == s.completed
    ensures HeardExact(g, s')
  {
    forall r: nat, m: nat, n: nat | HeardCloser(g, s', r, m, n)
      ensures Exact(RouteAt(g, s'.tables, r, n), s'.completed + 1)
    {
      assert HeardCloser(g, s, r, m, n);
    }
  }

  lemma DeliverKeepsExactWithin(g: Topology, s: Phase, s': Phase, msg: Message, now: int, t': Table)
    requires ValidTopology(g) && PhaseOk(g, s) && Delivered(g, s, s', msg, now, t')
    ensures ExactWithin(g, s'.tables, s.completed)
  {
    forall r: nat, n: nat, d: nat | AtDistance(g, r, n, d) && d <= Within(s.completed)
      ensures Exact(RouteAt(g, s'.tables, r, n), d)
    {
      assert Exact(RouteAt(g, s.tables, r, n), d);
      if r == msg.to { DeliveryKeepsExact(g, msg, s.tables[r], now, t', s.completed, n, d); }
    }
  }

  // The pair that has just heard.
  lemma NewPairExact(g: Topology, s: Phase, s': Phase, msg: Message, now: int, t': Table, n: nat)
    requires ValidTopology(g) && PhaseOk(g, s) && Delivered(g, s, s', msg, now, t')
    requires HeardCloser(g, s', msg.to, msg.from, n)
    ensures Exact(RouteAt(g, s'.tables, msg.to, n), s.completed + 1)
  {
    assert MessageOk(g, msg) && TellsExact(g, msg, s.completed) && RouterOk(g, msg.to, s.tables[msg.to]);
    DeliveryBecomesExact(g, msg, s.tables[msg.to], now, t', s.completed, n);
  }

  // A pair that had heard before.
  lemma OldPairExact(g: Topology, s: Phase, s': Phase, msg: Message, now: int, t': Table, r: nat, m: nat, n: nat)
    requires ValidTopology(g) && PhaseOk(g, s) && Delivered(g, s, s', msg, now, t') && HeardCloser(g, s, r, m, n)
    ensures Exact(RouteAt(g, s'.tables, r, n), s.completed + 1)
  {
    var k := s.completed;
    assert Exact(RouteAt(g, s.tables, r, n), k + 1);
    if r == msg.to {
      assert MessageOk(g, msg) && TellsExact(g, msg, k) && RouterOk(g, r, s.tables[r]);
      DeliveryKeepsExact(g, msg, s.tables[r], now, t', k, n, k + 1);
    }
  }

  lemma HeardPairExact(g: Topology, s: Phase, s': Phase, msg: Message, now: int, t': Table, r: nat, m: nat, n: nat)
    requires ValidTopology(g) && PhaseOk(g, s) && Delivered(g, s, s', msg, now, t') && HeardCloser(g, s', r, m, n)
    ensures Exact(RouteAt(g, s'.tables, r, n), s.completed + 1)
  {
    if r == msg.to && m == msg.from {
      NewPairExact(g, s, s', msg, now, t', n);
    } else {
      OldPairExact(g, s, s', msg, now, t', r, m, n);
    }
  }

  lemma DeliverKeepsHeard(g: Topology, s: Phase, s': Phase, msg: Message, now: int, t': Table)
    requires ValidTopology(g) && PhaseOk(g, s) && Delivered(g, s, s', msg, now, t')
    ensures HeardExact(g, s')
  {
    forall r: nat, m: nat, n: nat | HeardCloser(g, s', r, m, n)
      ensures Exact(RouteAt(g, s'.tables, r, n), s'.completed + 1)
    {
      HeardPairExact(g, s, s', msg, now, t', r, m, n);
    }
  }

  lemma DeliverKeepsPhase(g: Topology, s: Phase, s': Phase)
    requires ValidTopology(g) && PhaseOk(g, s) && PhaseDeliver(g, s, s')
    ensures PhaseOk(g, s')
  {
    var msg: Message, now: int, t': Table :| Delivered(g, s, s', msg, now, t');
    ReceivedOk(g, msg, s.tables[msg.to], now, t');
    DeliverKeepsExactWithin(g, s, s', msg, now, t');
    DeliverKeepsHeard(g, s, s', msg, now, t');
  }

  lemma EndKeepsPhase(g: Topology, s: Phase, s': Phase)
    requires ValidTopology(g) && PhaseOk(g, s) && PhaseEnds(g, s, s')
    ensures PhaseOk(g, s')
  {
    var k := s.completed;
    forall r: nat, n: nat, d: nat | AtDistance(g, r, n, d) && d <= Within(k + 1)
      ensures Exact(RouteAt(g, s.tables, r, n), d)
    {
      if d > Within(k) {
        var m := CloserNeighbour(g, r, n, k);
        assert HeardCloser(g, s, r, m, n);
      }
    }
  }

  ghost predicate InitialPhase(g: Topology, s: Phase)
    requires ValidTopology(g)
  {
    && s.tables.Keys == g.routers && (forall r | r in g.routers :: InitialTable(g, r, s.tables[r]))
    && s.current == {} && s.heard == {} && s.completed == 0
  }

  lemma InitialPhaseOk(g: Topology, s: Phase)
    requires ValidTopology(g) && InitialPhase(g, s)
    ensures PhaseOk(g, s)
  {
    forall r | r in g.routers ensures RouterOk(g, r, s.tables[r]) { assert InitialTable(g, r, s.tables[r]); }
    forall r: nat, n: nat, d: nat | AtDistance(g, r, n, d) && d <= Within(0)
      ensures Exact(RouteAt(g, s.tables, r, n), d)
    {
      assert RouteOk(g, r, n, Route(s.tables[r], g.bits, n));
    }
  }

  ghost predicate IsPhaseRun(g: Topology, run: seq<Phase>)
    requires ValidTopology(g)
  {
    run != [] && InitialPhase(g, run[0]) && forall i | 0 <= i < |run| - 1 :: PhaseStep(g, run[i], run[i + 1])
  }

  lemma {:induction false} PhaseRunOk(g: Topology, run: seq<Phase>, i: nat)
    requires ValidTopology(g) && IsPhaseRun(g, run) && i < |run|
    ensures PhaseOk(g, run[i])
  {
    if i == 0 {
      InitialPhaseOk(g, run[0]);
    } else {
      PhaseRunOk(g, run, i - 1);
      var s, s' := run[i - 1], run[i];
      assert PhaseStep(g, s, s');
      if PhaseSend(g, s, s') { SendKeepsPhase(g, s, s'); }
      else if PhaseDeliver(g, s, s') { DeliverKeepsPhase(g, s, s'); }
      else { EndKeepsPhase(g, s, s'); }
    }
  }

  /** Convergence: after k complete phases a router at distance d from a network, 1 <= d <= min(k, 15),
      holds cost exactly d through a neighbour at distance d - 1. */
  lemma ConvergesToShortestPaths(g: Topology, run: seq<Phase>, i: nat, r: nat, n: nat, d: nat)
    requires ValidTopology(g) && IsPhaseRun(g, run) && i < |run|
    requires AtDistance(g, r, n, d) && 1 <= d <= Within(run[i].completed)
    ensures var route := RouteAt(g, run[i].tables, r, n);
      && route.Some? && route.value.cost == d && route.value.routeType == RIPRoute
      && exists m | Adjacent(g, m, r) :: route.value.nextHop == Some(g.addr[(m, r)]) && AtDistance(g, m, n, d - 1)
  {
    PhaseRunOk(g, run, i);
    var route := RouteAt(g, run[i].tables, r, n);
    assert Exact(route, d);
    assert RouteOk(g, r, n, route);
    var m :| Adjacent(g, m, r) && route.value.nextHop == Some(g.addr[(m, r)]) && Reach(g, m, n, d - 1);
    NeighbourDistance(g, r, m, n, d);
  }

  lemma DeliveryKeepsRoute(g: Topology, s: Phase, s': Phase, r: nat, n: nat, d: nat)
    requires ValidTopology(g) && PhaseOk(g, s) && PhaseDeliver(g, s, s')
    requires AtDistance(g, r, n, d) && d <= Within(s.completed) && Exact(RouteAt(g, s.tables, r, n), d)
    ensures var before, after := RouteAt(g, s.tables, r, n), RouteAt(g, s'.tables, r, n);
      Exact(after, d) && after.value.nextHop == before.value.nextHop
  {
    var msg: Message, now: int, t': Table :| Delivered(g, s, s', msg, now, t');
    if r == msg.to { DeliveryKeepsExact(g, msg, s.tables[r], now, t', s.completed, n, d); }
  }

  /** A converged route is stable: no further step changes its cost or next hop. */
  lemma ConvergedRoutesAreStable(g: Topology, run: seq<Phase>, i: nat, r: nat, n: nat, d: nat)
    requires ValidTopology(g) && IsPhaseRun(g, run) && i + 1 < |run|
    requires AtDistance(g, r, n, d) && d <= Within(run[i].completed)
    ensures var before, after := RouteAt(g, run[i].tables, r, n), RouteAt(g, run[i + 1].tables, r, n);
      && before.Some? && after.Some?
      && after.value.cost == before.value.cost == d && after.value.nextHop == before.value.nextHop
  {
    PhaseRunOk(g, run, i);
    var s, s' := run[i], run[i + 1];
    assert Exact(RouteAt(g, s.tables, r, n), d);
    assert PhaseStep(g, s, s');
    if PhaseDeliver(g, s, s') { DeliveryKeepsRoute(g, s, s', r, n, d); }
  }

  // ---------- Rounds ----------

  // In a round-based run all responses of a phase are generated before any is delivered.
  ghost predicate RoundStep(g: Topology, s: Phase, s': Phase) {
    (PhaseSend(g, s, s') && s.heard == {}) || PhaseDeliver(g, s, s') || PhaseEnds(g, s, s')
  }

  ghost predicate IsRoundRun(g: Topology, run: seq<Phase>)
    requires ValidTopology(g)
  {
    run != [] && InitialPhase(g, run[0]) && forall i | 0 <= i < |run| - 1 :: RoundStep(g, run[i], run[i + 1])
  }

  ghost predicate KnowsWithin(g: Topology, tables: map<nat, Table>, k: nat)
    requires ValidTopology(g)
  {
    forall r: nat, n: nat | r in g.routers && RouteAt(g, tables, r, n).Some? :: Reach(g, r, n, k)
  }

  ghost predicate OffersWithin(g: Topology, msg: Message, k: nat)
    requires ValidTopology(g)
  {
    forall n: nat, c: U32 | Offers(msg.entries, g.bits, n, c) && c < INFINITY :: Reach(g, msg.from, n, k)
  }

  // News travels one hop per round.
  ghost predicate RoundOk(g: Topology, s: Phase)
    requires ValidTopology(g)
  {
    && KnowsWithin(g, s.tables, if s.heard == {} then s.completed else s.completed + 1)
    && (forall msg | msg in s.current :: OffersWithin(g, msg, s.completed))
  }

  lemma SendKeepsRound(g: Topology, s: Phase, s': Phase)
    requires ValidTopology(g) && PhaseOk(g, s) && RoundOk(g, s) && PhaseSend(g, s, s') && s.heard == {}
    ensures RoundOk(g, s')
  {
    var r: nat, m: nat, order: seq<FwdKey> :|
      && Adjacent(g, r, m) && Adjacent(g, m, r) && r in s.tables && IsOrder(s.tables[r], order)
      && s' == s.(current := s.current + {Message(r, m, ResponseFor(s.tables[r], order, g.addr[(m, r)]))});
    var entries := ResponseFor(s.tables[r], order, g.addr[(m, r)]);
    forall n: nat, c: U32 | Offers(entries, g.bits, n, c) && c < INFINITY ensures Reach(g, r, n, s.completed) {
      ResponseOffers(s.tables[r], g.bits, order, g.addr[(m, r)], n);
      assert RouteAt(g, s.tables, r, n).Some?;
    }
  }

  // A route after a delivery goes no farther than news has travelled with it.
  lemma DeliveredReach(g: Topology, s: Phase, s': Phase, msg: Message, now: int, t': Table, r: nat, n: nat)
    requires ValidTopology(g) && PhaseOk(g, s) && RoundOk(g, s) && Delivered(g, s, s', msg, now, t')
    requires r in g.routers && RouteAt(g, s'.tables, r, n).Some?
    ensures Reach(g, r, n, s.completed + 1)
  {
    if RouteAt(g, s.tables, r, n).Some? {
      ReachMore(g, r, n, if s.heard == {} then s.completed else s.completed + 1, s.completed + 1);
    } else {
      assert r == msg.to;
      assert MessageOk(g, msg) && OffersWithin(g, msg, s.completed) && RouterOk(g, r, s.tables[r]);
      NewRouteReach(g, msg, s.tables[r], now, t', n, s.completed);
    }
  }

  lemma DeliverKeepsRound(g: Topology, s: Phase, s': Phase)
    requires ValidTopology(g) && PhaseOk(g, s) && RoundOk(g, s) && PhaseDeliver(g, s, s')
    ensures RoundOk(g, s')
  {
    var msg: Message, now: int, t': Table :| Delivered(g, s, s', msg, now, t');
    forall r: nat, n: nat | r in g.routers && RouteAt(g, s'.tables, r, n).Some?
      ensures Reach(g, r, n, s.completed + 1)
    {
      DeliveredReach(g, s, s', msg, now, t', r, n);
    }
  }

  lemma NewRouteReach(g: Topology, msg: Message, t: Table, now: int, t': Table, n: nat, k: nat)
    requires ValidTopology(g) && MessageOk(g, msg) && OffersWithin(g, msg, k) && RouterOk(g, msg.to, t)
    requires ReceiveStep(t, g.addr[(msg.from, msg.to)], msg.entries, now, t')
    requires Route(t, g.bits, n) == None && Route(t', g.bits, n).Some?
    ensures Reach(g, msg.to, n, k + 1)
  {
    DeliveredRoute(g, msg, t, now, t', n);
    var c: U32 :| Offers(msg.entries, g.bits, n, c)
      && Route(t', g.bits, n) == UpdateRoute(None, g.addr[(msg.from, msg.to)], c, now);
    assert OfferOk(g, msg.from, n, c);
    assert Reach(g, msg.from, n, k) && Adjacent(g, msg.to, msg.from);
  }

  lemma {:induction false} RoundRunOk(g: Topology, run: seq<Phase>, i: nat)
    requires ValidTopology(g) && IsRoundRun(g, run) && i < |run|
    ensures PhaseOk(g, run[i]) && RoundOk(g, run[i])
  {
    PhaseRunOk(g, run, i);
    if i == 0 {
      forall r: nat, n: nat | r in g.routers && RouteAt(g, run[0].tables, r, n).Some? ensures Reach(g, r, n, 0) {
        assert InitialTable(g, r, run[0].tables[r]);
      }
    } else {
      RoundRunOk(g, run, i - 1);
      var s, s' := run[i - 1], run[i];
      assert RoundStep(g, s, s');
      if PhaseDeliver(g, s, s') { DeliverKeepsRound(g, s, s'); }
      else if PhaseEnds(g, s, s') { EndKeepsRound(g, s, s'); }
      else { SendKeepsRound(g, s, s'); }
    }
  }

  lemma EndKeepsRound(g: Topology, s: Phase, s': Phase)
    requires ValidTopology(g) && RoundOk(g, s) && PhaseEnds(g, s, s')
    ensures RoundOk(g, s')
  {
    forall r: nat, n: nat | r in g.routers && RouteAt(g, s'.tables, r, n).Some?
      ensures Reach(g, r, n, s.completed + 1)
    {
      assert RouteAt(g, s.tables, r, n).Some?;
      ReachMore(g, r, n, if s.heard == {} then s.completed else s.completed + 1, s.completed + 1);
    }
  }

  // In a round state a route exists only within the hops news has travelled, and is then exact.
  lemma RoundRoute(g: Topology, s: Phase, r: nat, n: nat, v: FwdValue)
    requires ValidTopology(g) && PhaseOk(g, s) && RoundOk(g, s) && s.heard == {} && r in g.routers
    requires RouteAt(g, s.tables, r, n) == Some(v)
    ensures v.cost <= Within(s.completed) && AtDistance(g, r, n, v.cost)
  {
    assert RouteOk(g, r, n, Some(v));
    if v.routeType == RIPRoute { LearnedReach(g, r, n, v); }
    assert Reach(g, r, n, s.completed);
    var d := Shortest(g, r, n, Min(s.completed, v.cost));
    assert Exact(Some(v), d);
  }

  /** Bellman-Ford by rounds: between round k and the first delivery of round k + 1, a router has a
      route to a network if and only if it is within min(k, 15) hops, and its cost is the distance. */
  lemma RoundsComputeDistances(g: Topology, run: seq<Phase>, i: nat, r: nat, n: nat)
    requires ValidTopology(g) && IsRoundRun(g, run) && i < |run| && run[i].heard == {} && r in g.routers
    ensures var route := RouteAt(g, run[i].tables, r, n); var k := Within(run[i].completed);
      && (route.Some? <==> Reach(g, r, n, k))
      && (route.Some? ==> route.value.cost <= k && AtDistance(g, r, n, route.value.cost))
  {
    RoundRunOk(g, run, i);
    var s := run[i];
    var route := RouteAt(g, s.tables, r, n);
    if route.Some? {
      RoundRoute(g, s, r, n, route.value);
      ReachMore(g, r, n, route.value.cost, Within(s.completed));
    }
    if Reach(g, r, n, Within(s.completed)) {
      var d := Shortest(g, r, n, Within(s.completed));
      assert Exact(route, d);
    }
  }

  lemma {:induction false} Shortest(g: Topology, r: nat, n: nat, k: nat) returns (d: nat)
    requires ValidTopology(g) && Reach(g, r, n, k)
    ensures d <= k && AtDistance(g, r, n, d)
    decreases k
  {
    if k > 0 && Reach(g, r, n, k - 1) { d := Shortest(g, r, n, k - 1); } else { d := k; }
  }
}
