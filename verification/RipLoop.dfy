/** Two-router loops when responses can be delayed: exactly which delivery makes one, and a run
    that ends with one in every network with a triangle of routers. */
module RipLoop {
  import opened Words
  import opened Wrappers
  import opened FwdTables
  import opened RipRouter
  import opened RipNetwork
  import opened RipPoison

  // ---------- Which delivery makes a loop ----------

  // Two routers are each other's next hop for network n.
  ghost predicate MutualFor(g: Topology, s: Tables, n: nat) {
    exists r: nat, m: nat :: Via(g, s, r, n, m) && Via(g, s, m, n, r)
  }

  // Router msg.to replaces its route for network n, or gets its first one, on handling the response.
  ghost predicate TakesOffer(g: Topology, s: Tables, msg: Message, n: nat) {
    exists c: U32 :: Offers(msg.entries, g.bits, n, c) && Add32(c, 1) < INFINITY
      && match RouteAt(g, s, msg.to, n)
         case None => true
         case Some(v) => v.routeType == RIPRoute && Add32(c, 1) < v.cost
  }

  ghost predicate Delivers(g: Topology, s: Tables, msg: Message, now: int, t': Table) {
    && Adjacent(g, msg.from, msg.to) && msg.to in s
    && ReceiveStep(s[msg.to], g.addr[(msg.from, msg.to)], msg.entries, now, t')
  }

  // The receiver's route afterwards leads to the sender exactly if it did before or the offer is taken.
  lemma ViaAfterDelivery(g: Topology, s: Tables, msg: Message, now: int, t': Table, n: nat)
    requires ValidTopology(g) && AllWellFormed(g, s) && MessageOk(g, msg) && Delivers(g, s, msg, now, t')
    ensures var s' := s[msg.to := t'];
      && (Via(g, s', msg.to, n, msg.from) <==> Via(g, s, msg.to, n, msg.from) || TakesOffer(g, s, msg, n))
      && (forall b: nat | b != msg.from && Via(g, s', msg.to, n, b) :: Via(g, s, msg.to, n, b))
  {
    var src := g.addr[(msg.from, msg.to)];
    ResponseRoute(s[msg.to], g.bits, src, msg.entries, now, t', n);
    if c: U32 :| Offers(msg.entries, g.bits, n, c) {
      assert OfferOk(g, msg.from, n, c);
      forall d: U32 | Offers(msg.entries, g.bits, n, d) ensures d == c { OnlyOffer(g, msg, n, c, d); }
      assert Route(t', g.bits, n) == UpdateRoute(Route(s[msg.to], g.bits, n), src, c, now);
    }
  }

  lemma OnlyOffer(g: Topology, msg: Message, n: nat, c: U32, d: U32)
    requires ValidTopology(g) && MessageOk(g, msg)
    requires Offers(msg.entries, g.bits, n, c) && Offers(msg.entries, g.bits, n, d)
    ensures c == d
  {
    var e :| e in msg.entries && Net(e.address, g.bits) == n && e.cost == c;
    var f :| f in msg.entries && Net(f.address, g.bits) == n && f.cost == d;
    var i :| 0 <= i < |msg.entries| && msg.entries[i] == e;
    var j :| 0 <= j < |msg.entries| && msg.entries[j] == f;
    assert i == j;
  }

  // A mutual pair that a delivery makes is the pair of its receiver and its sender.
  lemma NewPairIsOfMessage(g: Topology, s: Tables, msg: Message, now: int, t': Table, n: nat, r: nat, m: nat)
    requires ValidTopology(g) && AllWellFormed(g, s) && MessageOk(g, msg) && Delivers(g, s, msg, now, t')
    requires !MutualFor(g, s, n)
    requires Via(g, s[msg.to := t'], r, n, m) && Via(g, s[msg.to := t'], m, n, r) && r != msg.to
    ensures m == msg.to && r == msg.from && TakesOffer(g, s, msg, n) && Via(g, s, r, n, m)
  {
    ViaAfterDelivery(g, s, msg, now, t', n);
    assert Via(g, s, r, n, m);
    assert !Via(g, s, m, n, r);
  }

  // Afterwards both lead to each other.
  lemma TakenOfferMakesPair(g: Topology, s: Tables, msg: Message, now: int, t': Table, n: nat)
    requires ValidTopology(g) && AllWellFormed(g, s) && MessageOk(g, msg) && Delivers(g, s, msg, now, t')
    requires TakesOffer(g, s, msg, n) && Via(g, s, msg.from, n, msg.to)
    ensures MutualFor(g, s[msg.to := t'], n)
  {
    ViaAfterDelivery(g, s, msg, now, t', n);
    assert Via(g, s[msg.to := t'], msg.from, n, msg.to);
  }

  /** From a state without mutual next hops for a network, delivering a response, however old, makes
      a mutual pair if and only if the receiver takes the offer while the sender's own route, by now,
      leads to the receiver. */
  lemma DeliveryMakesLoopIff(g: Topology, s: Tables, msg: Message, now: int, t': Table, n: nat)
    requires ValidTopology(g) && AllWellFormed(g, s) && MessageOk(g, msg) && Delivers(g, s, msg, now, t')
    requires !MutualFor(g, s, n)
    ensures MutualFor(g, s[msg.to := t'], n) <==> TakesOffer(g, s, msg, n) && Via(g, s, msg.from, n, msg.to)
  {
    if MutualFor(g, s[msg.to := t'], n) {
      var r: nat, m: nat :| Via(g, s[msg.to := t'], r, n, m) && Via(g, s[msg.to := t'], m, n, r);
      if r != msg.to { NewPairIsOfMessage(g, s, msg, now, t', n, r, m); }
      else { NewPairIsOfMessage(g, s, msg, now, t', n, m, r); }
    }
    if TakesOffer(g, s, msg, n) && Via(g, s, msg.from, n, msg.to) { TakenOfferMakesPair(g, s, msg, now, t', n); }
  }

  // ---------- Building runs ----------

  lemma {:induction false} SomeOrder(keys: set<FwdKey>) returns (order: seq<FwdKey>)
    ensures forall k :: k in order <==> k in keys
    ensures forall i, j | 0 <= i < j < |order| :: order[i] != order[j]
    decreases keys
  {
    if keys == {} {
      order := [];
    } else {
      var k :| k in keys;
      var rest := SomeOrder(keys - {k});
      order := [k] + rest;
    }
  }

  lemma SomeFound(t: Table, a: Addr) returns (found: Option<FwdKey>)
    ensures Finds(t, a, found)
  {
    if k :| k in t && Contains(k.prefix, a) { found := Some(k); } else { found := None; }
  }

  lemma {:induction false} SomeResult(t: Table, src: Addr, entries: seq<RIPEntry>, now: int) returns (t': Table)
    ensures ResponseStep(t, src, entries, now, t')
    decreases |entries|
  {
    if entries == [] {
      t' := t;
    } else {
      var m := |entries| - 1;
      var mid := SomeResult(t, src, entries[..m], now);
      var found := SomeFound(mid, entries[m].address);
      t' := ProcessEntry(mid, src, entries[m], now, found);
      ResponseAppend(t, src, entries[..m], entries[m], now, mid, t');
      assert entries[..m] + [entries[m]] == entries;
    }
  }

  // s' can come k steps after s.
  ghost predicate Follows<S(!new)>(next: (S, S) -> bool, s: S, s': S, k: nat)
    decreases k
  {
    if k == 0 then s' == s else exists mid :: Follows(next, s, mid, k - 1) && next(mid, s')
  }

  lemma {:induction false} FollowsJoin<S(!new)>(next: (S, S) -> bool, s: S, mid: S, s': S, j: nat, k: nat)
    requires Follows(next, s, mid, j) && Follows(next, mid, s', k)
    ensures Follows(next, s, s', j + k)
    decreases k
  {
    if k > 0 {
      var x :| Follows(next, mid, x, k - 1) && next(x, s');
      FollowsJoin(next, s, mid, x, j, k - 1);
    }
  }

  lemma {:induction false} Unfold<S(!new)>(next: (S, S) -> bool, s: S, s': S, k: nat) returns (run: seq<S>)
    requires Follows(next, s, s', k)
    ensures run != [] && run[0] == s && run[|run| - 1] == s'
    ensures forall i | 0 <= i < |run| - 1 :: next(run[i], run[i + 1])
    decreases k
  {
    if k == 0 {
      run := [s];
    } else {
      var x :| Follows(next, s, x, k - 1) && next(x, s');
      var init := Unfold(next, s, x, k - 1);
      run := init + [s'];
    }
  }

  ghost function NextStates(g: Topology): (RipState, RipState) -> bool { (s, s') => NetStep(g, s, s') }

  ghost predicate Steps(g: Topology, s: RipState, s': RipState, k: nat) { Follows(NextStates(g), s, s', k) }

  lemma OneStep(g: Topology, s: RipState, s': RipState)
    requires NetStep(g, s, s')
    ensures Steps(g, s, s', 1)
  {
    assert Follows(NextStates(g), s, s, 0) && NextStates(g)(s, s');
  }

  lemma StepsJoin(g: Topology, s: RipState, mid: RipState, s': RipState, j: nat, k: nat)
    requires Steps(g, s, mid, j) && Steps(g, mid, s', k)
    ensures Steps(g, s, s', j + k)
  {
    FollowsJoin(NextStates(g), s, mid, s', j, k);
  }

  lemma RunOfSteps(g: Topology, s: RipState, s': RipState, k: nat) returns (run: seq<RipState>)
    requires ValidTopology(g) && IsRun(g, [s]) && Steps(g, s, s', k)
    ensures IsRun(g, run) && run[0] == s && run[|run| - 1] == s'
  {
    run := Unfold(NextStates(g), s, s', k);
    forall i | 0 <= i < |run| - 1 ensures NetStep(g, run[i], run[i + 1]) {
      assert NextStates(g)(run[i], run[i + 1]);
    }
  }

  // What a response says of network n, given the sender's route at the time of sending.
  ghost predicate Says(g: Topology, msg: Message, n: nat, route: Option<FwdValue>)
    requires Adjacent(g, msg.to, msg.from)
  {
    route.Some? ==> Offers(msg.entries, g.bits, n, AdvertisedFor(route.value, n, g.addr[(msg.to, msg.from)], g.bits))
  }

  lemma Send(g: Topology, s: RipState, r: nat, m: nat, n: nat) returns (s': RipState, msg: Message)
    requires ValidTopology(g) && NetOk(g, s) && Adjacent(g, r, m)
    ensures Steps(g, s, s', 1) && NetOk(g, s') && s'.tables == s.tables && s'.sent == s.sent + {msg}
    ensures msg.from == r && msg.to == m && Adjacent(g, m, r) && Says(g, msg, n, RouteAt(g, s.tables, r, n))
  {
    assert Adjacent(g, m, r);
    var t := s.tables[r];
    var order := SomeOrder(t.Keys);
    assert IsOrder(t, order);
    msg := Message(r, m, ResponseFor(t, order, g.addr[(m, r)]));
    s' := s.(sent := s.sent + {msg});
    assert SendStep(g, s, s');
    ResponseOffers(t, g.bits, order, g.addr[(m, r)], n);
    SendKeepsOk(g, s, s');
    OneStep(g, s, s');
  }

  // The route of network n at router q, and nowhere else, is now `route`.
  ghost predicate RouteBecomes(
    g: Topology, s: RipState, s': RipState, q: nat, n: nat, route: Option<FwdValue>)
  {
    && RouteAt(g, s'.tables, q, n) == route && s'.sent == s.sent
    && forall p | p != q :: RouteAt(g, s'.tables, p, n) == RouteAt(g, s.tables, p, n)
  }

  lemma Receive(g: Topology, s: RipState, msg: Message, now: int, n: nat, c: U32) returns (s': RipState)
    requires ValidTopology(g) && NetOk(g, s) && msg in s.sent && Offers(msg.entries, g.bits, n, c)
    ensures Steps(g, s, s', 1) && NetOk(g, s') && Adjacent(g, msg.from, msg.to)
    ensures RouteBecomes(g, s, s', msg.to, n,
              UpdateRoute(RouteAt(g, s.tables, msg.to, n), g.addr[(msg.from, msg.to)], c, now))
  {
    assert MessageOk(g, msg);
    var t, src := s.tables[msg.to], g.addr[(msg.from, msg.to)];
    var t' := SomeResult(t, src, msg.entries, now);
    s' := s.(tables := s.tables[msg.to := t']);
    assert ReceiveStep(t, src, msg.entries, now, t');
    assert DeliverStep(g, s, s');
    ResponseRoute(t, g.bits, src, msg.entries, now, t', n);
    DeliverKeepsOk(g, s, s');
    OneStep(g, s, s');
  }

  lemma Forget(g: Topology, s: RipState, r: nat, now: int, n: nat) returns (s': RipState)
    requires ValidTopology(g) && NetOk(g, s) && r in g.routers
    requires RouteAt(g, s.tables, r, n).Some? && Expired(RouteAt(g, s.tables, r, n).value, now)
    ensures Steps(g, s, s', 1) && NetOk(g, s') && RouteBecomes(g, s, s', r, n, None)
  {
    s' := s.(tables := s.tables[r := Expire(s.tables[r], now)]);
    assert ExpiryStep(s, s');
    ExpireRoute(s.tables[r], g.bits, now, n);
    ExpiryKeepsOk(g, s, s');
    OneStep(g, s, s');
  }

  // ---------- The run ----------

  // Three routers that are each other's neighbours; only x is attached to network n.
  ghost predicate Triangle(g: Topology, r: nat, m: nat, x: nat, n: nat)
    requires ValidTopology(g)
  {
    && Adjacent(g, r, m) && Adjacent(g, x, r) && Adjacent(g, x, m)
    && n in g.attached[x] && n !in g.attached[r] && n !in g.attached[m]
  }

  // Router q learns network n from x, which is attached to it.
  lemma LearnFromX(g: Topology, s: RipState, q: nat, x: nat, n: nat) returns (s': RipState)
    requires ValidTopology(g) && NetOk(g, s) && Adjacent(g, x, q) && n in g.attached[x] && n !in g.attached[q]
    requires RouteAt(g, s.tables, q, n) == None
    ensures Steps(g, s, s', 2) && NetOk(g, s')
    ensures RouteAt(g, s'.tables, q, n) == Some(LearnedValue(1, g.addr[(x, q)], 0))
    ensures forall p | p != q :: RouteAt(g, s'.tables, p, n) == RouteAt(g, s.tables, p, n)
  {
    var s1, msg := Send(g, s, x, q, n);
    AttachedSays(g, s, msg, n);
    s' := Receive(g, s1, msg, 0, n, 0);
    StepsJoin(g, s, s1, s', 1, 1);
  }

  // A router attached to the network offers it at cost 0 to a neighbour that is not.
  lemma AttachedSays(g: Topology, s: RipState, msg: Message, n: nat)
    requires ValidTopology(g) && NetOk(g, s) && Adjacent(g, msg.from, msg.to) && Adjacent(g, msg.to, msg.from)
    requires n in g.attached[msg.from] && n !in g.attached[msg.to]
    requires Says(g, msg, n, RouteAt(g, s.tables, msg.from, n))
    ensures Offers(msg.entries, g.bits, n, 0)
  {
    assert RouteOk(g, msg.from, n, RouteAt(g, s.tables, msg.from, n));
  }

  // Routers r and m both route to network n by x.
  ghost predicate BothByX(g: Topology, s: RipState, r: nat, m: nat, x: nat, n: nat)
    requires ValidTopology(g) && Triangle(g, r, m, x, n)
  {
    && RouteAt(g, s.tables, r, n) == Some(LearnedValue(1, g.addr[(x, r)], 0))
    && RouteAt(g, s.tables, m, n) == Some(LearnedValue(1, g.addr[(x, m)], 0))
  }

  lemma BothLearn(g: Topology, s0: RipState, r: nat, m: nat, x: nat, n: nat) returns (s: RipState)
    requires ValidTopology(g) && IsRun(g, [s0]) && Triangle(g, r, m, x, n)
    ensures Steps(g, s0, s, 4) && NetOk(g, s) && BothByX(g, s, r, m, x, n)
  {
    RunOk(g, [s0], 0);
    assert InitialTable(g, r, s0.tables[r]) && InitialTable(g, m, s0.tables[m]);
    var s1 := LearnFromX(g, s0, r, x, n);
    s := LearnFromX(g, s1, m, x, n);
    StepsJoin(g, s0, s1, s, 2, 2);
  }

  // Two responses that cross each other, each offering network n at cost 1.
  ghost predicate Crossing(g: Topology, toM: Message, toR: Message, n: nat) {
    && toM.from == toR.to && toM.to == toR.from
    && Offers(toM.entries, g.bits, n, 1) && Offers(toR.entries, g.bits, n, 1)
  }

  // Each of two routers that route by x tells the other its cost, and the responses are delayed.
  lemma BothSpeak(g: Topology, s: RipState, r: nat, m: nat, x: nat, n: nat)
    returns (s': RipState, toM: Message, toR: Message)
    requires ValidTopology(g) && NetOk(g, s) && Triangle(g, r, m, x, n) && BothByX(g, s, r, m, x, n)
    ensures Steps(g, s, s', 2) && NetOk(g, s') && s'.tables == s.tables && toM in s'.sent && toR in s'.sent
    ensures toM.to == m && toR.to == r && Crossing(g, toM, toR, n)
  {
    assert Adjacent(g, m, r);
    var s1, msg1 := Send(g, s, r, m, n);
    var s2, msg2 := Send(g, s1, m, r, n);
    StepsJoin(g, s, s1, s2, 1, 1);
    s', toM, toR := s2, msg1, msg2;
  }

  // Both have lost the route to x, and each handles what the other said before.
  lemma BothHearLate(g: Topology, s: RipState, toM: Message, toR: Message, n: nat) returns (s': RipState)
    requires ValidTopology(g) && NetOk(g, s) && toM in s.sent && toR in s.sent && Crossing(g, toM, toR, n)
    requires toM.to != toR.to && RouteAt(g, s.tables, toM.to, n) == None && RouteAt(g, s.tables, toR.to, n) == None
    ensures Steps(g, s, s', 2)
    ensures Via(g, s'.tables, toR.to, n, toM.to) && Via(g, s'.tables, toM.to, n, toR.to)
  {
    var s1 := Receive(g, s, toM, 13, n, 1);
    s' := Receive(g, s1, toR, 13, n, 1);
    StepsJoin(g, s, s1, s', 1, 1);
  }

  lemma BothForget(g: Topology, s: RipState, r: nat, m: nat, x: nat, n: nat) returns (s': RipState)
    requires ValidTopology(g) && NetOk(g, s) && Triangle(g, r, m, x, n) && BothByX(g, s, r, m, x, n)
    ensures Steps(g, s, s', 2) && NetOk(g, s') && s'.sent == s.sent
    ensures RouteAt(g, s'.tables, r, n) == None && RouteAt(g, s'.tables, m, n) == None
  {
    var s1 := Forget(g, s, r, 13, n);
    assert r != m;
    s' := Forget(g, s1, m, 13, n);
    StepsJoin(g, s, s1, s', 1, 1);
  }

  // Both routes are gone, and the responses that offered them are still on their way.
  lemma LateResponses(g: Topology, s0: RipState, r: nat, m: nat, x: nat, n: nat)
    returns (s: RipState, toM: Message, toR: Message)
    requires ValidTopology(g) && IsRun(g, [s0]) && Triangle(g, r, m, x, n)
    ensures Steps(g, s0, s, 8) && NetOk(g, s) && toM in s.sent && toR in s.sent && Crossing(g, toM, toR, n)
    ensures toM.to == m && toR.to == r
    ensures RouteAt(g, s.tables, r, n) == None && RouteAt(g, s.tables, m, n) == None
  {
    var s1 := BothLearn(g, s0, r, m, x, n);
    var s2, msg1, msg2 := BothSpeak(g, s1, r, m, x, n);
    s := BothForget(g, s2, r, m, x, n);
    StepsJoin(g, s0, s1, s2, 4, 2);
    StepsJoin(g, s0, s2, s, 6, 2);
    toM, toR := msg1, msg2;
  }

  /** In every network where three routers are each other's neighbours and only one of them is
      attached to a network n, there is a run that ends with the other two as each other's next hop
      for n: both learn n, both tell each other, both lose the route, and only then do the delayed
      responses arrive. */
  lemma DelayedResponsesMakeLoop(g: Topology, s0: RipState, r: nat, m: nat, x: nat, n: nat)
    returns (run: seq<RipState>)
    requires ValidTopology(g) && IsRun(g, [s0]) && Triangle(g, r, m, x, n)
    ensures IsRun(g, run) && run[0] == s0
    ensures var last := run[|run| - 1].tables; Via(g, last, r, n, m) && Via(g, last, m, n, r)
  {
    var s1, toM, toR := LateResponses(g, s0, r, m, x, n);
    assert r != m;
    var s2 := BothHearLate(g, s1, toM, toR, n);
    StepsJoin(g, s0, s1, s2, 8, 2);
    run := RunOfSteps(g, s0, s2, 10);
  }

  // ---------- The smallest such network ----------

  // Two routers, 0 and 1, a third one, 2, attached to network 0, and a link for each pair of them.
  const TRIANGLE: Topology := Topology(
    {0, 1, 2}, 31, {0, 1, 2, 3}, map[0 := {1, 3}, 1 := {2, 3}, 2 := {0, 1, 2}],
    map[(0, 2) := 2, (2, 0) := 3, (1, 2) := 4, (2, 1) := 5, (0, 1) := 6, (1, 0) := 7])

  lemma HalfIsNet(a: Addr)
    ensures Net(a, 31) == a / 2
  {
    assert ShiftRight(a, 1) == ShiftRight(a / 2, 0);
  }

  lemma TriangleLink(r: nat, m: nat)
    requires Adjacent(TRIANGLE, r, m)
    ensures r in TRIANGLE.routers && m in TRIANGLE.routers && r != m && Adjacent(TRIANGLE, m, r)
    ensures var n := Net(TRIANGLE.addr[(r, m)], 31);
      n == Net(TRIANGLE.addr[(m, r)], 31) && n in TRIANGLE.attached[r]
  {
    HalfIsNet(TRIANGLE.addr[(r, m)]);
    HalfIsNet(TRIANGLE.addr[(m, r)]);
  }

  lemma TriangleAddresses(r: nat, m: nat, l: nat)
    requires Adjacent(TRIANGLE, m, r) && Adjacent(TRIANGLE, l, r) && TRIANGLE.addr[(m, r)] == TRIANGLE.addr[(l, r)]
    ensures m == l
  {
  }

  lemma TriangleValid()
    ensures ValidTopology(TRIANGLE) && Triangle(TRIANGLE, 0, 1, 2, 0)
  {
    forall r, m | Adjacent(TRIANGLE, r, m)
      ensures r in TRIANGLE.routers && m in TRIANGLE.routers && r != m && Adjacent(TRIANGLE, m, r)
      ensures Net(TRIANGLE.addr[(r, m)], 31) == Net(TRIANGLE.addr[(m, r)], 31)
      ensures Net(TRIANGLE.addr[(r, m)], 31) in TRIANGLE.attached[r]
    {
      TriangleLink(r, m);
    }
    forall r, m, l | Adjacent(TRIANGLE, m, r) && Adjacent(TRIANGLE, l, r)
        && TRIANGLE.addr[(m, r)] == TRIANGLE.addr[(l, r)]
      ensures m == l
    {
      TriangleAddresses(r, m, l);
    }
    assert |TRIANGLE.nets| <= 4;
  }

  function LocalKey(n: nat): FwdKey
    requires n < 4
  {
    FwdKey(2 * n, Prefix(2 * n, 31))
  }

  function LocalTable(nets: set<nat>): Table
    requires forall n | n in nets :: n < 4
  {
    map n | n in nets :: LocalKey(n) := FwdValue(0, 0, None, None, LocalRoute)
  }

  lemma LocalTableRoutes(nets: set<nat>, n: nat)
    requires forall n | n in nets :: n < 4
    ensures WellFormed(LocalTable(nets), 31)
    ensures Route(LocalTable(nets), 31, n)
      == if n in nets then Some(FwdValue(0, 0, None, None, LocalRoute)) else None
  {
    var t := LocalTable(nets);
    forall m: nat | m < 4 ensures Net(LocalKey(m).prefix.addr, 31) == m { HalfIsNet(2 * m); }
    if n in nets {
      assert LocalKey(n) in t;
      RouteOf(t, 31, LocalKey(n));
    } else {
      NoRoute(t, 31, n);
    }
  }

  lemma LocalTableInitial(g: Topology, r: nat)
    requires ValidTopology(g) && r in g.routers && g.bits == 31 && forall n | n in g.attached[r] :: n < 4
    ensures InitialTable(g, r, LocalTable(g.attached[r]))
  {
    LocalTableRoutes(g.attached[r], 0);
    forall n: nat
      ensures Route(LocalTable(g.attached[r]), 31, n)
        == if n in g.attached[r] then Some(FwdValue(0, 0, None, None, LocalRoute)) else None
    {
      LocalTableRoutes(g.attached[r], n);
    }
  }

  // Any topology of this size has an initial state.
  lemma InitialState(g: Topology) returns (s0: RipState)
    requires ValidTopology(g) && g.bits == 31 && forall n | n in g.nets :: n < 4
    ensures IsRun(g, [s0])
  {
    s0 := RipState(map r | r in g.routers :: LocalTable(g.attached[r]), {});
    forall r | r in g.routers ensures InitialTable(g, r, s0.tables[r]) { LocalTableInitial(g, r); }
  }

  /** A run of three routers from their initial tables that ends with a two-router loop. */
  lemma TriangleLoops() returns (run: seq<RipState>)
    ensures ValidTopology(TRIANGLE) && IsRun(TRIANGLE, run)
    ensures MutualFor(TRIANGLE, run[|run| - 1].tables, 0)
  {
    TriangleValid();
    var s0 := InitialState(TRIANGLE);
    run := DelayedResponsesMakeLoop(TRIANGLE, s0, 0, 1, 2, 0);
  }
}
