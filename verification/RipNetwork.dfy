/** A network of RIP routers on an arbitrary finite graph, and the soundness of their routes
    under any loss, duplication, delay and reordering of responses and any expiry. */
module RipNetwork {
  import opened Words
  import opened Wrappers
  import opened FwdTables
  import opened RipRouter

  /** `addr[(r, m)]` is the address of router r on its link to neighbour m; it is the source
      of what r sends to m and the destination of what m sends to r. All prefixes have `bits`
      bits, so a network is its number. */
  datatype Topology = Topology(
    routers: set<nat>, bits: nat, nets: set<nat>, attached: map<nat, set<nat>>, addr: map<(nat, nat), Addr>)

  ghost predicate Adjacent(g: Topology, r: nat, m: nat) { (r, m) in g.addr }

  ghost predicate ValidTopology(g: Topology) {
    && g.bits <= 32 && |g.nets| <= MAX_NUM_ENTRIES && g.attached.Keys == g.routers
    && (forall r | r in g.routers :: g.attached[r] <= g.nets)
    && (forall r, m | Adjacent(g, r, m) ::
          && r in g.routers && m in g.routers && r != m && Adjacent(g, m, r)
          && Net(g.addr[(r, m)], g.bits) == Net(g.addr[(m, r)], g.bits)
          && Net(g.addr[(r, m)], g.bits) in g.attached[r])
    // One link per pair of routers: a neighbour is known by its address.
    && (forall r, m, l | Adjacent(g, m, r) && Adjacent(g, l, r) && g.addr[(m, r)] == g.addr[(l, r)] :: m == l)
  }

  /** Network n is within k hops of router r. */
  ghost predicate Reach(g: Topology, r: nat, n: nat, k: nat)
    requires ValidTopology(g)
    decreases k
  {
    && r in g.routers
    && (n in g.attached[r] || (k > 0 && exists m | Adjacent(g, r, m) :: Reach(g, m, n, k - 1)))
  }

  /** The hop distance of router r from network n is d. */
  ghost predicate AtDistance(g: Topology, r: nat, n: nat, d: nat)
    requires ValidTopology(g)
  {
    Reach(g, r, n, d) && (d > 0 ==> !Reach(g, r, n, d - 1))
  }

  // ---------- Distance as length of a path ----------

  ghost predicate IsPath(g: Topology, path: seq<nat>, n: nat)
    requires ValidTopology(g)
  {
    && path != [] && (forall i | 0 <= i < |path| - 1 :: Adjacent(g, path[i], path[i + 1]))
    && path[|path| - 1] in g.routers && n in g.attached[path[|path| - 1]]
  }

  lemma {:induction false} PathOfReach(g: Topology, r: nat, n: nat, k: nat) returns (path: seq<nat>)
    requires ValidTopology(g) && Reach(g, r, n, k)
    ensures IsPath(g, path, n) && path[0] == r && |path| <= k + 1
    decreases k
  {
    if n in g.attached[r] {
      path := [r];
    } else {
      var m :| Adjacent(g, r, m) && Reach(g, m, n, k - 1);
      var rest := PathOfReach(g, m, n, k - 1);
      path := [r] + rest;
    }
  }

  lemma {:induction false} ReachOfPath(g: Topology, path: seq<nat>, n: nat)
    requires ValidTopology(g) && IsPath(g, path, n)
    ensures Reach(g, path[0], n, |path| - 1)
    decreases |path|
  {
    if |path| > 1 {
      assert Adjacent(g, path[0], path[1]);
      ReachOfPath(g, path[1..], n);
    }
  }

  /** Within k hops means a path of at most k links to a router attached to the network. */
  lemma ReachIffPath(g: Topology, r: nat, n: nat, k: nat)
    requires ValidTopology(g)
    ensures Reach(g, r, n, k) <==> exists path :: IsPath(g, path, n) && path[0] == r && |path| <= k + 1
  {
    if Reach(g, r, n, k) {
      var path := PathOfReach(g, r, n, k);
    }
    if path :| IsPath(g, path, n) && path[0] == r && |path| <= k + 1 {
      ReachOfPath(g, path, n);
      ReachMore(g, r, n, |path| - 1, k);
    }
  }

  lemma {:induction false} ReachMore(g: Topology, r: nat, n: nat, k: nat, l: nat)
    requires ValidTopology(g) && Reach(g, r, n, k) && k <= l
    ensures Reach(g, r, n, l)
    decreases k
  {
    if n !in g.attached[r] {
      var m :| Adjacent(g, r, m) && Reach(g, m, n, k - 1);
      ReachMore(g, m, n, k - 1, l - 1);
    }
  }

  // ---------- What a router may hold and say ----------

  // A learned route: through a neighbour that is within the remaining hops.
  ghost predicate LearnedOk(g: Topology, r: nat, n: nat, v: FwdValue)
    requires ValidTopology(g)
  {
    && r in g.routers && n in g.nets && n !in g.attached[r] && 1 <= v.cost < INFINITY
    && exists m | Adjacent(g, m, r) :: v.nextHop == Some(g.addr[(m, r)]) && Reach(g, m, n, v.cost - 1)
  }

  ghost predicate RouteOk(g: Topology, r: nat, n: nat, route: Option<FwdValue>)
    requires ValidTopology(g) && r in g.routers
  {
    match route
    case None => n !in g.attached[r]
    case Some(v) =>
      if v.routeType == RIPRoute then LearnedOk(g, r, n, v)
      else n in g.attached[r] && v.routeType == LocalRoute && v.cost == 0
  }

  ghost predicate RouterOk(g: Topology, r: nat, t: Table)
    requires ValidTopology(g) && r in g.routers
  {
    WellFormed(t, g.bits) && forall n: nat :: RouteOk(g, r, n, Route(t, g.bits, n))
  }

  datatype Message = Message(from: nat, to: nat, entries: seq<RIPEntry>)

  // What a response may say of network n.
  ghost predicate OfferOk(g: Topology, r: nat, n: nat, cost: U32)
    requires ValidTopology(g)
  {
    n in g.nets && cost <= INFINITY && (cost < INFINITY ==> Reach(g, r, n, cost))
  }

  ghost predicate MessageOk(g: Topology, m: Message)
    requires ValidTopology(g)
  {
    && Adjacent(g, m.from, m.to) && |m.entries| <= MAX_NUM_ENTRIES && EntriesOk(m.entries, g.bits)
    && forall n: nat, c: U32 | Offers(m.entries, g.bits, n, c) :: OfferOk(g, m.from, n, c)
  }

  lemma LearnedReach(g: Topology, r: nat, n: nat, v: FwdValue)
    requires ValidTopology(g) && LearnedOk(g, r, n, v)
    ensures Reach(g, r, n, v.cost)
  {
    var m :| Adjacent(g, m, r) && v.nextHop == Some(g.addr[(m, r)]) && Reach(g, m, n, v.cost - 1);
    assert Adjacent(g, r, m);
  }

  // The order lists distinct networks of the topology.
  lemma {:induction false} OrderFits(order: seq<FwdKey>, bits: nat, nets: set<nat>)
    requires forall i | 0 <= i < |order| :: Net(order[i].prefix.addr, bits) in nets
    requires forall i, j | 0 <= i < j < |order| :: Net(order[i].prefix.addr, bits) != Net(order[j].prefix.addr, bits)
    ensures |order| <= |nets|
    decreases |order|
  {
    if order != [] {
      var m := |order| - 1;
      OrderFits(order[..m], bits, nets - {Net(order[m].prefix.addr, bits)});
    }
  }

  lemma KeyRoute(g: Topology, r: nat, t: Table, k: FwdKey)
    requires ValidTopology(g) && r in g.routers && RouterOk(g, r, t) && k in t
    ensures Net(k.prefix.addr, g.bits) in g.nets
  {
    RouteOf(t, g.bits, k);
    assert RouteOk(g, r, Net(k.prefix.addr, g.bits), Some(t[k]));
  }

  /** Whatever a router sends is a sound response that fits in one packet. */
  lemma SentMessageOk(g: Topology, r: nat, m: nat, t: Table, order: seq<FwdKey>)
    requires ValidTopology(g) && Adjacent(g, r, m) && RouterOk(g, r, t) && IsOrder(t, order)
    ensures MessageOk(g, Message(r, m, ResponseFor(t, order, g.addr[(m, r)])))
  {
    var dst := g.addr[(m, r)];
    var entries := ResponseFor(t, order, dst);
    forall i | 0 <= i < |order| ensures Net(order[i].prefix.addr, g.bits) in g.nets {
      assert order[i] in t;
      KeyRoute(g, r, t, order[i]);
    }
    forall i, j | 0 <= i < j < |order|
      ensures Net(order[i].prefix.addr, g.bits) != Net(order[j].prefix.addr, g.bits)
    {
      assert order[i] in t && order[j] in t;
    }
    OrderFits(order, g.bits, g.nets);
    ResponseOffers(t, g.bits, order, dst, 0);
    forall n: nat, c: U32 | Offers(entries, g.bits, n, c) ensures OfferOk(g, r, n, c) {
      OfferIsOk(g, r, m, t, order, n, c);
    }
  }

  lemma OfferIsOk(g: Topology, r: nat, m: nat, t: Table, order: seq<FwdKey>, n: nat, c: U32)
    requires ValidTopology(g) && Adjacent(g, r, m) && RouterOk(g, r, t) && IsOrder(t, order)
    requires Offers(ResponseFor(t, order, g.addr[(m, r)]), g.bits, n, c)
    ensures OfferOk(g, r, n, c)
  {
    ResponseOffers(t, g.bits, order, g.addr[(m, r)], n);
    assert RouteOk(g, r, n, Route(t, g.bits, n));
    var v := Route(t, g.bits, n).value;
    if v.routeType == RIPRoute { LearnedReach(g, r, n, v); }
  }

  lemma UpdateOk(g: Topology, r: nat, m: nat, n: nat, route: Option<FwdValue>, c: U32, now: int)
    requires ValidTopology(g) && Adjacent(g, m, r) && RouteOk(g, r, n, route) && OfferOk(g, m, n, c)
    ensures RouteOk(g, r, n, UpdateRoute(route, g.addr[(m, r)], c, now))
  {
    if Add32(c, 1) < INFINITY {
      assert LearnedOk(g, r, n, LearnedValue(c + 1, g.addr[(m, r)], now)) || n in g.attached[r];
    }
  }

  /** Handling any sound response, however old, keeps the router's table sound. */
  lemma ReceivedOk(g: Topology, msg: Message, t: Table, now: int, t': Table)
    requires ValidTopology(g) && MessageOk(g, msg) && RouterOk(g, msg.to, t)
    requires ReceiveStep(t, g.addr[(msg.from, msg.to)], msg.entries, now, t')
    ensures RouterOk(g, msg.to, t')
  {
    var src := g.addr[(msg.from, msg.to)];
    ResponseRoute(t, g.bits, src, msg.entries, now, t', 0);
    forall n: nat ensures RouteOk(g, msg.to, n, Route(t', g.bits, n)) {
      ResponseRoute(t, g.bits, src, msg.entries, now, t', n);
      assert RouteOk(g, msg.to, n, Route(t, g.bits, n));
      if c: U32 :| Offers(msg.entries, g.bits, n, c) {
        UpdateOk(g, msg.to, msg.from, n, Route(t, g.bits, n), c, now);
      }
    }
  }

  lemma ExpiredOk(g: Topology, r: nat, t: Table, now: int)
    requires ValidTopology(g) && r in g.routers && RouterOk(g, r, t)
    ensures RouterOk(g, r, Expire(t, now))
  {
    ExpireRoute(t, g.bits, now, 0);
    forall n: nat ensures RouteOk(g, r, n, Route(Expire(t, now), g.bits, n)) {
      ExpireRoute(t, g.bits, now, n);
      assert RouteOk(g, r, n, Route(t, g.bits, n));
    }
  }

  // ---------- Runs ----------

  // Every response ever sent may be delivered at any later time, any number of times or never.
  datatype RipState = RipState(tables: map<nat, Table>, sent: set<Message>)

  ghost predicate SendStep(g: Topology, s: RipState, s': RipState) {
    exists r: nat, m: nat, order: seq<FwdKey> ::
      && Adjacent(g, r, m) && Adjacent(g, m, r) && r in s.tables && IsOrder(s.tables[r], order)
      && s' == s.(sent := s.sent + {Message(r, m, ResponseFor(s.tables[r], order, g.addr[(m, r)]))})
  }

  ghost predicate DeliverStep(g: Topology, s: RipState, s': RipState) {
    exists msg: Message, now: int, t': Table ::
      && msg in s.sent && Adjacent(g, msg.from, msg.to) && msg.to in s.tables
      && ReceiveStep(s.tables[msg.to], g.addr[(msg.from, msg.to)], msg.entries, now, t')
      && s' == s.(tables := s.tables[msg.to := t'])
  }

  ghost predicate ExpiryStep(s: RipState, s': RipState) {
    exists r: nat, now: int :: r in s.tables && s' == s.(tables := s.tables[r := Expire(s.tables[r], now)])
  }

  ghost predicate NetStep(g: Topology, s: RipState, s': RipState) {
    SendStep(g, s, s') || DeliverStep(g, s, s') || ExpiryStep(s, s')
  }

  // At the start every router knows exactly the networks it is attached to.
  ghost predicate InitialTable(g: Topology, r: nat, t: Table)
    requires ValidTopology(g) && r in g.routers
  {
    && WellFormed(t, g.bits)
    && forall n: nat :: match Route(t, g.bits, n)
      case None => n !in g.attached[r]
      case Some(v) => n in g.attached[r] && v.routeType == LocalRoute && v.cost == 0
  }

  ghost predicate NetOk(g: Topology, s: RipState)
    requires ValidTopology(g)
  {
    && s.tables.Keys == g.routers
    && (forall r | r in g.routers :: RouterOk(g, r, s.tables[r]))
    && (forall m | m in s.sent :: MessageOk(g, m))
  }

  ghost predicate IsRun(g: Topology, run: seq<RipState>)
    requires ValidTopology(g)
  {
    && run != [] && run[0].tables.Keys == g.routers && run[0].sent == {}
    && (forall r | r in g.routers :: InitialTable(g, r, run[0].tables[r]))
    && (forall i | 0 <= i < |run| - 1 :: NetStep(g, run[i], run[i + 1]))
  }

  lemma SendKeepsOk(g: Topology, s: RipState, s': RipState)
    requires ValidTopology(g) && NetOk(g, s) && SendStep(g, s, s')
    ensures NetOk(g, s')
  {
    var r: nat, m: nat, order: seq<FwdKey> :|
      && Adjacent(g, r, m) && Adjacent(g, m, r) && r in s.tables && IsOrder(s.tables[r], order)
      && s' == s.(sent := s.sent + {Message(r, m, ResponseFor(s.tables[r], order, g.addr[(m, r)]))});
    SentMessageOk(g, r, m, s.tables[r], order);
  }

  lemma DeliverKeepsOk(g: Topology, s: RipState, s': RipState)
    requires ValidTopology(g) && NetOk(g, s) && DeliverStep(g, s, s')
    ensures NetOk(g, s')
  {
    var msg: Message, now: int, t': Table :|
      && msg in s.sent && Adjacent(g, msg.from, msg.to) && msg.to in s.tables
      && ReceiveStep(s.tables[msg.to], g.addr[(msg.from, msg.to)], msg.entries, now, t')
      && s' == s.(tables := s.tables[msg.to := t']);
    ReceivedOk(g, msg, s.tables[msg.to], now, t');
  }

  lemma ExpiryKeepsOk(g: Topology, s: RipState, s': RipState)
    requires ValidTopology(g) && NetOk(g, s) && ExpiryStep(s, s')
    ensures NetOk(g, s')
  {
    var r: nat, now: int :| r in s.tables && s' == s.(tables := s.tables[r := Expire(s.tables[r], now)]);
    ExpiredOk(g, r, s.tables[r], now);
  }

  lemma StepOk(g: Topology, s: RipState, s': RipState)
    requires ValidTopology(g) && NetOk(g, s) && NetStep(g, s, s')
    ensures NetOk(g, s')
  {
    if SendStep(g, s, s') { SendKeepsOk(g, s, s'); }
    else if DeliverStep(g, s, s') { DeliverKeepsOk(g, s, s'); }
    else { ExpiryKeepsOk(g, s, s'); }
  }

  lemma {:induction false} RunOk(g: Topology, run: seq<RipState>, i: nat)
    requires ValidTopology(g) && IsRun(g, run) && i < |run|
    ensures NetOk(g, run[i])
  {
    if i > 0 {
      RunOk(g, run, i - 1);
      assert NetStep(g, run[i - 1], run[i]);
      StepOk(g, run[i - 1], run[i]);
    } else {
      forall r | r in g.routers ensures RouterOk(g, r, run[0].tables[r]) {
        assert InitialTable(g, r, run[0].tables[r]);
      }
    }
  }

  ghost function RouteAt(g: Topology, tables: map<nat, Table>, r: nat, n: nat): Option<FwdValue> {
    if r in tables then Route(tables[r], g.bits, n) else None
  }

  lemma LearnedNotBetter(g: Topology, r: nat, n: nat, v: FwdValue, d: nat)
    requires ValidTopology(g) && LearnedOk(g, r, n, v) && AtDistance(g, r, n, d)
    ensures 1 <= d <= v.cost < INFINITY
  {
    LearnedReach(g, r, n, v);
    if v.cost < d { ReachMore(g, r, n, v.cost, d - 1); }
  }

  /** No route is ever better than the truth: its cost is at least the hop distance, learned
      routes cost 1 to 15 and name a neighbour, and attached networks keep their local route. */
  lemma RoutesAreSound(g: Topology, run: seq<RipState>, i: nat, r: nat, n: nat, d: nat)
    requires ValidTopology(g) && IsRun(g, run) && i < |run| && r in g.routers && AtDistance(g, r, n, d)
    ensures match RouteAt(g, run[i].tables, r, n)
      case None => d > 0
      case Some(v) =>
        && d <= v.cost < INFINITY && (v.routeType == RIPRoute <==> d > 0)
        && (d > 0 ==> exists m | Adjacent(g, m, r) :: v.nextHop == Some(g.addr[(m, r)]))
  {
    RunOk(g, run, i);
    var route := RouteAt(g, run[i].tables, r, n);
    assert RouteOk(g, r, n, route);
    if route.Some? && route.value.routeType == RIPRoute { LearnedNotBetter(g, r, n, route.value, d); }
  }

  /** No route exists to a network that cannot be reached in 15 hops. */
  lemma FarNetworksHaveNoRoute(g: Topology, run: seq<RipState>, i: nat, r: nat, n: nat)
    requires ValidTopology(g) && IsRun(g, run) && i < |run| && r in g.routers && !Reach(g, r, n, 15)
    ensures RouteAt(g, run[i].tables, r, n) == None
  {
    RunOk(g, run, i);
    var route := RouteAt(g, run[i].tables, r, n);
    assert RouteOk(g, r, n, route);
    if route.Some? && route.value.routeType == RIPRoute {
      LearnedReach(g, r, n, route.value);
      ReachMore(g, r, n, route.value.cost, 15);
    }
  }

  lemma OfferNotBetter(g: Topology, r: nat, n: nat, c: U32, d: nat)
    requires ValidTopology(g) && OfferOk(g, r, n, c) && AtDistance(g, r, n, d)
    ensures c == INFINITY || d <= c < INFINITY
  {
    if c < d && c < INFINITY { ReachMore(g, r, n, c, d - 1); }
  }

  /** No advertisement on its way, however old, is better than the truth. */
  lemma AdvertisementsAreSound(g: Topology, run: seq<RipState>, i: nat, msg: Message, n: nat, c: U32, d: nat)
    requires ValidTopology(g) && IsRun(g, run) && i < |run| && msg in run[i].sent
    requires Offers(msg.entries, g.bits, n, c) && AtDistance(g, msg.from, n, d)
    ensures c == INFINITY || d <= c < INFINITY
  {
    RunOk(g, run, i);
    assert MessageOk(g, msg);
    OfferNotBetter(g, msg.from, n, c, d);
  }

  // ---------- How a route is lost ----------

  // The step is the expiry of router r's table at some time at which route v is out of date.
  ghost predicate ExpiresRoute(s: RipState, s': RipState, r: nat, v: FwdValue) {
    r in s.tables && exists now: int :: s' == s.(tables := s.tables[r := Expire(s.tables[r], now)]) && Expired(v, now)
  }

  // A response never takes a route away.
  lemma DeliveryKeepsRoutes(g: Topology, msg: Message, t: Table, now: int, t': Table, n: nat)
    requires ValidTopology(g) && MessageOk(g, msg) && WellFormed(t, g.bits)
    requires ReceiveStep(t, g.addr[(msg.from, msg.to)], msg.entries, now, t')
    ensures Route(t, g.bits, n).Some? ==> Route(t', g.bits, n).Some?
  {
    ResponseRoute(t, g.bits, g.addr[(msg.from, msg.to)], msg.entries, now, t', n);
    if c: U32 :| Offers(msg.entries, g.bits, n, c) {
      assert Route(t', g.bits, n) == UpdateRoute(Route(t, g.bits, n), g.addr[(msg.from, msg.to)], c, now);
    }
  }

  lemma ExpiryLoses(g: Topology, tables: map<nat, Table>, q: nat, now: int, r: nat, n: nat, v: FwdValue)
    requires q in tables && WellFormed(tables[q], g.bits) && RouteAt(g, tables, r, n) == Some(v)
    ensures RouteAt(g, tables[q := Expire(tables[q], now)], r, n) == None <==> q == r && Expired(v, now)
  {
    ExpireRoute(tables[q], g.bits, now, n);
  }

  lemma LossIsExpiry(g: Topology, s: RipState, s': RipState, r: nat, n: nat, v: FwdValue)
    requires ValidTopology(g) && NetOk(g, s) && NetStep(g, s, s') && RouteAt(g, s.tables, r, n) == Some(v)
    requires RouteAt(g, s'.tables, r, n) == None
    ensures ExpiresRoute(s, s', r, v)
  {
    if DeliverStep(g, s, s') {
      var msg: Message, now: int, t': Table :|
        && msg in s.sent && Adjacent(g, msg.from, msg.to) && msg.to in s.tables
        && ReceiveStep(s.tables[msg.to], g.addr[(msg.from, msg.to)], msg.entries, now, t')
        && s' == s.(tables := s.tables[msg.to := t']);
      DeliveryKeepsRoutes(g, msg, s.tables[msg.to], now, t', n);
    } else if !SendStep(g, s, s') {
      var q: nat, now: int :| q in s.tables && s' == s.(tables := s.tables[q := Expire(s.tables[q], now)]);
      assert RouterOk(g, q, s.tables[q]);
      ExpiryLoses(g, s.tables, q, now, r, n, v);
    }
  }

  /** In every run a route disappears in a step if and only if that step is its expiry: no response,
      from whomever and whatever it offers, withdraws a route. */
  lemma LostIffExpired(g: Topology, run: seq<RipState>, i: nat, r: nat, n: nat, v: FwdValue)
    requires ValidTopology(g) && IsRun(g, run) && i + 1 < |run| && RouteAt(g, run[i].tables, r, n) == Some(v)
    ensures RouteAt(g, run[i + 1].tables, r, n) == None <==> ExpiresRoute(run[i], run[i + 1], r, v)
  {
    RunOk(g, run, i);
    var s, s' := run[i], run[i + 1];
    assert NetStep(g, s, s');
    if RouteAt(g, s'.tables, r, n) == None { LossIsExpiry(g, s, s', r, n, v); }
    if ExpiresRoute(s, s', r, v) {
      var now: int :| s' == s.(tables := s.tables[r := Expire(s.tables[r], now)]) && Expired(v, now);
      ExpiryLoses(g, s.tables, r, now, r, n, v);
    }
  }
}
