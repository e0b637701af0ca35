/** Poison reverse. When each response is handled as it is generated, no two neighbours are
    ever each other's next hop for a network, whatever exchanges take place in whatever order,
    which routes expire, and which links are up at the time. */
module RipPoison {
  import opened Wrappers
  import opened FwdTables
  import opened RipRouter
  import opened RipNetwork

  type Tables = map<nat, Table>

  ghost predicate Exchange(g: Topology, s: Tables, s': Tables, from: nat, to: nat) {
    && Adjacent(g, from, to) && Adjacent(g, to, from) && from in s && to in s
    && exists order: seq<FwdKey>, now: int, t': Table ::
         && IsOrder(s[from], order)
         && ReceiveStep(s[to], g.addr[(from, to)], ResponseFor(s[from], order, g.addr[(to, from)]), now, t')
         && s' == s[to := t']
  }

  ghost predicate Expiry(s: Tables, s': Tables) {
    exists r: nat, now: int :: r in s && s' == s[r := Expire(s[r], now)]
  }

  // A link that is down takes part in no exchange; coming up or going down changes no table.
  ghost predicate AtomicStep(g: Topology, s: Tables, s': Tables) {
    (exists from: nat, to: nat :: Exchange(g, s, s', from, to)) || Expiry(s, s') || s' == s
  }

  ghost predicate Via(g: Topology, s: Tables, r: nat, n: nat, m: nat) {
    && Adjacent(g, m, r) && RouteAt(g, s, r, n).Some?
    && RouteAt(g, s, r, n).value.routeType == RIPRoute
    && RouteAt(g, s, r, n).value.nextHop == Some(g.addr[(m, r)])
  }

  ghost predicate AllWellFormed(g: Topology, s: Tables) { forall r | r in s :: WellFormed(s[r], g.bits) }

  ghost predicate NoMutualNextHops(g: Topology, s: Tables) {
    forall r: nat, m: nat, n: nat | Via(g, s, r, n, m) :: !Via(g, s, m, n, r)
  }

  // The receiver's table after an exchange, for one network.
  lemma ExchangedRoute(
    from: Table, to: Table, bits: nat, order: seq<FwdKey>, src: Addr, dst: Addr, now: int, t': Table, n: nat)
    requires bits <= 32 && WellFormed(from, bits) && WellFormed(to, bits) && IsOrder(from, order)
    requires ReceiveStep(to, src, ResponseFor(from, order, dst), now, t')
    ensures WellFormed(t', bits)
    ensures Route(t', bits, n) != Route(to, bits, n) ==>
      && Route(t', bits, n).Some? && Route(t', bits, n).value.routeType == RIPRoute
      && Route(t', bits, n).value.nextHop == Some(src)
      && Route(from, bits, n).Some?
      && (Route(from, bits, n).value.routeType == RIPRoute ==> Route(from, bits, n).value.nextHop != Some(dst))
  {
    var entries := ResponseFor(from, order, dst);
    ResponseOffers(from, bits, order, dst, n);
    if |entries| <= MAX_NUM_ENTRIES {
      ResponseRoute(to, bits, src, entries, now, t', n);
      if Route(from, bits, n).Some? {
        assert Offers(entries, bits, n, AdvertisedFor(Route(from, bits, n).value, n, dst, bits));
      }
    }
  }

  // After an exchange the receiver's route is as before, or it leads to a sender whose own route does not lead back.
  lemma ExchangeRoute(g: Topology, s: Tables, s': Tables, from: nat, to: nat, n: nat)
    requires ValidTopology(g) && AllWellFormed(g, s) && Exchange(g, s, s', from, to)
    ensures AllWellFormed(g, s')
    ensures forall r | r != to :: RouteAt(g, s', r, n) == RouteAt(g, s, r, n)
    ensures RouteAt(g, s', to, n) == RouteAt(g, s, to, n)
      || (Via(g, s', to, n, from) && !Via(g, s, from, n, to))
  {
    var order: seq<FwdKey>, now: int, t': Table :|
      && IsOrder(s[from], order)
      && ReceiveStep(s[to], g.addr[(from, to)], ResponseFor(s[from], order, g.addr[(to, from)]), now, t')
      && s' == s[to := t'];
    ExchangedRoute(s[from], s[to], g.bits, order, g.addr[(from, to)], g.addr[(to, from)], now, t', n);
  }

  lemma ExchangeKeepsOrder(g: Topology, s: Tables, s': Tables, from: nat, to: nat, r: nat, m: nat, n: nat)
    requires ValidTopology(g) && AllWellFormed(g, s) && NoMutualNextHops(g, s) && Exchange(g, s, s', from, to)
    requires Via(g, s', r, n, m)
    ensures !Via(g, s', m, n, r)
  {
    ExchangeRoute(g, s, s', from, to, n);
    if Via(g, s, r, n, m) && r != to { assert !Via(g, s, m, n, r); }
    if Via(g, s', m, n, r) && m != to && r == to { assert Via(g, s, m, n, r); }
  }

  lemma ExpiryRoute(g: Topology, s: Tables, s': Tables, n: nat)
    requires AllWellFormed(g, s) && Expiry(s, s')
    ensures AllWellFormed(g, s')
    ensures forall r: nat, m: nat | Via(g, s', r, n, m) :: Via(g, s, r, n, m)
  {
    var r: nat, now: int :| r in s && s' == s[r := Expire(s[r], now)];
    ExpireRoute(s[r], g.bits, now, n);
  }

  lemma StepKeepsNoMutual(g: Topology, s: Tables, s': Tables)
    requires ValidTopology(g) && AllWellFormed(g, s) && NoMutualNextHops(g, s) && AtomicStep(g, s, s')
    ensures AllWellFormed(g, s') && NoMutualNextHops(g, s')
  {
    if from: nat, to: nat :| Exchange(g, s, s', from, to) {
      ExchangeRoute(g, s, s', from, to, 0);
      forall r: nat, m: nat, n: nat | Via(g, s', r, n, m) ensures !Via(g, s', m, n, r) {
        ExchangeKeepsOrder(g, s, s', from, to, r, m, n);
      }
    } else if Expiry(s, s') {
      ExpiryRoute(g, s, s', 0);
      forall r: nat, m: nat, n: nat | Via(g, s', r, n, m) ensures !Via(g, s', m, n, r) {
        ExpiryRoute(g, s, s', n);
        assert Via(g, s, r, n, m);
      }
    }
  }

  ghost predicate IsAtomicRun(g: Topology, run: seq<Tables>)
    requires ValidTopology(g)
  {
    && run != [] && run[0].Keys == g.routers && (forall r | r in g.routers :: InitialTable(g, r, run[0][r]))
    && forall i | 0 <= i < |run| - 1 :: AtomicStep(g, run[i], run[i + 1])
  }

  /** No reachable state has two routers as each other's next hop for one network. */
  lemma {:induction false} NoTwoRouterLoops(g: Topology, run: seq<Tables>, i: nat)
    requires ValidTopology(g) && IsAtomicRun(g, run) && i < |run|
    ensures AllWellFormed(g, run[i]) && NoMutualNextHops(g, run[i])
  {
    if i == 0 {
      forall r: nat | r in run[0] ensures WellFormed(run[0][r], g.bits) { assert InitialTable(g, r, run[0][r]); }
      forall r: nat, m: nat, n: nat ensures !Via(g, run[0], r, n, m) {
        if r in g.routers { assert InitialTable(g, r, run[0][r]); }
      }
    } else {
      NoTwoRouterLoops(g, run, i - 1);
      StepKeepsNoMutual(g, run[i - 1], run[i]);
    }
  }
}
