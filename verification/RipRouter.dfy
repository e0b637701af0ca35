/** One RIP router (pkg/rip/rip.go): what a response does to the forwarding table, which
    response the table gives rise to, and expiry; and what each means for the route of one
    network when all prefixes have one length and are disjoint. */
module RipRouter {
  import opened Words
  import opened Wrappers
  import opened FwdTables

  const INFINITY := 16
  const MAX_NUM_ENTRIES := 64
  const ENTRY_EXPIRED_TIME := 12

  datatype RIPEntry = RIPEntry(cost: U32, address: Addr, mask: U32)

  function LearnedValue(newCost: U32, src: Addr, now: int): FwdValue {
    FwdValue(newCost, now, None, Some(src), RIPRoute)
  }

  // Whether a RIP route is replaced (or refreshed) by a new cost offered by src.
  predicate Replaces(held: FwdValue, newCost: U32, src: Addr) {
    newCost < held.cost || held.nextHop == Some(src)
  }

  ghost function NewKey(e: RIPEntry): FwdKey {
    FwdKey(e.address, Masked(Prefix(e.address, MaskSize(e.mask))))
  }

  /** One entry of a response, given the table entry that GetEntryByPrefix found. An infinite
      cost is skipped, not taken as a withdrawal; the sum wraps at 2^32. */
  ghost function ProcessEntry(t: Table, src: Addr, e: RIPEntry, now: int, found: Option<FwdKey>): Table
    requires Finds(t, e.address, found)
  {
    var newCost := Add32(e.cost, 1);
    if newCost >= INFINITY then t
    else match found
      case None => t[NewKey(e) := LearnedValue(newCost, src, now)]
      case Some(k) =>
        if t[k].routeType == RIPRoute && Replaces(t[k], newCost, src)
        then t[k := LearnedValue(newCost, src, now)]
        else t
  }

  ghost predicate EntryStep(t: Table, src: Addr, e: RIPEntry, now: int, t': Table) {
    exists found :: Finds(t, e.address, found) && t' == ProcessEntry(t, src, e, now, found)
  }

  /** t' can result from handling the entries of a response in order. */
  ghost predicate ResponseStep(t: Table, src: Addr, entries: seq<RIPEntry>, now: int, t': Table)
    decreases |entries|
  {
    if entries == [] then t' == t
    else
      var n := |entries| - 1;
      exists mid :: ResponseStep(t, src, entries[..n], now, mid) && EntryStep(mid, src, entries[n], now, t')
  }

  lemma ResponseAppend(
    t: Table, src: Addr, init: seq<RIPEntry>, e: RIPEntry, now: int, mid: Table, t': Table)
    requires ResponseStep(t, src, init, now, mid) && EntryStep(mid, src, e, now, t')
    ensures ResponseStep(t, src, init + [e], now, t')
  {
    var all := init + [e];
    var n := |all| - 1;
    assert all[..n] == init && all[n] == e;
    assert ResponseStep(t, src, all[..n], now, mid) && EntryStep(mid, src, all[n], now, t');
  }

  /** RIPHandler on a response: a packet with too many entries is refused when it is decoded. */
  ghost predicate ReceiveStep(t: Table, src: Addr, entries: seq<RIPEntry>, now: int, t': Table) {
    if |entries| <= MAX_NUM_ENTRIES then ResponseStep(t, src, entries, now, t') else t' == t
  }

  // ---------- Responses and expiry ----------

  /** Split horizon with poison reverse. */
  function AdvertisedCost(k: FwdKey, v: FwdValue, dst: Addr): U32 {
    if v.routeType == RIPRoute then
      if v.nextHop == Some(dst) then INFINITY else v.cost
    else if Contains(k.prefix, dst) then INFINITY else v.cost
  }

  function EntryFor(k: FwdKey, v: FwdValue, dst: Addr): RIPEntry {
    RIPEntry(AdvertisedCost(k, v, dst), k.prefix.addr, if k.prefix.bits <= 32 then CidrMask(k.prefix.bits) else 0)
  }

  // The keys of the table in the order one iteration over the map happens to visit them.
  ghost predicate IsOrder(t: Table, order: seq<FwdKey>) {
    && (forall k | k in order :: k in t) && (forall k | k in t :: k in order)
    && (forall i, j | 0 <= i < j < |order| :: order[i] != order[j])
  }

  ghost function ResponseFor(t: Table, order: seq<FwdKey>, dst: Addr): (entries: seq<RIPEntry>)
    requires IsOrder(t, order)
    ensures |entries| == |order|
  {
    seq(|order|, i requires 0 <= i < |order| => EntryFor(order[i], t[order[i]], dst))
  }

  predicate Expired(v: FwdValue, now: int) {
    v.routeType == RIPRoute && (now - v.lastUpdated > ENTRY_EXPIRED_TIME || v.cost >= INFINITY)
  }

  function Expire(t: Table, now: int): Table {
    map k | k in t && !Expired(t[k], now) :: t[k]
  }

  // ---------- The route of one network ----------

  function UpdateRoute(r: Option<FwdValue>, src: Addr, cost: U32, now: int): Option<FwdValue> {
    var newCost := Add32(cost, 1);
    if newCost >= INFINITY then r
    else match r
      case None => Some(LearnedValue(newCost, src, now))
      case Some(v) =>
        if v.routeType == RIPRoute && Replaces(v, newCost, src) then Some(LearnedValue(newCost, src, now)) else r
  }

  // An entry whose mask has the common length.
  ghost predicate EntryOk(e: RIPEntry, bits: nat) { MaskSize(e.mask) == bits }

  lemma EntryWellFormed(t: Table, bits: nat, src: Addr, e: RIPEntry, now: int, found: Option<FwdKey>)
    requires WellFormed(t, bits) && EntryOk(e, bits) && Finds(t, e.address, found)
    ensures WellFormed(ProcessEntry(t, src, e, now, found), bits)
    ensures Net(NewKey(e).prefix.addr, bits) == Net(e.address, bits)
  {
    MaskedNet(Prefix(e.address, bits));
    if found.None? {
      forall k | k in t ensures Net(k.prefix.addr, bits) != Net(e.address, bits) {
        assert !Contains(k.prefix, e.address);
      }
    }
  }

  lemma NoRoute(t: Table, bits: nat, n: nat)
    requires forall k: FwdKey | k in t :: Net(k.prefix.addr, bits) != n
    ensures Route(t, bits, n) == None
  {
  }

  lemma NewNetworkRoute(t: Table, bits: nat, src: Addr, e: RIPEntry, now: int, n: nat)
    requires WellFormed(t, bits) && EntryOk(e, bits) && Finds(t, e.address, None) && Add32(e.cost, 1) < INFINITY
    ensures Route(ProcessEntry(t, src, e, now, None), bits, n) ==
      if n == Net(e.address, bits) then UpdateRoute(None, src, e.cost, now) else Route(t, bits, n)
  {
    EntryWellFormed(t, bits, src, e, now, None);
    var t' := ProcessEntry(t, src, e, now, None);
    if n == Net(e.address, bits) {
      RouteOf(t', bits, NewKey(e));
    } else if k: FwdKey :| HasKey(t, bits, n, k) {
      RouteOf(t, bits, k);
      RouteOf(t', bits, k);
    } else {
      forall k: FwdKey | k in t' ensures Net(k.prefix.addr, bits) != n {
        assert k == NewKey(e) || !HasKey(t, bits, n, k);
      }
      NoRoute(t', bits, n);
    }
  }

  lemma KnownNetworkRoute(t: Table, bits: nat, at: FwdKey, v: FwdValue, n: nat)
    requires WellFormed(t, bits) && at in t
    ensures WellFormed(t[at := v], bits)
    ensures Route(t[at := v], bits, n) == if n == Net(at.prefix.addr, bits) then Some(v) else Route(t, bits, n)
  {
    var t' := t[at := v];
    if k: FwdKey :| HasKey(t, bits, n, k) {
      RouteOf(t, bits, k);
      RouteOf(t', bits, k);
    } else {
      forall k: FwdKey | k in t' ensures Net(k.prefix.addr, bits) != n { assert !HasKey(t, bits, n, k); }
      NoRoute(t', bits, n);
    }
  }

  /** One entry keeps the table well formed, updates the route of its own network by the
      distance-vector rule, and touches no other route. */
  lemma EntryRoute(t: Table, bits: nat, src: Addr, e: RIPEntry, now: int, t': Table, n: nat)
    requires WellFormed(t, bits) && EntryOk(e, bits) && EntryStep(t, src, e, now, t')
    ensures WellFormed(t', bits)
    ensures Route(t', bits, n) ==
      if n == Net(e.address, bits) then UpdateRoute(Route(t, bits, n), src, e.cost, now) else Route(t, bits, n)
  {
    var found :| Finds(t, e.address, found) && t' == ProcessEntry(t, src, e, now, found);
    LookupUnique(t, bits, e.address, found, found);
    EntryWellFormed(t, bits, src, e, now, found);
    if Add32(e.cost, 1) < INFINITY {
      match found
      case None => NewNetworkRoute(t, bits, src, e, now, n);
      case Some(k) => KnownNetworkRoute(t, bits, k, LearnedValue(Add32(e.cost, 1), src, now), n);
    }
  }

  // The entry of a response for network n.
  ghost predicate Offers(entries: seq<RIPEntry>, bits: nat, n: nat, cost: U32) {
    exists e | e in entries :: Net(e.address, bits) == n && e.cost == cost
  }

  ghost predicate EntriesOk(entries: seq<RIPEntry>, bits: nat) {
    && (forall e | e in entries :: EntryOk(e, bits))
    && (forall i, j | 0 <= i < j < |entries| :: Net(entries[i].address, bits) != Net(entries[j].address, bits))
  }

  /** A whole response updates each network it offers once, by the distance-vector rule, in
      whatever order it lists them, and touches no other route. */
  lemma {:induction false} ResponseRoute(
    t: Table, bits: nat, src: Addr, entries: seq<RIPEntry>, now: int, t': Table, n: nat)
    requires WellFormed(t, bits) && EntriesOk(entries, bits) && ResponseStep(t, src, entries, now, t')
    ensures WellFormed(t', bits)
    ensures forall c: U32 | Offers(entries, bits, n, c) ::
      Route(t', bits, n) == UpdateRoute(Route(t, bits, n), src, c, now)
    ensures (forall c: U32 :: !Offers(entries, bits, n, c)) ==> Route(t', bits, n) == Route(t, bits, n)
    decreases |entries|
  {
    if entries != [] {
      var m := |entries| - 1;
      var init, last := entries[..m], entries[m];
      var mid :| ResponseStep(t, src, init, now, mid) && EntryStep(mid, src, last, now, t');
      ResponseRoute(t, bits, src, init, now, mid, n);
      EntryRoute(mid, bits, src, last, now, t', n);
      forall c: U32 ensures Offers(entries, bits, n, c) <==>
        if n == Net(last.address, bits) then c == last.cost else Offers(init, bits, n, c)
      {
        OffersLast(entries, bits, n, c);
      }
      if n == Net(last.address, bits) {
        forall c: U32 ensures !Offers(init, bits, n, c) { OffersInit(entries, bits, n, c); }
      }
    }
  }

  lemma OffersInit(entries: seq<RIPEntry>, bits: nat, n: nat, c: U32)
    requires entries != [] && EntriesOk(entries, bits) && Net(entries[|entries| - 1].address, bits) == n
    ensures !Offers(entries[..|entries| - 1], bits, n, c)
  {
    var m := |entries| - 1;
    forall e | e in entries[..m] ensures Net(e.address, bits) != n {
      var i :| 0 <= i < m && entries[i] == e;
    }
  }

  lemma OffersLast(entries: seq<RIPEntry>, bits: nat, n: nat, c: U32)
    requires entries != [] && EntriesOk(entries, bits)
    ensures var m := |entries| - 1; Offers(entries, bits, n, c) <==>
      if n == Net(entries[m].address, bits) then c == entries[m].cost else Offers(entries[..m], bits, n, c)
  {
    var m := |entries| - 1;
    assert entries == entries[..m] + [entries[m]];
    if n == Net(entries[m].address, bits) { OffersInit(entries, bits, n, c); }
    if Offers(entries, bits, n, c) {
      var e :| e in entries && Net(e.address, bits) == n && e.cost == c;
      assert e in entries[..m] || e == entries[m];
    }
  }

  // What the response for `dst` says about a network with route r.
  function AdvertisedFor(r: FwdValue, n: nat, dst: Addr, bits: nat): U32 {
    if r.routeType == RIPRoute then (if r.nextHop == Some(dst) then INFINITY else r.cost)
    else if Net(dst, bits) == n then INFINITY else r.cost
  }

  /** The response of a well-formed table lists each of its networks once, with its cost or, towards
      its own next hop or a directly attached neighbour, infinity. */
  lemma ResponseOffers(t: Table, bits: nat, order: seq<FwdKey>, dst: Addr, n: nat)
    requires WellFormed(t, bits) && IsOrder(t, order) && bits <= 32
    ensures EntriesOk(ResponseFor(t, order, dst), bits)
    ensures match Route(t, bits, n)
      case None => forall c: U32 :: !Offers(ResponseFor(t, order, dst), bits, n, c)
      case Some(v) =>
        forall c: U32 :: Offers(ResponseFor(t, order, dst), bits, n, c) <==> c == AdvertisedFor(v, n, dst, bits)
  {
    var entries := ResponseFor(t, order, dst);
    MaskRoundTrip(bits);
    forall e | e in entries ensures EntryOk(e, bits) {
      var i :| 0 <= i < |entries| && entries[i] == e;
      assert order[i] in t;
    }
    forall i, j | 0 <= i < j < |entries| ensures Net(entries[i].address, bits) != Net(entries[j].address, bits) {
      assert order[i] in t && order[j] in t && order[i] != order[j];
    }
    forall e | e in entries && Net(e.address, bits) == n
      ensures Route(t, bits, n).Some? && e.cost == AdvertisedFor(Route(t, bits, n).value, n, dst, bits)
    {
      var i :| 0 <= i < |entries| && entries[i] == e;
      assert order[i] in t;
      RouteOf(t, bits, order[i]);
    }
    if Route(t, bits, n).Some? {
      var k :| HasKey(t, bits, n, k);
      RouteOf(t, bits, k);
      var i :| 0 <= i < |order| && order[i] == k;
      assert entries[i] in entries;
    }
  }

  /** Split horizon: a neighbour is told 16 for the networks it is the next hop of, or is attached to as
      this router is, and the route's cost for all others. */
  lemma PoisonReverse(t: Table, bits: nat, order: seq<FwdKey>, dst: Addr, e: RIPEntry)
    requires WellFormed(t, bits) && IsOrder(t, order) && bits <= 32 && e in ResponseFor(t, order, dst)
    ensures var n := Net(e.address, bits); var r := Route(t, bits, n);
      && r.Some?
      && (r.value.routeType == RIPRoute ==> e.cost == if r.value.nextHop == Some(dst) then 16 else r.value.cost)
      && (r.value.routeType != RIPRoute ==> e.cost == if Net(dst, bits) == n then 16 else r.value.cost)
  {
    var n := Net(e.address, bits);
    ResponseOffers(t, bits, order, dst, n);
    assert Offers(ResponseFor(t, order, dst), bits, n, e.cost);
  }

  /** Expiry drops exactly the RIP routes that are out of date or infinite. */
  lemma ExpireRoute(t: Table, bits: nat, now: int, n: nat)
    requires WellFormed(t, bits)
    ensures WellFormed(Expire(t, now), bits)
    ensures Route(Expire(t, now), bits, n) == (match Route(t, bits, n)
      case None => None
      case Some(v) => if Expired(v, now) then None else Some(v))
  {
    var t' := Expire(t, now);
    if exists k: FwdKey :: HasKey(t, bits, n, k) {
      var k :| HasKey(t, bits, n, k);
      RouteOf(t, bits, k);
      if k in t' {
        RouteOf(t', bits, k);
      } else {
        forall l: FwdKey ensures HasKey(t', bits, n, l) ==> l == k {}
      }
    } else {
      forall l: FwdKey | HasKey(t', bits, n, l) ensures false { assert HasKey(t, bits, n, l); }
    }
  }

  // ---------- What RIP never does to a table ----------

  // A RIP route names a next hop and no interface.
  ghost predicate Learned(v: FwdValue) {
    v.routeType == RIPRoute && v.nextHop.Some? && v.iface == None && v.cost < INFINITY
  }

  // Routes that are not RIP's stay as they are, and every other difference is a learned route.
  ghost predicate OnlyLearns(t: Table, t': Table) {
    && (forall k | k in t && t[k].routeType != RIPRoute :: k in t' && t'[k] == t[k])
    && (forall k | k in t' :: (k in t && t'[k] == t[k]) || Learned(t'[k]))
  }

  lemma EntryOnlyLearns(t: Table, src: Addr, e: RIPEntry, now: int, t': Table)
    requires EntryStep(t, src, e, now, t')
    ensures OnlyLearns(t, t') && forall k | k in t :: k in t'
  {
    var found :| Finds(t, e.address, found) && t' == ProcessEntry(t, src, e, now, found);
    if found.None? && t' != t {
      assert Contains(NewKey(e).prefix, e.address) by { MaskedNet(Prefix(e.address, MaskSize(e.mask))); }
      assert NewKey(e) !in t;
    }
  }

  /** A response with any entries, well formed or not, leaves local and static routes exactly as
      they were and can only add or replace routes by learned ones; expiry removes only RIP routes. */
  lemma {:induction false} ResponseOnlyLearns(t: Table, src: Addr, entries: seq<RIPEntry>, now: int, t': Table)
    requires ResponseStep(t, src, entries, now, t')
    ensures OnlyLearns(t, t') && (forall k | k in t :: k in t')
    ensures forall k | k in t' && t'[k].routeType != RIPRoute :: k in Expire(t', now) && Expire(t', now)[k] == t'[k]
    decreases |entries|
  {
    if entries != [] {
      var m := |entries| - 1;
      var mid :| ResponseStep(t, src, entries[..m], now, mid) && EntryStep(mid, src, entries[m], now, t');
      ResponseOnlyLearns(t, src, entries[..m], now, mid);
      EntryOnlyLearns(mid, src, entries[m], now, t');
    }
  }

  // The costs that are not taken as infinite: below 15 hops, and the one that wraps to 0.
  predicate Storable(cost: U32) { cost < INFINITY - 1 || cost == TWO_32 - 1 }

  // There is no route, or a RIP route that is dearer or leads to src.
  predicate Wanted(held: Option<FwdValue>, cost: U32, src: Addr) {
    held.None? || (held.value.routeType == RIPRoute && (cost < held.value.cost || held.value.nextHop == Some(src)))
  }

  /** What one offer does to the route of its network, whoever holds it and whoever offers it. A held
      route is never taken back: not even its own next hop can withdraw it by offering infinity. An
      offer is stored exactly when its cost is storable and the route is missing, or is a RIP route that
      is dearer or leads to the sender; an advertised 2^32 - 1 is then stored as 0. */
  lemma StoredCostIff(t: Table, bits: nat, src: Addr, e: RIPEntry, now: int, t': Table)
    requires WellFormed(t, bits) && EntryOk(e, bits) && EntryStep(t, src, e, now, t')
    ensures var n := Net(e.address, bits); var held, next := Route(t, bits, n), Route(t', bits, n);
      var cost := if e.cost == TWO_32 - 1 then 0 else e.cost + 1;
      && (held.Some? ==> next.Some?)
      && (next.Some? <==> held.Some? || Storable(e.cost))
      && (!Storable(e.cost) ==> t' == t)
      && (next == Some(LearnedValue(cost, src, now)) <==>
            || held == Some(LearnedValue(cost, src, now))
            || (Storable(e.cost) && Wanted(held, cost, src)))
  {
    EntryRoute(t, bits, src, e, now, t', Net(e.address, bits));
  }

  /** A stored offer, be it a new route, a better one or a refresh, outlives exactly the expiry ticks up
      to 12 seconds later, with its cost and next hop. */
  lemma StoredRouteExpiresIff(t: Table, bits: nat, src: Addr, e: RIPEntry, now: int, t': Table, later: int)
    requires WellFormed(t, bits) && EntryOk(e, bits) && EntryStep(t, src, e, now, t') && Storable(e.cost)
    requires Wanted(Route(t, bits, Net(e.address, bits)), Add32(e.cost, 1), src)
    ensures var r := Route(Expire(t', later), bits, Net(e.address, bits));
      && (r.Some? <==> later <= now + 12)
      && (r.Some? ==> r.value.cost == Add32(e.cost, 1) && r.value.nextHop == Some(src))
  {
    var n := Net(e.address, bits);
    EntryRoute(t, bits, src, e, now, t', n);
    ExpireRoute(t', bits, later, n);
  }

  /** A response whose costs are all infinite changes nothing, even when it comes from the next hop
      of the routes it lists. */
  lemma {:induction false} InfiniteResponseIgnored(t: Table, src: Addr, entries: seq<RIPEntry>, now: int, t': Table)
    requires ResponseStep(t, src, entries, now, t') && forall e | e in entries :: !Storable(e.cost)
    ensures t' == t
    decreases |entries|
  {
    if entries != [] {
      var m := |entries| - 1;
      var mid :| ResponseStep(t, src, entries[..m], now, mid) && EntryStep(mid, src, entries[m], now, t');
      InfiniteResponseIgnored(t, src, entries[..m], now, mid);
    }
  }
}
