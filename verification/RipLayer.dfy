/** The forwarding table as the field RIP updates in place: RIPHandler, SendRIPResponseSafe and
    PeriodicExpiry of pkg/rip/rip.go with their loops over the packet and over the map. */
module RipLayer {
  import opened Words
  import opened Wrappers
  import opened FwdTables
  import opened RipRouter

  // The two tables differ at most in the times at which routes were refreshed.
  ghost predicate SameRoutes(t: Table, t': Table) {
    t'.Keys == t.Keys && forall k | k in t :: t'[k].cost == t[k].cost && t'[k].nextHop == t[k].nextHop
  }

  // The routes of every network that these entries list are as they were.
  ghost predicate Untouched(t: Table, t': Table, bits: nat, entries: seq<RIPEntry>) {
    forall e, k: FwdKey | e in entries && Net(k.prefix.addr, bits) == Net(e.address, bits) ::
      (k in t <==> k in t') && (k in t ==> t'[k] == t[k])
  }

  // An entry can only change the route of its own network.
  lemma EntryTouches(t: Table, bits: nat, src: Addr, e: RIPEntry, now: int, t': Table, k: FwdKey)
    requires WellFormed(t, bits) && EntryOk(e, bits) && EntryStep(t, src, e, now, t')
    requires Net(k.prefix.addr, bits) != Net(e.address, bits)
    ensures (k in t <==> k in t') && (k in t ==> t'[k] == t[k])
  {
    var found :| Finds(t, e.address, found) && t' == ProcessEntry(t, src, e, now, found);
    EntryWellFormed(t, bits, src, e, now, found);
  }

  // When the network has not been listed before, what its entry changes stays changed.
  lemma ChangesAddUp(start: Table, mid: Table, t': Table, bits: nat, src: Addr, e: RIPEntry, now: int)
    requires WellFormed(mid, bits) && EntryOk(e, bits) && EntryStep(mid, src, e, now, t')
    requires Untouched(start, mid, bits, [e])
    ensures SameRoutes(start, t') <==> SameRoutes(start, mid) && SameRoutes(mid, t')
  {
    assert e in [e];
    forall k: FwdKey
      ensures if Net(k.prefix.addr, bits) == Net(e.address, bits)
        then (k in start <==> k in mid) && (k in start ==> mid[k] == start[k])
        else (k in mid <==> k in t') && (k in mid ==> t'[k] == mid[k])
    {
      if Net(k.prefix.addr, bits) != Net(e.address, bits) { EntryTouches(mid, bits, src, e, now, t', k); }
    }
  }

  // Some entry so far has changed a route if and only if the table's routes differ from the first ones, as
  // long as the entries are for different networks.
  ghost predicate Tracked(start: Table, t: Table, bits: nat, done: seq<RIPEntry>, todo: seq<RIPEntry>, any: bool) {
    WellFormed(start, bits) && EntriesOk(done + todo, bits) ==>
      WellFormed(t, bits) && Untouched(start, t, bits, todo) && (any <==> !SameRoutes(start, t))
  }

  lemma StaysUntouched(
    start: Table, mid: Table, t': Table, bits: nat, src: Addr, e: RIPEntry, now: int, todo: seq<RIPEntry>)
    requires WellFormed(mid, bits) && EntryOk(e, bits) && EntryStep(mid, src, e, now, t')
    requires Untouched(start, mid, bits, todo)
    requires forall x | x in todo :: Net(x.address, bits) != Net(e.address, bits)
    ensures Untouched(start, t', bits, todo)
  {
    forall x, k: FwdKey | x in todo && Net(k.prefix.addr, bits) == Net(x.address, bits)
      ensures (k in start <==> k in t') && (k in start ==> t'[k] == start[k])
    {
      EntryTouches(mid, bits, src, e, now, t', k);
    }
  }

  lemma EntryTracked(start: Table, mid: Table, t': Table, bits: nat, src: Addr, now: int,
    done: seq<RIPEntry>, e: RIPEntry, todo: seq<RIPEntry>, any: bool)
    requires Tracked(start, mid, bits, done, [e] + todo, any) && EntryStep(mid, src, e, now, t')
    ensures Tracked(start, t', bits, done + [e], todo, any || !SameRoutes(mid, t'))
  {
    var all := done + [e] + todo;
    assert done + ([e] + todo) == all;
    if WellFormed(start, bits) && EntriesOk(all, bits) {
      assert all[|done|] == e;
      forall x | x in todo ensures Net(x.address, bits) != Net(e.address, bits) {
        var i :| 0 <= i < |todo| && todo[i] == x;
        assert all[|done| + 1 + i] == x;
      }
      assert EntryOk(e, bits);
      EntryRoute(mid, bits, src, e, now, t', 0);
      assert Untouched(start, mid, bits, [e]) && Untouched(start, mid, bits, todo);
      ChangesAddUp(start, mid, t', bits, src, e, now);
      StaysUntouched(start, mid, t', bits, src, e, now, todo);
    }
  }

  /** No two entries are for the same network, and no two routes of the table. */
  ghost predicate EachOnce(t: Table, entries: seq<RIPEntry>) {
    exists bits: nat :: WellFormed(t, bits) && EntriesOk(entries, bits)
  }

  /** Handling the entries in order leads from t to t', and `any` says whether one of them, when it was
      handled, changed a cost or a next hop. */
  ghost predicate Triggers(t: Table, src: Addr, entries: seq<RIPEntry>, now: int, t': Table, any: bool)
    decreases |entries|
  {
    if entries == [] then t' == t && !any
    else
      var n := |entries| - 1;
      exists mid, before: bool ::
        Triggers(t, src, entries[..n], now, mid, before) && TriggersLast(mid, src, entries[n], now, t', before, any)
  }

  ghost predicate TriggersLast(mid: Table, src: Addr, e: RIPEntry, now: int, t': Table, before: bool, any: bool) {
    EntryStep(mid, src, e, now, t') && any == (before || !SameRoutes(mid, t'))
  }

  lemma TriggersAppend(t: Table, src: Addr, done: seq<RIPEntry>, e: RIPEntry, now: int,
    mid: Table, t': Table, before: bool, any: bool)
    requires Triggers(t, src, done, now, mid, before) && TriggersLast(mid, src, e, now, t', before, any)
    ensures Triggers(t, src, done + [e], now, t', any)
  {
    var all := done + [e];
    var n := |all| - 1;
    assert all[..n] == done && all[n] == e;
    assert Triggers(t, src, all[..n], now, mid, before) && TriggersLast(mid, src, all[n], now, t', before, any);
  }

  lemma {:induction false} QuietSameRoutes(t: Table, src: Addr, entries: seq<RIPEntry>, now: int, t': Table)
    requires Triggers(t, src, entries, now, t', false)
    ensures SameRoutes(t, t')
    decreases |entries|
  {
    if entries != [] {
      var n := |entries| - 1;
      var mid, before: bool :| Triggers(t, src, entries[..n], now, mid, before)
        && TriggersLast(mid, src, entries[n], now, t', before, false);
      QuietSameRoutes(t, src, entries[..n], now, mid);
    }
  }

  lemma {:induction false} TriggersTracked(t: Table, bits: nat, src: Addr, done: seq<RIPEntry>, todo: seq<RIPEntry>,
    now: int, t': Table, any: bool)
    requires Triggers(t, src, done, now, t', any)
    ensures Tracked(t, t', bits, done, todo, any)
    decreases |done|
  {
    if done != [] {
      var n := |done| - 1;
      var mid, before: bool :| Triggers(t, src, done[..n], now, mid, before)
        && TriggersLast(mid, src, done[n], now, t', before, any);
      assert done == done[..n] + [done[n]];
      TriggersTracked(t, bits, src, done[..n], [done[n]] + todo, now, mid, before);
      EntryTracked(t, mid, t', bits, src, now, done[..n], done[n], todo, before);
    }
  }

  /** When each network is listed once, an update is triggered if and only if routes differ in the end. */
  lemma TriggersIffChanged(t: Table, src: Addr, entries: seq<RIPEntry>, now: int, t': Table, any: bool)
    requires Triggers(t, src, entries, now, t', any) && EachOnce(t, entries)
    ensures any <==> !SameRoutes(t, t')
  {
    var bits: nat :| WellFormed(t, bits) && EntriesOk(entries, bits);
    assert entries + [] == entries;
    TriggersTracked(t, bits, src, entries, [], now, t', any);
  }

  // A table of one learned route.
  function OneRoute(k: FwdKey, cost: U32, src: Addr, time: int): Table { map[k := LearnedValue(cost, src, time)] }

  // Its next hop's offer is always taken.
  lemma OneRouteStep(k: FwdKey, held: U32, src: Addr, time: int, cost: U32, mask: U32, now: int)
    requires cost < 15
    ensures var t, t' := OneRoute(k, held, src, time), OneRoute(k, cost + 1, src, now);
      EntryStep(t, src, RIPEntry(cost, k.prefix.addr, mask), now, t') && (SameRoutes(t, t') <==> held == cost + 1)
  {
    var t, t', e := OneRoute(k, held, src, time), OneRoute(k, cost + 1, src, now), RIPEntry(cost, k.prefix.addr, mask);
    assert k in t && k in t';
    assert Finds(t, e.address, Some(k)) && t' == ProcessEntry(t, src, e, now, Some(k));
  }

  /** Why that is needed: the next hop of a route of cost 5 lists its network twice, the route changes and
      changes back, and an update is triggered although it is as it was. */
  lemma TriggersForNothing(k: FwdKey, mask: U32, src: Addr, time: int, now: int) returns (entries: seq<RIPEntry>)
    ensures |entries| == 2
    ensures Triggers(OneRoute(k, 5, src, time), src, entries, now, OneRoute(k, 5, src, now), true)
    ensures SameRoutes(OneRoute(k, 5, src, time), OneRoute(k, 5, src, now))
  {
    var t0, t1, t2 := OneRoute(k, 5, src, time), OneRoute(k, 3, src, now), OneRoute(k, 5, src, now);
    var e1, e2 := RIPEntry(2, k.prefix.addr, mask), RIPEntry(4, k.prefix.addr, mask);
    OneRouteStep(k, 5, src, time, 2, mask, now);
    OneRouteStep(k, 3, src, now, 4, mask, now);
    OneRouteStep(k, 5, src, time, 4, mask, now);
    TriggersAppend(t0, src, [], e1, now, t0, t1, false, true);
    TriggersAppend(t0, src, [] + [e1], e2, now, t1, t2, true, true);
    entries := [] + [e1] + [e2];
  }

  /** Nothing in the response is news: each cost is infinite, or the one the route through the sender has. */
  ghost predicate NothingNew(t: Table, bits: nat, src: Addr, entries: seq<RIPEntry>) {
    && WellFormed(t, bits) && EntriesOk(entries, bits)
    && forall e | e in entries :: !Storable(e.cost) || Confirms(Route(t, bits, Net(e.address, bits)), src, e.cost)
  }

  predicate Confirms(held: Option<FwdValue>, src: Addr, cost: U32) {
    held.Some? && held.value.cost == Add32(cost, 1) && held.value.nextHop == Some(src)
  }

  predicate SameRoute(r: Option<FwdValue>, r': Option<FwdValue>) {
    r.Some? == r'.Some? && (r.Some? ==> r'.value.cost == r.value.cost && r'.value.nextHop == r.value.nextHop)
  }

  lemma NoNewRoute(t: Table, bits: nat, src: Addr, entries: seq<RIPEntry>, now: int, t': Table, n: nat)
    requires NothingNew(t, bits, src, entries) && ResponseStep(t, src, entries, now, t')
    ensures SameRoute(Route(t, bits, n), Route(t', bits, n))
  {
    ResponseRoute(t, bits, src, entries, now, t', n);
    if c: U32 :| Offers(entries, bits, n, c) {
      assert Route(t', bits, n) == UpdateRoute(Route(t, bits, n), src, c, now);
    }
  }

  /** Such a response, a periodic refresh or one of infinite costs only, leaves every route as it is. */
  lemma NothingNewSameRoutes(t: Table, bits: nat, src: Addr, entries: seq<RIPEntry>, now: int, t': Table)
    requires NothingNew(t, bits, src, entries) && ResponseStep(t, src, entries, now, t')
    ensures SameRoutes(t, t')
  {
    ResponseRoute(t, bits, src, entries, now, t', 0);
    ResponseOnlyLearns(t, src, entries, now, t');
    forall k | k in t' ensures k in t && t'[k].cost == t[k].cost && t'[k].nextHop == t[k].nextHop {
      var n := Net(k.prefix.addr, bits);
      NoNewRoute(t, bits, src, entries, now, t', n);
      RouteOf(t', bits, k);
      var l :| HasKey(t, bits, n, l);
      assert l in t' && l == k;
      RouteOf(t, bits, k);
    }
  }

  lemma NothingNewIsSilent(t: Table, src: Addr, entries: seq<RIPEntry>, now: int, t': Table, any: bool)
    requires ResponseStep(t, src, entries, now, t') && Triggers(t, src, entries, now, t', any)
    ensures forall bits: nat | NothingNew(t, bits, src, entries) :: !any
  {
    forall bits: nat | NothingNew(t, bits, src, entries) ensures !any {
      NothingNewSameRoutes(t, bits, src, entries, now, t');
      TriggersIffChanged(t, src, entries, now, t', any);
    }
  }

  method SizeOfMask(mask: U32) returns (bits: nat)
    ensures bits == MaskSize(mask)
  {
    for b := 0 to 33
      invariant forall c: nat | c < b :: mask != CidrMask(c)
    {
      if mask == CidrMask(b) {
        MaskRoundTrip(b);
        return b;
      }
    }
    bits := 0;
  }

  class NetworkLayer {
    var fwdTable: Table
    const ripNeighbors: seq<Addr>

    constructor (fwdTable: Table, ripNeighbors: seq<Addr>)
      ensures this.fwdTable == fwdTable && this.ripNeighbors == ripNeighbors
    {
      this.fwdTable := fwdTable;
      this.ripNeighbors := ripNeighbors;
    }

    // One entry of a response; returns whether it goes into the list of updated entries.
    method HandleEntry(src: Addr, e: RIPEntry, now: int) returns (updated: bool)
      modifies this
      ensures EntryStep(old(fwdTable), src, e, now, fwdTable)
      ensures updated <==> !SameRoutes(old(fwdTable), fwdTable)
    {
      updated := false;
      var newCost := Add32(e.cost, 1);
      var found := GetEntryByPrefix(fwdTable, e.address);
      assert Finds(old(fwdTable), e.address, found);
      if newCost < INFINITY {
        var value := LearnedValue(newCost, src, now);
        match found {
          case None =>
            var bits := SizeOfMask(e.mask);
            MaskedNet(Prefix(e.address, bits));
            assert Contains(Masked(Prefix(e.address, bits)), e.address);
            fwdTable := fwdTable[FwdKey(e.address, Masked(Prefix(e.address, bits))) := value];
            updated := true;
          case Some(k) =>
            if fwdTable[k].routeType == RIPRoute {
              var oldCost, oldNextHop := fwdTable[k].cost, fwdTable[k].nextHop;
              if newCost < oldCost {
                fwdTable := fwdTable[k := value];
                updated := true;
              } else if newCost > oldCost && oldNextHop == Some(src) {
                fwdTable := fwdTable[k := value];
                updated := true;
              } else if newCost == oldCost && oldNextHop == Some(src) {
                fwdTable := fwdTable[k := value];
              }
            }
        }
      }
      assert fwdTable == ProcessEntry(old(fwdTable), src, e, now, found);
    }

    /** RIPHandler on a response. The result lists the neighbours a triggered update goes to: all of them if
        and only if an entry has changed some route's cost or next hop, which is to say, when each network is
        listed once, that the table's routes differ; and so none for a refresh or for infinite costs. */
    method HandleResponse(src: Addr, entries: seq<RIPEntry>, now: int) returns (notify: seq<Addr>)
      modifies this
      ensures ReceiveStep(old(fwdTable), src, entries, now, fwdTable)
      ensures notify == [] || notify == ripNeighbors
      ensures notify == [] && ripNeighbors != [] ==> SameRoutes(old(fwdTable), fwdTable)
      ensures |entries| <= MAX_NUM_ENTRIES && ripNeighbors != [] ==>
        Triggers(old(fwdTable), src, entries, now, fwdTable, notify == ripNeighbors)
      ensures EachOnce(old(fwdTable), entries) && ripNeighbors != [] ==>
        (notify == ripNeighbors <==> !SameRoutes(old(fwdTable), fwdTable))
      ensures forall bits: nat | NothingNew(old(fwdTable), bits, src, entries) :: notify == []
    {
      notify := [];
      if |entries| > MAX_NUM_ENTRIES { return; }
      ghost var start := fwdTable;
      var anyUpdated := false;
      for i := 0 to |entries|
        invariant ResponseStep(start, src, entries[..i], now, fwdTable)
        invariant Triggers(start, src, entries[..i], now, fwdTable, anyUpdated)
      {
        ghost var mid, before := fwdTable, anyUpdated;
        var updated := HandleEntry(src, entries[i], now);
        anyUpdated := anyUpdated || updated;
        ResponseAppend(start, src, entries[..i], entries[i], now, mid, fwdTable);
        TriggersAppend(start, src, entries[..i], entries[i], now, mid, fwdTable, before, anyUpdated);
        assert entries[..i + 1] == entries[..i] + [entries[i]];
      }
      assert entries[..|entries|] == entries;
      if !anyUpdated { QuietSameRoutes(start, src, entries, now, fwdTable); }
      if EachOnce(start, entries) { TriggersIffChanged(start, src, entries, now, fwdTable, anyUpdated); }
      NothingNewIsSilent(start, src, entries, now, fwdTable, anyUpdated);
      if anyUpdated { notify := ripNeighbors; }
    }

    /** SendRIPResponseSafe: the entries for `dst`, in the order the map is visited. */
    method MakeResponse(dst: Addr) returns (entries: seq<RIPEntry>)
      ensures exists order: seq<FwdKey> :: IsOrder(fwdTable, order) && entries == ResponseFor(fwdTable, order, dst)
    {
      entries := [];
      ghost var order: seq<FwdKey> := [];
      var todo := fwdTable.Keys;
      while todo != {}
        invariant todo <= fwdTable.Keys && |entries| == |order|
        invariant forall k | k in fwdTable :: k in todo <==> k !in order
        invariant forall k | k in order :: k in fwdTable
        invariant forall i, j | 0 <= i < j < |order| :: order[i] != order[j]
        invariant forall i | 0 <= i < |order| :: entries[i] == EntryFor(order[i], fwdTable[order[i]], dst)
        decreases todo
      {
        var k :| k in todo;
        var v := fwdTable[k];
        var cost := v.cost;
        if v.routeType == RIPRoute {
          if v.nextHop == Some(dst) { cost := INFINITY; }
        } else if Contains(k.prefix, dst) {
          cost := INFINITY;
        }
        var mask := if k.prefix.bits <= 32 then CidrMask(k.prefix.bits) else 0;
        entries := entries + [RIPEntry(cost, k.prefix.addr, mask)];
        order := order + [k];
        todo := todo - {k};
      }
      assert IsOrder(fwdTable, order) && entries == ResponseFor(fwdTable, order, dst);
    }

    /** One tick of PeriodicExpiry: collect the expired entries, then delete them. */
    method ExpireEntries(now: int)
      modifies this
      ensures fwdTable == Expire(old(fwdTable), now)
    {
      var expired: set<FwdKey> := {};
      var todo := fwdTable.Keys;
      while todo != {}
        invariant todo <= fwdTable.Keys && fwdTable == old(fwdTable)
        invariant forall k :: k in expired <==> k in fwdTable && k !in todo && Expired(fwdTable[k], now)
        decreases todo
      {
        var k :| k in todo;
        if Expired(fwdTable[k], now) { expired := expired + {k}; }
        todo := todo - {k};
      }
      while expired != {}
        invariant forall k | k in old(fwdTable) :: k in fwdTable <==> !Expired(old(fwdTable)[k], now) || k in expired
        invariant forall k | k in fwdTable :: k in old(fwdTable) && fwdTable[k] == old(fwdTable)[k]
        invariant expired <= fwdTable.Keys
        decreases expired
      {
        var k :| k in expired;
        fwdTable := fwdTable - {k};
        expired := expired - {k};
      }
    }
  }
}
