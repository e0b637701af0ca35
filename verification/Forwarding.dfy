/** IP forwarding (pkg/network/network.go): the lookups as loops over the map, the decision
    they lead to, and delivery over converged tables within the TTL. */
module Forwarding {
  import opened Words
  import opened Wrappers
  import opened Checksum
  import opened FwdTables
  import opened RipRouter
  import opened RipNetwork
  import opened RipConvergence

  const MAX_HOPS := 16

  datatype Hop =
    | AtDestination
    | InterfaceDown
    | NextTo(via: Addr)   // the neighbour the packet is sent to
    | NoRoute
    | NoNeighbour

  // Unroutable: no route or neighbour, which is an error; Discarded: dropped without one; LoopedBack: put
  // into the node's own packet channel.
  datatype Outcome = Accepted | Discarded | Unroutable | LoopedBack | Forwarded(via: Addr, ttl: int)

  predicate HasLocalIP(t: Table, k: FwdKey, a: Addr) {
    k in t && t[k].routeType == LocalRoute && t[k].iface.Some? && k.ip == a
  }

  // An entry getInterfaceByPrefix accepts for the address.
  predicate HasInterface(t: Table, k: FwdKey, a: Addr) {
    k in t && t[k].routeType == LocalRoute && t[k].iface.Some? && t[k].iface.value.up && Contains(k.prefix, a)
  }

  function SendOn(t: Table, k: FwdKey, via: Addr): Hop
    requires HasInterface(t, k, via)
  {
    if via in t[k].iface.value.neighbors then NextTo(via) else NoNeighbour
  }

  // What can be decided once the address to send to is known.
  ghost predicate SendsTo(t: Table, via: Addr, h: Hop) {
    if exists k: FwdKey :: HasInterface(t, k, via)
    then exists k: FwdKey :: HasInterface(t, k, via) && h == SendOn(t, k, via)
    else h == NoRoute
  }

  // What can be decided from the entry found for the destination.
  ghost predicate DecidesBy(t: Table, dst: Addr, found: Option<FwdKey>, h: Hop)
    requires Finds(t, dst, found)
  {
    match found
    case None => h == NoRoute
    case Some(k) => if t[k].nextHop.Some? then SendsTo(t, t[k].nextHop.value, h) else h == NoRoute
  }

  /** The decision HandlePacket and SendPacketToDestIP can reach for a destination; where the
      table allows more than one answer, any of them, since map order is arbitrary. */
  ghost predicate Decides(t: Table, dst: Addr, h: Hop) {
    if exists k: FwdKey :: HasLocalIP(t, k, dst) then
      exists k: FwdKey :: HasLocalIP(t, k, dst) && h == (if t[k].iface.value.up then AtDestination else InterfaceDown)
    else if exists k: FwdKey :: HasInterface(t, k, dst) then
      exists k: FwdKey :: HasInterface(t, k, dst) && h == SendOn(t, k, dst)
    else
      exists found :: Finds(t, dst, found) && DecidesBy(t, dst, found, h)
  }

  /** HandlePacket: a forwarded packet loses one from its TTL and is dropped when none is left. */
  ghost predicate Handles(t: Table, dst: Addr, ttl: int, o: Outcome) {
    exists h: Hop :: Decides(t, dst, h) && o == OutcomeOf(h, ttl - 1)
  }

  function OutcomeOf(h: Hop, ttl: int): Outcome {
    match h
    case AtDestination => Accepted
    case NextTo(via) => if ttl <= 0 then Discarded else Forwarded(via, ttl)
    case InterfaceDown => Discarded
    case _ => Unroutable
  }

  // A packet on a link, as far as HandlePacket reads it: the header bytes and the fields parsed from them.
  datatype Datagram = Datagram(header: Bytes, checksum: U16, dst: Addr, ttl: Byte, protocol: int)

  datatype Verdict = InvalidChecksum | UnknownProtocol | Handled(outcome: Outcome)

  function VerdictOn(o: Outcome, hasHandler: bool): Verdict {
    if o.Accepted? && !hasHandler then UnknownProtocol else Handled(o)
  }

  /** HandlePacket from the checksum on: a packet with a wrong one is refused unseen, and an accepted
      packet whose protocol has no handler is an error. */
  ghost predicate Judges(t: Table, handlers: set<int>, p: Datagram, v: Verdict)
    requires IsHeader(p.header)
  {
    if !Accepts(p.header, p.checksum) then v == InvalidChecksum
    else exists o :: Handles(t, p.dst, p.ttl, o) && v == VerdictOn(o, p.protocol in handlers)
  }

  function SendOutcome(h: Hop): Outcome {
    match h
    case AtDestination => LoopedBack
    case InterfaceDown => LoopedBack
    case NextTo(via) => Forwarded(via, MAX_HOPS)
    case _ => Unroutable
  }

  /** SendPacketToDestIP: a packet for a local address, even of an interface that is down, is looped back;
      others start with a TTL of MAX_HOPS. */
  ghost predicate Originates(t: Table, dst: Addr, o: Outcome) {
    exists h: Hop :: Decides(t, dst, h) && o == SendOutcome(h)
  }

  /** The packet that leaves with this TTL and a new checksum. */
  function Restamped(p: Datagram, ttl: Byte): Datagram
    requires IsHeader(p.header)
  {
    var b := Zeroed(p.header, ttl);
    p.(header := Stamped(b, ComputeChecksum(b)), checksum := ComputeChecksum(b), ttl := ttl)
  }

  // ---------- The lookups ----------

  method CheckIfLocalIP(t: Table, a: Addr) returns (found: Option<FwdKey>)
    ensures found.Some? ==> HasLocalIP(t, found.value, a)
    ensures found.None? ==> forall k: FwdKey :: !HasLocalIP(t, k, a)
  {
    var todo := t.Keys;
    while todo != {}
      invariant todo <= t.Keys && forall k | k in t && k !in todo :: !HasLocalIP(t, k, a)
      decreases todo
    {
      var k :| k in todo;
      if HasLocalIP(t, k, a) { return Some(k); }
      todo := todo - {k};
    }
    found := None;
  }

  method GetInterfaceByPrefix(t: Table, a: Addr) returns (found: Option<FwdKey>)
    ensures found.Some? ==> HasInterface(t, found.value, a)
    ensures found.None? ==> forall k: FwdKey :: !HasInterface(t, k, a)
  {
    var todo := t.Keys;
    while todo != {}
      invariant todo <= t.Keys && forall k | k in t && k !in todo :: !HasInterface(t, k, a)
      decreases todo
    {
      var k :| k in todo;
      if HasInterface(t, k, a) { return Some(k); }
      todo := todo - {k};
    }
    found := None;
  }

  method Decide(t: Table, dst: Addr) returns (h: Hop)
    ensures Decides(t, dst, h)
  {
    var local := CheckIfLocalIP(t, dst);
    if local.Some? {
      return if t[local.value].iface.value.up then AtDestination else InterfaceDown;
    }
    var direct := GetInterfaceByPrefix(t, dst);
    if direct.Some? { return SendOn(t, direct.value, dst); }
    var entry := GetEntryByPrefix(t, dst);
    if entry.None? || t[entry.value].nextHop.None? { return NoRoute; }
    var via := t[entry.value].nextHop.value;
    var link := GetInterfaceByPrefix(t, via);
    h := if link.Some? then SendOn(t, link.value, via) else NoRoute;
    assert SendsTo(t, via, h);
  }

  method HandlePacket(t: Table, handlers: set<int>, p: Datagram) returns (v: Verdict)
    requires IsHeader(p.header)
    ensures Judges(t, handlers, p, v)
  {
    if !Accepts(p.header, p.checksum) { return InvalidChecksum; }
    var h := Decide(t, p.dst);
    var o := OutcomeOf(h, p.ttl - 1);
    assert Handles(t, p.dst, p.ttl, o);
    v := VerdictOn(o, p.protocol in handlers);
  }

  method SendPacketToDestIP(t: Table, dst: Addr) returns (o: Outcome)
    ensures Originates(t, dst, o)
  {
    var h := Decide(t, dst);
    o := SendOutcome(h);
  }

  // ---------- What one node does ----------

  ghost predicate IsLocal(t: Table, a: Addr) { exists k: FwdKey :: HasLocalIP(t, k, a) }

  // All interfaces with the address are up, or all are down.
  ghost predicate AllUp(t: Table, a: Addr) { forall k: FwdKey | HasLocalIP(t, k, a) :: t[k].iface.value.up }

  ghost predicate AllDown(t: Table, a: Addr) { forall k: FwdKey | HasLocalIP(t, k, a) :: !t[k].iface.value.up }

  // With one decision possible there is one outcome.
  lemma OneOutcome(t: Table, dst: Addr, ttl: int, h: Hop)
    requires forall x :: Decides(t, dst, x) <==> x == h
    ensures forall o :: Handles(t, dst, ttl, o) <==> o == OutcomeOf(h, ttl - 1)
    ensures forall o :: Originates(t, dst, o) <==> o == SendOutcome(h)
  {
    assert Decides(t, dst, h) && OutcomeOf(h, ttl - 1) == OutcomeOf(h, ttl - 1) && SendOutcome(h) == SendOutcome(h);
  }

  lemma OneVerdict(t: Table, handlers: set<int>, p: Datagram, h: Hop, v: Verdict)
    requires IsHeader(p.header) && forall x :: Decides(t, p.dst, x) <==> x == h
    ensures Judges(t, handlers, p, v) <==> v == if !Accepts(p.header, p.checksum) then InvalidChecksum
      else VerdictOn(OutcomeOf(h, p.ttl - 1), p.protocol in handlers)
  {
    OneOutcome(t, p.dst, p.ttl, h);
    var o := OutcomeOf(h, p.ttl - 1);
    assert Handles(t, p.dst, p.ttl, o);
  }

  /** At its destination a packet with a correct checksum is accepted if its protocol has a handler and is
      an error if not, and is dropped if the interface is down; with a wrong checksum it is refused. */
  lemma VerdictAtDestination(t: Table, handlers: set<int>, p: Datagram, v: Verdict)
    requires IsHeader(p.header) && IsLocal(t, p.dst)
    ensures AllUp(t, p.dst) ==> (Judges(t, handlers, p, v) <==>
      v == if !Accepts(p.header, p.checksum) then InvalidChecksum
           else if p.protocol in handlers then Handled(Accepted) else UnknownProtocol)
    ensures AllDown(t, p.dst) ==> (Judges(t, handlers, p, v) <==>
      v == if !Accepts(p.header, p.checksum) then InvalidChecksum else Handled(Discarded))
  {
    var k: FwdKey :| HasLocalIP(t, k, p.dst);
    if AllUp(t, p.dst) { OneVerdict(t, handlers, p, AtDestination, v); }
    if AllDown(t, p.dst) { OneVerdict(t, handlers, p, InterfaceDown, v); }
  }

  /** What a node sends to an address of its own is looped back, and nothing else is. */
  lemma LoopsBackIff(t: Table, dst: Addr, o: Outcome)
    requires Originates(t, dst, o)
    ensures o == LoopedBack <==> IsLocal(t, dst)
  {
  }

  // The neighbour on a link that is up.
  ghost predicate LiveLink(t: Table, via: Addr) {
    exists k | k in t :: t[k].routeType == LocalRoute && t[k].iface.Some? && t[k].iface.value.up
      && Contains(k.prefix, via) && via in t[k].iface.value.neighbors
  }

  // The address itself, or the next hop of a route to it.
  ghost predicate NextHopFor(t: Table, dst: Addr, via: Addr) {
    via == dst || exists k | k in t :: Contains(k.prefix, dst) && t[k].nextHop == Some(via)
  }

  /** Over any table a packet for somebody else is never accepted; it is passed on only to a neighbour on a
      link that is up, which is its destination or the next hop of a route to it, with one less TTL, and is
      dropped without an error only when no TTL is left. */
  lemma TransitOutcome(t: Table, dst: Addr, ttl: int, o: Outcome)
    requires Handles(t, dst, ttl, o) && !IsLocal(t, dst)
    ensures o.Forwarded? ==> o.ttl == ttl - 1 > 0 && LiveLink(t, o.via) && NextHopFor(t, dst, o.via)
    ensures o.Forwarded? || o == Unroutable || (o == Discarded && ttl <= 1)
  {
    var h :| Decides(t, dst, h) && o == OutcomeOf(h, ttl - 1);
    if h.NextTo? { NextToLink(t, dst, h.via); }
  }

  lemma NextToLink(t: Table, dst: Addr, via: Addr)
    requires Decides(t, dst, NextTo(via))
    ensures LiveLink(t, via) && NextHopFor(t, dst, via)
  {
  }

  /** Without a route, handling and sending are errors. */
  lemma NoRouteIsError(t: Table, dst: Addr, ttl: int, o: Outcome)
    requires !IsLocal(t, dst) && forall k | k in t :: !Contains(k.prefix, dst)
    ensures Handles(t, dst, ttl, o) <==> o == Unroutable
    ensures Originates(t, dst, o) <==> o == Unroutable
  {
    assert Finds(t, dst, None);
    OneOutcome(t, dst, ttl, NoRoute);
  }

  // ---------- Delivery ----------

  /** Interfaces are up and know the routers and hosts on their network; `hosts` are the hosts of
      each network, and no router has a host's address. */
  ghost predicate Wired(g: Topology, hosts: map<nat, set<Addr>>, r: nat, t: Table)
    requires ValidTopology(g)
  {
    && (forall k | k in t && t[k].routeType == LocalRoute ::
          var n := Net(k.prefix.addr, g.bits);
          && t[k].iface.Some? && t[k].iface.value.up
          && (forall n', a | n' in hosts && a in hosts[n'] :: k.ip != a)
          && (n in hosts ==> hosts[n] <= t[k].iface.value.neighbors)
          && (forall m | Adjacent(g, m, r) && Net(g.addr[(m, r)], g.bits) == n ::
                g.addr[(m, r)] in t[k].iface.value.neighbors))
  }

  ghost predicate IsHost(g: Topology, hosts: map<nat, set<Addr>>, n: nat, a: Addr) {
    n in hosts && a in hosts[n] && Net(a, g.bits) == n
  }

  // The router that has the address on its link to r.
  ghost predicate Owns(g: Topology, m: nat, r: nat, via: Addr) { Adjacent(g, m, r) && g.addr[(m, r)] == via }

  // Whatever the map order, the packet goes to this neighbour.
  ghost predicate OnlyHop(t: Table, dst: Addr, via: Addr) {
    forall h :: Decides(t, dst, h) <==> h == NextTo(via)
  }

  // A node that handles the packet can come to this verdict only.
  ghost predicate Must(t: Table, handlers: set<int>, p: Datagram, v: Verdict) {
    IsHeader(p.header) && forall x :: Judges(t, handlers, p, x) <==> x == v
  }

  ghost predicate MustForward(t: Table, p: Datagram, via: Addr) { Must(t, {}, p, Handled(Forwarded(via, p.ttl - 1))) }

  // The host with the destination's address: its table, and the protocols it handles.
  datatype Host = Host(table: Table, handlers: set<int>)

  /** Whatever order the maps are visited in, the packet that router r handles is accepted by the host. */
  ghost predicate Arrives(g: Topology, tables: map<nat, Table>, host: Host, r: nat, p: Datagram)
    decreases p.ttl, 1
  {
    && r in tables && IsHeader(p.header) && p.ttl > 1
    && exists via :: MustForward(tables[r], p, via) && Continues(g, tables, host, r, via, Restamped(p, p.ttl - 1))
  }

  // What router r sends to `via` is accepted there, or goes on from there.
  ghost predicate Continues(g: Topology, tables: map<nat, Table>, host: Host, r: nat, via: Addr, p: Datagram)
    decreases p.ttl, 2
  {
    if via == p.dst then Must(host.table, host.handlers, p, Handled(Accepted))
    else exists m | Owns(g, m, r, via) :: Arrives(g, tables, host, m, p)
  }

  // The host's interface has the destination's address and is up.
  ghost predicate IsHome(host: Host, dst: Addr) { IsLocal(host.table, dst) && AllUp(host.table, dst) }

  // The checksum that goes with this TTL is not one that will be refused.
  predicate StampPasses(b: Bytes, ttl: Byte)
    requires IsHeader(b)
  {
    ComputeChecksum(Zeroed(b, ttl)) != 0
  }

  /** The packet's own checksum is correct, and so are those it gets on its next hops. */
  ghost predicate ChecksumsPass(p: Datagram, hops: nat) {
    && IsHeader(p.header) && p.header[0] != 0 && hops <= p.ttl && Accepts(p.header, p.checksum)
    && forall ttl: Byte | p.ttl - hops <= ttl < p.ttl :: StampPasses(p.header, ttl)
  }

  lemma DirectHop(g: Topology, hosts: map<nat, set<Addr>>, r: nat, t: Table, n: nat, dst: Addr, h: Hop)
    requires ValidTopology(g) && r in g.routers && RouterOk(g, r, t) && Wired(g, hosts, r, t)
    requires IsHost(g, hosts, n, dst) && n in g.attached[r]
    ensures Decides(t, dst, h) <==> h == NextTo(dst)
  {
    assert RouteOk(g, r, n, Route(t, g.bits, n));
    var k :| HasKey(t, g.bits, n, k);
    RouteOf(t, g.bits, k);
    assert HasInterface(t, k, dst);
    forall l: FwdKey | HasInterface(t, l, dst) ensures l == k { assert HasKey(t, g.bits, n, l); }
  }

  // A neighbour's address is reached over the one interface on its network.
  lemma LinkHop(g: Topology, hosts: map<nat, set<Addr>>, r: nat, t: Table, m: nat, h: Hop)
    requires ValidTopology(g) && r in g.routers && RouterOk(g, r, t) && Wired(g, hosts, r, t) && Adjacent(g, m, r)
    ensures SendsTo(t, g.addr[(m, r)], h) <==> h == NextTo(g.addr[(m, r)])
  {
    var via := g.addr[(m, r)];
    var n := Net(via, g.bits);
    assert Adjacent(g, r, m);
    assert RouteOk(g, r, n, Route(t, g.bits, n));
    var k :| HasKey(t, g.bits, n, k);
    RouteOf(t, g.bits, k);
    assert HasInterface(t, k, via);
    forall l: FwdKey | HasInterface(t, l, via) ensures l == k { assert HasKey(t, g.bits, n, l); }
  }

  // Off its own networks a router decides by the one route it holds.
  lemma RoutedHop(g: Topology, hosts: map<nat, set<Addr>>, r: nat, t: Table, n: nat, dst: Addr, h: Hop)
    requires ValidTopology(g) && r in g.routers && RouterOk(g, r, t) && Wired(g, hosts, r, t)
    requires IsHost(g, hosts, n, dst) && n !in g.attached[r] && Route(t, g.bits, n).Some?
    ensures Route(t, g.bits, n).value.nextHop.Some?
    ensures Decides(t, dst, h) <==> h == NextTo(Route(t, g.bits, n).value.nextHop.value)
  {
    var v := Route(t, g.bits, n).value;
    assert RouteOk(g, r, n, Some(v));
    var k :| HasKey(t, g.bits, n, k);
    RouteOf(t, g.bits, k);
    forall l: FwdKey ensures !HasInterface(t, l, dst) {
      if l in t && Contains(l.prefix, dst) { RouteOf(t, g.bits, l); }
    }
    assert Finds(t, dst, Some(k));
    forall x | Finds(t, dst, x) ensures x == Some(k) { LookupUnique(t, g.bits, dst, x, Some(k)); }
    var m :| Adjacent(g, m, r) && v.nextHop == Some(g.addr[(m, r)]) && Reach(g, m, n, v.cost - 1);
    LinkHop(g, hosts, r, t, m, h);
  }

  // Every router within k hops of a network holds its exact cost.
  ghost predicate Converged(g: Topology, hosts: map<nat, set<Addr>>, tables: map<nat, Table>, k: nat)
    requires ValidTopology(g)
  {
    && tables.Keys == g.routers && ExactWithin(g, tables, k)
    && (forall r | r in g.routers :: RouterOk(g, r, tables[r]) && Wired(g, hosts, r, tables[r]))
  }

  // Router r is d hops, near enough to have converged, from the network of host dst.
  ghost predicate OnTheWay(
    g: Topology, hosts: map<nat, set<Addr>>, tables: map<nat, Table>, k: nat, r: nat, n: nat, d: nat, dst: Addr)
    requires ValidTopology(g)
  {
    Converged(g, hosts, tables, k) && IsHost(g, hosts, n, dst) && AtDistance(g, r, n, d) && d <= Within(k)
  }

  /** One hop over converged tables: to the host itself, or to a router one hop closer. */
  lemma HopGoesCloser(
    g: Topology, hosts: map<nat, set<Addr>>, tables: map<nat, Table>, k: nat, r: nat, n: nat, d: nat, dst: Addr)
    returns (via: Addr, m: nat)
    requires ValidTopology(g) && OnTheWay(g, hosts, tables, k, r, n, d, dst)
    ensures r in tables && OnlyHop(tables[r], dst, via)
    ensures if d == 0 then via == dst
      else via != dst && Owns(g, m, r, via) && OnTheWay(g, hosts, tables, k, m, n, d - 1, dst)
  {
    var t := tables[r];
    if d == 0 {
      via, m := dst, r;
      forall h ensures Decides(t, dst, h) <==> h == NextTo(via) { DirectHop(g, hosts, r, t, n, dst, h); }
    } else {
      assert Exact(RouteAt(g, tables, r, n), d);
      var route := Route(t, g.bits, n);
      assert RouteOk(g, r, n, route);
      m :| Adjacent(g, m, r) && route.value.nextHop == Some(g.addr[(m, r)]) && Reach(g, m, n, d - 1);
      assert Adjacent(g, r, m);
      NeighbourDistance(g, r, m, n, d);
      via := g.addr[(m, r)];
      forall h ensures Decides(t, dst, h) <==> h == NextTo(via) { RoutedHop(g, hosts, r, t, n, dst, h); }
    }
  }

  // The routers a packet goes through, each leaving it no choice, and the addresses it is sent to.
  ghost predicate IsHopPath(g: Topology, tables: map<nat, Table>, dst: Addr, path: seq<nat>, vias: seq<Addr>) {
    && |path| == |vias| > 0 && vias[|vias| - 1] == dst
    && (forall i | 0 <= i < |path| :: path[i] in tables && OnlyHop(tables[path[i]], dst, vias[i]))
    && (forall i | 0 <= i < |path| - 1 :: vias[i] != dst && Owns(g, path[i + 1], path[i], vias[i]))
  }

  lemma OneHopPath(g: Topology, tables: map<nat, Table>, dst: Addr, r: nat)
    requires r in tables && OnlyHop(tables[r], dst, dst)
    ensures IsHopPath(g, tables, dst, [r], [dst])
  {
  }

  lemma LongerHopPath(
    g: Topology, tables: map<nat, Table>, dst: Addr, r: nat, via: Addr, path: seq<nat>, vias: seq<Addr>)
    requires r in tables && OnlyHop(tables[r], dst, via) && via != dst
    requires IsHopPath(g, tables, dst, path, vias) && Owns(g, path[0], r, via)
    ensures IsHopPath(g, tables, dst, [r] + path, [via] + vias)
  {
  }

  lemma {:induction false} HopPath(
    g: Topology, hosts: map<nat, set<Addr>>, tables: map<nat, Table>, k: nat, r: nat, n: nat, d: nat, dst: Addr)
    returns (path: seq<nat>, vias: seq<Addr>)
    requires ValidTopology(g) && OnTheWay(g, hosts, tables, k, r, n, d, dst)
    ensures IsHopPath(g, tables, dst, path, vias) && |path| == d + 1 && path[0] == r
    decreases d
  {
    var via, m := HopGoesCloser(g, hosts, tables, k, r, n, d, dst);
    if d == 0 {
      OneHopPath(g, tables, dst, r);
      path, vias := [r], [dst];
    } else {
      path, vias := HopPath(g, hosts, tables, k, m, n, d - 1, dst);
      LongerHopPath(g, tables, dst, r, via, path, vias);
      path, vias := [r] + path, [via] + vias;
    }
  }

  // A router that has only one hop for the packet forwards it exactly if the checksum is correct and TTL is left.
  lemma ForwardsIff(t: Table, p: Datagram, via: Addr, other: Addr)
    requires IsHeader(p.header) && OnlyHop(t, p.dst, via) && p.ttl > 1
    ensures MustForward(t, p, other) <==> other == via && Accepts(p.header, p.checksum)
  {
    var v := if Accepts(p.header, p.checksum) then Handled(Forwarded(via, p.ttl - 1)) else InvalidChecksum;
    forall x ensures Judges(t, {}, p, x) <==> x == v { OneVerdict(t, {}, p, NextTo(via), x); }
    assert Judges(t, {}, p, v);
  }

  lemma AcceptedIffHandled(host: Host, p: Datagram)
    requires IsHeader(p.header) && IsHome(host, p.dst)
    ensures Must(host.table, host.handlers, p, Handled(Accepted))
      <==> Accepts(p.header, p.checksum) && p.protocol in host.handlers
  {
    var v := if !Accepts(p.header, p.checksum) then InvalidChecksum
      else if p.protocol in host.handlers then Handled(Accepted) else UnknownProtocol;
    forall x ensures Judges(host.table, host.handlers, p, x) <==> x == v {
      VerdictAtDestination(host.table, host.handlers, p, x);
    }
    assert Judges(host.table, host.handlers, p, v);
  }

  lemma RestampedHeader(p: Datagram, ttl: Byte)
    requires IsHeader(p.header) && p.header[0] != 0
    ensures var q := Restamped(p, ttl);
      && IsHeader(q.header) && q.header[0] != 0
      && (Accepts(q.header, q.checksum) <==> StampPasses(p.header, ttl))
      && (forall u: Byte :: StampPasses(q.header, u) <==> StampPasses(p.header, u))
  {
    ForwardedHeaderPasses(p.header, ttl);
    forall u: Byte ensures Zeroed(Restamped(p, ttl).header, u) == Zeroed(p.header, u) {}
  }

  lemma PassesOneMore(p: Datagram, hops: nat)
    requires IsHeader(p.header) && p.header[0] != 0 && 1 <= p.ttl
    ensures ChecksumsPass(p, hops + 1)
      <==> Accepts(p.header, p.checksum) && ChecksumsPass(Restamped(p, p.ttl - 1), hops)
  {
    RestampedHeader(p, p.ttl - 1);
  }

  // Along a path of forced hops a packet arrives from its first router exactly if it does from the second.
  lemma ArrivesIffContinues(g: Topology, tables: map<nat, Table>, host: Host, r: nat, via: Addr, p: Datagram)
    requires r in tables && IsHeader(p.header) && OnlyHop(tables[r], p.dst, via)
    requires p.ttl > 1
    ensures Arrives(g, tables, host, r, p)
      <==> Accepts(p.header, p.checksum) && Continues(g, tables, host, r, via, Restamped(p, p.ttl - 1))
  {
    forall other ensures MustForward(tables[r], p, other) <==> other == via && Accepts(p.header, p.checksum) {
      ForwardsIff(tables[r], p, via, other);
    }
    var q := Restamped(p, p.ttl - 1);
    if Accepts(p.header, p.checksum) && Continues(g, tables, host, r, via, q) {
      assert MustForward(tables[r], p, via) && Continues(g, tables, host, r, via, q);
    }
  }

  lemma ContinuesAlong(
    g: Topology, tables: map<nat, Table>, host: Host, path: seq<nat>, vias: seq<Addr>, p: Datagram)
    requires ValidTopology(g) && IsHopPath(g, tables, p.dst, path, vias) && |path| > 1
    ensures Continues(g, tables, host, path[0], vias[0], p) <==> Arrives(g, tables, host, path[1], p)
  {
    assert Owns(g, path[1], path[0], vias[0]);
  }

  /** Along such a path a packet is accepted by the host if and only if it has TTL for every router, passes
      every checksum, the rewritten ones included, and its protocol has a handler. */
  lemma {:induction false} PathArrivesIff(
    g: Topology, tables: map<nat, Table>, host: Host, path: seq<nat>, vias: seq<Addr>, p: Datagram)
    requires ValidTopology(g) && IsHopPath(g, tables, p.dst, path, vias) && IsHome(host, p.dst)
    requires IsHeader(p.header) && p.header[0] != 0
    ensures Arrives(g, tables, host, path[0], p)
      <==> |path| < p.ttl && ChecksumsPass(p, |path|) && p.protocol in host.handlers
    decreases |path|
  {
    if p.ttl > 1 {
      ArrivesIffContinues(g, tables, host, path[0], vias[0], p);
      var q := Restamped(p, p.ttl - 1);
      RestampedHeader(p, p.ttl - 1);
      PassesOneMore(p, |path| - 1);
      if |path| == 1 {
        AcceptedIffHandled(host, q);
      } else {
        ContinuesAlong(g, tables, host, path, vias, q);
        PathArrivesIff(g, tables, host, path[1..], vias[1..], q);
      }
    }
  }

  /** A packet handled by a router at distance d is accepted by its host if and only if its TTL is at least
      d + 2, its checksum and the d + 1 that the routers put in its place pass, and the host has a handler
      for its protocol. */
  lemma ForwardingDelivers(
    g: Topology, hosts: map<nat, set<Addr>>, tables: map<nat, Table>, k: nat,
    r: nat, n: nat, d: nat, host: Host, p: Datagram)
    requires ValidTopology(g) && OnTheWay(g, hosts, tables, k, r, n, d, p.dst) && IsHome(host, p.dst)
    requires IsHeader(p.header) && p.header[0] != 0
    ensures Arrives(g, tables, host, r, p)
      <==> d + 2 <= p.ttl && ChecksumsPass(p, d + 1) && p.protocol in host.handlers
  {
    var path, vias := HopPath(g, hosts, tables, k, r, n, d, p.dst);
    PathArrivesIff(g, tables, host, path, vias, p);
  }

  // What router r sends of its own leaves as p with the full TTL and is accepted by the host.
  ghost predicate SendingDelivers(g: Topology, tables: map<nat, Table>, host: Host, r: nat, p: Datagram) {
    && r in tables && p.ttl == MAX_HOPS
    && forall o | Originates(tables[r], p.dst, o) ::
         o.Forwarded? && o.ttl == MAX_HOPS && Continues(g, tables, host, r, o.via, p)
  }

  lemma OnlySend(t: Table, dst: Addr, via: Addr)
    requires OnlyHop(t, dst, via)
    ensures forall o :: Originates(t, dst, o) <==> o == Forwarded(via, MAX_HOPS)
  {
    assert Decides(t, dst, NextTo(via)) && SendOutcome(NextTo(via)) == Forwarded(via, MAX_HOPS);
  }

  lemma HopPathSends(
    g: Topology, tables: map<nat, Table>, host: Host, path: seq<nat>, vias: seq<Addr>, p: Datagram)
    requires ValidTopology(g) && IsHopPath(g, tables, p.dst, path, vias) && |path| <= MAX_HOPS
    requires IsHome(host, p.dst) && IsHeader(p.header) && p.header[0] != 0 && p.ttl == MAX_HOPS
    ensures SendingDelivers(g, tables, host, path[0], p)
      <==> ChecksumsPass(p, |path| - 1) && p.protocol in host.handlers
  {
    OnlySend(tables[path[0]], p.dst, vias[0]);
    assert Originates(tables[path[0]], p.dst, Forwarded(vias[0], MAX_HOPS));
    if |path| > 1 {
      ContinuesAlong(g, tables, host, path, vias, p);
      PathArrivesIff(g, tables, host, path[1..], vias[1..], p);
    } else {
      AcceptedIffHandled(host, p);
    }
  }

  // ---------- Tables that RIP has filled ----------

  // RIP never touches the local routes, so the wiring stays as it was.
  lemma WiredStays(g: Topology, hosts: map<nat, set<Addr>>, r: nat, t: Table, t': Table)
    requires ValidTopology(g) && Wired(g, hosts, r, t) && OnlyLearns(t, t')
    ensures Wired(g, hosts, r, t')
  {
  }

  ghost predicate AllWired(g: Topology, hosts: map<nat, set<Addr>>, tables: map<nat, Table>)
    requires ValidTopology(g)
  {
    tables.Keys == g.routers && forall q | q in g.routers :: Wired(g, hosts, q, tables[q])
  }

  lemma DeliveryStaysWired(g: Topology, hosts: map<nat, set<Addr>>, s: Phase, s': Phase)
    requires ValidTopology(g) && AllWired(g, hosts, s.tables) && PhaseDeliver(g, s, s')
    ensures AllWired(g, hosts, s'.tables)
  {
    var msg: Message, now: int, t': Table :| Delivered(g, s, s', msg, now, t');
    var t, src := s.tables[msg.to], g.addr[(msg.from, msg.to)];
    if |msg.entries| <= MAX_NUM_ENTRIES { ResponseOnlyLearns(t, src, msg.entries, now, t'); }
    WiredStays(g, hosts, msg.to, t, t');
  }

  lemma {:induction false} RunStaysWired(g: Topology, hosts: map<nat, set<Addr>>, run: seq<Phase>, i: nat)
    requires ValidTopology(g) && IsPhaseRun(g, run) && i < |run| && AllWired(g, hosts, run[0].tables)
    ensures AllWired(g, hosts, run[i].tables)
  {
    if i > 0 {
      RunStaysWired(g, hosts, run, i - 1);
      assert PhaseStep(g, run[i - 1], run[i]);
      if PhaseDeliver(g, run[i - 1], run[i]) { DeliveryStaysWired(g, hosts, run[i - 1], run[i]); }
    }
  }

  lemma RunOnTheWay(
    g: Topology, hosts: map<nat, set<Addr>>, run: seq<Phase>, i: nat, r: nat, n: nat, d: nat, dst: Addr)
    requires ValidTopology(g) && IsPhaseRun(g, run) && i < |run| && AllWired(g, hosts, run[0].tables)
    requires IsHost(g, hosts, n, dst) && AtDistance(g, r, n, d) && d <= Within(run[i].completed)
    ensures OnTheWay(g, hosts, run[i].tables, run[i].completed, r, n, d, dst)
  {
    PhaseRunOk(g, run, i);
    RunStaysWired(g, hosts, run, i);
  }

  /** After k phases of RIP from tables wired as configured, a packet that a router sends is accepted by any
      host within min(k, 15) hops, and one that it handles with a full TTL by exactly those within 14 of
      them, if and only if its checksums pass on the way and the host has a handler for its protocol. */
  lemma RipDelivers(g: Topology, hosts: map<nat, set<Addr>>, run: seq<Phase>, i: nat, r: nat, n: nat, d: nat,
    host: Host, p: Datagram)
    requires ValidTopology(g) && IsPhaseRun(g, run) && i < |run| && AllWired(g, hosts, run[0].tables)
    requires IsHost(g, hosts, n, p.dst) && AtDistance(g, r, n, d) && d <= Within(run[i].completed)
    requires IsHome(host, p.dst) && IsHeader(p.header) && p.header[0] != 0 && p.ttl == MAX_HOPS
    ensures SendingDelivers(g, run[i].tables, host, r, p) <==> ChecksumsPass(p, d) && p.protocol in host.handlers
    ensures Arrives(g, run[i].tables, host, r, p)
      <==> d <= 14 && ChecksumsPass(p, d + 1) && p.protocol in host.handlers
  {
    RunOnTheWay(g, hosts, run, i, r, n, d, p.dst);
    var tables, k := run[i].tables, run[i].completed;
    var path, vias := HopPath(g, hosts, tables, k, r, n, d, p.dst);
    HopPathSends(g, tables, host, path, vias, p);
    ForwardingDelivers(g, hosts, tables, k, r, n, d, host, p);
  }

  // ---------- Hosts ----------

  /** The table of a host: one interface, which is up, and a static default route to `gateway`, a
      neighbour on the interface's network. */
  ghost predicate HostTable(t: Table, bits: nat, own: FwdKey, rest: FwdKey, gateway: Addr) {
    && own != rest && t.Keys == {own, rest} && own.prefix.bits == bits && rest.prefix.bits == 0
    && Contains(own.prefix, own.ip) && Contains(own.prefix, gateway)
    && t[own].routeType == LocalRoute && t[own].iface.Some? && t[own].iface.value.up
    && gateway in t[own].iface.value.neighbors
    && t[rest].routeType == StaticRoute && t[rest].nextHop == Some(gateway)
  }

  lemma DefaultContains(p: Prefix, a: Addr)
    requires p.bits == 0
    ensures Contains(p, a)
  {
    Pow2Of32();
    ShiftedOut(a, 32);
    ShiftedOut(p.addr, 32);
  }

  // Off its own network a host decides for its default router, whatever order the map is visited in.
  lemma HostDecides(t: Table, bits: nat, own: FwdKey, rest: FwdKey, gateway: Addr, dst: Addr, h: Hop)
    requires HostTable(t, bits, own, rest, gateway) && !Contains(own.prefix, dst)
    ensures Decides(t, dst, h) <==> h == NextTo(gateway)
  {
    DefaultContains(rest.prefix, dst);
    assert forall k: FwdKey :: !HasLocalIP(t, k, dst) && !HasInterface(t, k, dst);
    forall found ensures Finds(t, dst, found) <==> found == Some(rest) {}
    assert HasInterface(t, own, gateway);
    assert forall k: FwdKey :: HasInterface(t, k, gateway) ==> k == own;
    assert DecidesBy(t, dst, Some(rest), h) <==> h == NextTo(gateway);
  }

  lemma HostOriginates(t: Table, bits: nat, own: FwdKey, rest: FwdKey, gateway: Addr, dst: Addr)
    requires HostTable(t, bits, own, rest, gateway) && !Contains(own.prefix, dst)
    ensures forall o :: Originates(t, dst, o) <==> o == Forwarded(gateway, MAX_HOPS)
  {
    forall h ensures Decides(t, dst, h) <==> h == NextTo(gateway) { HostDecides(t, bits, own, rest, gateway, dst, h); }
    OnlySend(t, dst, gateway);
  }

  // A host with this table is at home at its own address.
  lemma HostIsHome(host: Host, bits: nat, own: FwdKey, rest: FwdKey, gateway: Addr)
    requires HostTable(host.table, bits, own, rest, gateway)
    ensures IsHome(host, own.ip)
  {
    assert HasLocalIP(host.table, own, own.ip);
  }

  /** A packet that a host sends to a host of another network leaves with the full TTL for its default
      router. The host it is for accepts it if and only if it is within 14 hops of that router, the
      checksums pass on the way, and there is a handler. */
  lemma HostDelivers(g: Topology, hosts: map<nat, set<Addr>>, run: seq<Phase>, i: nat, r: nat, n: nat, d: nat,
    from: Host, own: FwdKey, rest: FwdKey, gateway: Addr,
    to: Host, toOwn: FwdKey, toRest: FwdKey, toGateway: Addr, p: Datagram)
    requires ValidTopology(g) && IsPhaseRun(g, run) && i < |run| && AllWired(g, hosts, run[0].tables)
    requires IsHost(g, hosts, n, p.dst) && AtDistance(g, r, n, d) && d <= Within(run[i].completed)
    requires HostTable(from.table, g.bits, own, rest, gateway) && !Contains(own.prefix, p.dst)
    requires HostTable(to.table, g.bits, toOwn, toRest, toGateway) && toOwn.ip == p.dst
    requires exists k: FwdKey :: HasLocalIP(run[0].tables[r], k, gateway)
    requires IsHeader(p.header) && p.header[0] != 0 && p.ttl == MAX_HOPS
    ensures forall o :: Originates(from.table, p.dst, o) <==> o == Forwarded(gateway, MAX_HOPS)
    ensures Arrives(g, run[i].tables, to, r, p) <==> d <= 14 && ChecksumsPass(p, d + 1) && p.protocol in to.handlers
  {
    HostIsHome(to, g.bits, toOwn, toRest, toGateway);
    RipDelivers(g, hosts, run, i, r, n, d, to, p);
    HostOriginates(from.table, g.bits, own, rest, gateway, p.dst);
  }

  /** What a node sends to itself comes back to its own handler, unless the stamp is 0. */
  lemma LoopbackDelivers(node: Host, p: Datagram)
    requires IsHome(node, p.dst) && IsHeader(p.header) && p.header[0] != 0
    ensures forall o :: Originates(node.table, p.dst, o) <==> o == LoopedBack
    ensures Must(node.table, node.handlers, Restamped(p, MAX_HOPS), Handled(Accepted))
      <==> StampPasses(p.header, MAX_HOPS) && p.protocol in node.handlers
  {
    OneOutcome(node.table, p.dst, p.ttl, AtDestination);
    RestampedHeader(p, MAX_HOPS);
    AcceptedIffHandled(node, Restamped(p, MAX_HOPS));
  }

  // ---------- The TTL bound ----------

  ghost predicate CanForward(t: Table, dst: Addr, ttl: int, ttl': int) {
    exists via :: Handles(t, dst, ttl, Forwarded(via, ttl'))
  }

  // A packet forwarded along a list of tables, whatever they hold: `ttls` are its TTLs on the way.
  ghost predicate IsRoute(tables: seq<Table>, dst: Addr, ttls: seq<int>) {
    |ttls| == |tables| + 1 && forall i | 0 <= i < |tables| :: CanForward(tables[i], dst, ttls[i], ttls[i + 1])
  }

  lemma ForwardingCosts(t: Table, dst: Addr, ttl: int, ttl': int)
    requires CanForward(t, dst, ttl, ttl')
    ensures 0 < ttl' == ttl - 1
  {
  }

  /** Over any tables, looping ones included, a packet sent with the initial TTL is forwarded at most 15 times. */
  lemma {:induction false} ForwardedAtMost15Times(tables: seq<Table>, dst: Addr, ttls: seq<int>)
    requires IsRoute(tables, dst, ttls) && ttls[0] == MAX_HOPS
    ensures |tables| <= 15 && ttls[|tables|] == MAX_HOPS - |tables|
    decreases |tables|
  {
    if tables != [] {
      var i := |tables| - 1;
      ForwardedAtMost15Times(tables[..i], dst, ttls[..i + 1]);
      ForwardingCosts(tables[i], dst, ttls[i], ttls[i + 1]);
    }
  }
}
