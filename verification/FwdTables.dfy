/** Addresses, prefixes and the forwarding table of pkg/network/network.go. The table is a Go
    map, so every lookup may visit its entries in any order; lookups are modelled by the
    answers they can give. */
module FwdTables {
  import opened Words
  import opened Wrappers

  type Addr = U32

  // A netip.Prefix of an IPv4 address.
  datatype Prefix = Prefix(addr: Addr, bits: nat)

  function ShiftRight(x: nat, n: nat): nat {
    if n == 0 then x else ShiftRight(x / 2, n - 1)
  }

  function ShiftLeft(x: nat, n: nat): nat {
    if n == 0 then x else 2 * ShiftLeft(x, n - 1)
  }

  function Pow2(n: nat): nat { ShiftLeft(1, n) }

  // The network number: the first `bits` bits of an address.
  function Net(a: Addr, bits: nat): nat {
    if bits > 32 then 0 else ShiftRight(a, 32 - bits)
  }

  predicate Contains(p: Prefix, a: Addr) { Net(a, p.bits) == Net(p.addr, p.bits) }

  lemma {:induction false} ShiftBack(x: nat, n: nat)
    ensures ShiftLeft(ShiftRight(x, n), n) <= x
    decreases n
  {
    if n > 0 { ShiftBack(x / 2, n - 1); }
  }

  lemma {:induction false} ShiftForth(x: nat, n: nat)
    ensures ShiftRight(ShiftLeft(x, n), n) == x
    decreases n
  {
    if n > 0 { ShiftForth(x, n - 1); }
  }

  function Masked(p: Prefix): Prefix {
    if p.bits > 32 then p
    else
      ShiftBack(p.addr, 32 - p.bits);
      Prefix(ShiftLeft(Net(p.addr, p.bits), 32 - p.bits), p.bits)
  }

  lemma MaskedNet(p: Prefix)
    ensures Masked(p).bits == p.bits && Net(Masked(p).addr, p.bits) == Net(p.addr, p.bits)
  {
    if p.bits <= 32 { ShiftForth(Net(p.addr, p.bits), 32 - p.bits); }
  }

  lemma {:induction false} Pow2Grows(m: nat, n: nat)
    requires m < n
    ensures 0 < Pow2(m) < Pow2(n)
    decreases n
  {
    if m < n - 1 { Pow2Grows(m, n - 1); }
    else if m > 0 { Pow2Grows(m - 1, m); }
  }

  lemma Pow2Of32()
    ensures Pow2(32) == TWO_32
  {
    assert Pow2(8) == 256;
    assert Pow2(16) == 65536;
    assert Pow2(24) == 16777216;
  }

  // net.CIDRMask(bits, 32) as a number.
  function CidrMask(bits: nat): (m: U32)
    requires bits <= 32
  {
    Pow2Of32();
    if bits > 0 then Pow2Grows(32 - bits, 32); TWO_32 - Pow2(32 - bits) else 0
  }

  /** net.IPMask.Size: the number of leading ones, or 0 for a mask that is not ones then zeros. */
  ghost function MaskSize(mask: U32): (bits: nat)
    ensures bits <= 32
  {
    if exists b: nat | b <= 32 :: mask == CidrMask(b) then
      var b: nat :| b <= 32 && mask == CidrMask(b);
      b
    else 0
  }

  lemma MaskRoundTrip(bits: nat)
    requires bits <= 32
    ensures MaskSize(CidrMask(bits)) == bits
  {
    Pow2Of32();
    var b := MaskSize(CidrMask(bits));
    assert CidrMask(b) == CidrMask(bits);
    if b < bits { Pow2Grows(32 - bits, 32 - b); }
    if bits < b { Pow2Grows(32 - b, 32 - bits); }
  }

  // Bit i of a number, counted from the lowest.
  predicate Bit(x: nat, i: nat) { ShiftRight(x, i) % 2 == 1 }

  // The bits of 2^n - 2^k: ones from k up to n, and no others.
  lemma {:induction false} BlockOfOnes(n: nat, k: nat, i: nat)
    requires k <= n
    ensures Pow2(k) <= Pow2(n) && (Bit(Pow2(n) - Pow2(k), i) <==> k <= i < n)
    decreases i, n
  {
    if k < n { Pow2Grows(k, n); }
    var x := Pow2(n) - Pow2(k);
    if i == 0 {
      if 0 < k { assert x == 2 * (Pow2(n - 1) - Pow2(k - 1)); }
      else if 0 < n { assert x == 2 * (Pow2(n - 1) - 1) + 1; }
    } else {
      if 0 < k {
        assert x / 2 == Pow2(n - 1) - Pow2(k - 1);
        BlockOfOnes(n - 1, k - 1, i - 1);
      } else if 0 < n {
        assert x / 2 == Pow2(n - 1) - Pow2(0);
        BlockOfOnes(n - 1, 0, i - 1);
      } else {
        assert x == 0;
        BlockOfOnes(0, 0, i - 1);
      }
    }
  }

  /** The mask of a prefix length has exactly that many leading ones. */
  lemma MaskBits(bits: nat, i: nat)
    requires bits <= 32 && i < 32
    ensures Bit(CidrMask(bits), i) <==> 32 - bits <= i
  {
    Pow2Of32();
    BlockOfOnes(32, 32 - bits, i);
  }

  lemma {:induction false} ShiftTwice(x: nat, m: nat, n: nat)
    ensures ShiftRight(ShiftRight(x, m), n) == ShiftRight(x, m + n)
    decreases m
  {
    if m > 0 { ShiftTwice(x / 2, m - 1, n); }
  }

  // The two numbers have the same bits from n up to w.
  predicate SameBits(x: nat, y: nat, n: nat, w: nat) { forall i: nat | n <= i < w :: Bit(x, i) == Bit(y, i) }

  lemma SplitBits(x: nat, y: nat, n: nat, w: nat)
    requires n < w
    ensures SameBits(x, y, n, w) <==> Bit(x, n) == Bit(y, n) && SameBits(x, y, n + 1, w)
  {
    if Bit(x, n) == Bit(y, n) && SameBits(x, y, n + 1, w) {
      forall i: nat | n <= i < w ensures Bit(x, i) == Bit(y, i) {}
    }
  }

  lemma {:induction false} SameTopBits(x: nat, y: nat, n: nat, w: nat)
    requires n <= w && x < Pow2(w) && y < Pow2(w)
    ensures ShiftRight(x, n) == ShiftRight(y, n) <==> SameBits(x, y, n, w)
    decreases w - n
  {
    if n == w {
      ShiftedOut(x, n);
      ShiftedOut(y, n);
    } else {
      SameTopBits(x, y, n + 1, w);
      SplitBits(x, y, n, w);
      ShiftTwice(x, n, 1);
      ShiftTwice(y, n, 1);
      var p, q := ShiftRight(x, n), ShiftRight(y, n);
      assert ShiftRight(p, 1) == p / 2 && ShiftRight(q, 1) == q / 2;
      assert p == q <==> p / 2 == q / 2 && p % 2 == q % 2;
    }
  }

  lemma {:induction false} ShiftedOut(x: nat, n: nat)
    requires x < Pow2(n)
    ensures ShiftRight(x, n) == 0
    decreases n
  {
    if n > 0 { ShiftedOut(x / 2, n - 1); }
  }

  /** A prefix contains an address if and only if the two agree on every bit that is set in its mask; its
      masked address is the least one it contains. */
  lemma ContainsIffMaskedBitsAgree(p: Prefix, a: Addr)
    requires p.bits <= 32
    ensures Contains(p, a) <==> forall i: nat | i < 32 && Bit(CidrMask(p.bits), i) :: Bit(a, i) == Bit(p.addr, i)
    ensures Contains(p, Masked(p).addr) && (Contains(p, a) ==> Masked(p).addr <= a)
  {
    Pow2Of32();
    SameTopBits(a, p.addr, 32 - p.bits, 32);
    forall i: nat | i < 32 ensures Bit(CidrMask(p.bits), i) <==> 32 - p.bits <= i { MaskBits(p.bits, i); }
    MaskedNet(p);
    ShiftBack(a, 32 - p.bits);
  }

  // ---------- The table ----------

  datatype RouteType = LocalRoute | StaticRoute | RIPRoute

  datatype Interface = Interface(name: string, assignedIP: Addr, prefix: Prefix, neighbors: set<Addr>, up: bool)

  datatype FwdKey = FwdKey(ip: Addr, prefix: Prefix)

  datatype FwdValue = FwdValue(
    cost: U32, lastUpdated: int, iface: Option<Interface>, nextHop: Option<Addr>, routeType: RouteType)

  type Table = map<FwdKey, FwdValue>

  /** One common mask length and pairwise disjoint prefixes. */
  ghost predicate WellFormed(t: Table, bits: nat) {
    && (forall k | k in t :: k.prefix.bits == bits)
    && (forall k, l | k in t && l in t && Net(k.prefix.addr, bits) == Net(l.prefix.addr, bits) :: k == l)
  }

  // The key, if any, whose prefix has network number n; unique in a well-formed table.
  ghost predicate HasKey(t: Table, bits: nat, n: nat, k: FwdKey) {
    k in t && Net(k.prefix.addr, bits) == n
  }

  /** The route a well-formed table holds for a network. */
  ghost function Route(t: Table, bits: nat, n: nat): Option<FwdValue> {
    if exists k: FwdKey :: HasKey(t, bits, n, k) then
      var k :| HasKey(t, bits, n, k);
      Some(t[k])
    else None
  }

  lemma RouteOf(t: Table, bits: nat, k: FwdKey)
    requires WellFormed(t, bits) && k in t
    ensures Route(t, bits, Net(k.prefix.addr, bits)) == Some(t[k])
  {
    assert HasKey(t, bits, Net(k.prefix.addr, bits), k);
  }

  /** What GetEntryByPrefix can answer: some entry whose prefix contains the address. */
  ghost predicate Finds(t: Table, a: Addr, found: Option<FwdKey>) {
    match found
    case Some(k) => k in t && Contains(k.prefix, a)
    case None => forall k | k in t :: !Contains(k.prefix, a)
  }

  /** In a well-formed table every order of visiting the map gives the same answer. */
  lemma LookupUnique(t: Table, bits: nat, a: Addr, x: Option<FwdKey>, y: Option<FwdKey>)
    requires WellFormed(t, bits) && Finds(t, a, x) && Finds(t, a, y)
    ensures x == y
    ensures Route(t, bits, Net(a, bits)) == (match x case Some(k) => Some(t[k]) case None => None)
  {
    if x.Some? {
      RouteOf(t, bits, x.value);
    } else {
      forall k | HasKey(t, bits, Net(a, bits), k) ensures false { assert Contains(k.prefix, a); }
    }
  }

  method GetEntryByPrefix(t: Table, a: Addr) returns (found: Option<FwdKey>)
    ensures Finds(t, a, found)
  {
    var todo := t.Keys;
    while todo != {}
      invariant todo <= t.Keys && forall k | k in t && k !in todo :: !Contains(k.prefix, a)
      decreases todo
    {
      var k :| k in todo;
      if Contains(k.prefix, a) { return Some(k); }
      todo := todo - {k};
    }
    found := None;
  }
}
