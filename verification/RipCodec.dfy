/** RIP packets as bytes (pkg/rip/rip.go): Marshal and UnmarshalRIPPacket with their loops,
    proved against a specification of the layout, and the round trips in both directions. */
module RipCodec {
  import opened Words
  import opened RipRouter

  const REQUEST_COMMAND := 1
  const RESPONSE_COMMAND := 2
  const RIP_ENTRY_SIZE := 12
  const RIP_PACKET_HEADER_SIZE := 4

  datatype RIPPacket = RIPPacket(command: U16, numEntries: U16, entries: seq<RIPEntry>)

  datatype Result<+T> = Ok(value: T) | Err(error: string)

  type Bytes = seq<Byte>

  // ---------- Big-endian numbers ----------

  function Put16(x: U16): (b: Bytes)
    ensures |b| == 2
  {
    [x / 256, x % 256]
  }

  function Put32(x: U32): (b: Bytes)
    ensures |b| == 4
  {
    Put16(x / TWO_16) + Put16(x % TWO_16)
  }

  function Get16(b: Bytes): U16
    requires |b| == 2
  {
    b[0] as int * 256 + b[1] as int
  }

  function Get32(b: Bytes): U32
    requires |b| == 4
  {
    Get16(b[..2]) * TWO_16 + Get16(b[2..])
  }

  lemma PutGet16(x: U16, b: Bytes)
    requires |b| == 2
    ensures Get16(Put16(x)) == x && Put16(Get16(b)) == b
  {
  }

  lemma Get32OfPut(x: U32)
    ensures Get32(Put32(x)) == x
  {
    assert Put32(x)[..2] == Put16(x / TWO_16) && Put32(x)[2..] == Put16(x % TWO_16);
  }

  lemma JoinHalves(high: U16, low: U16)
    ensures (TWO_16 * high + low) / TWO_16 == high && (TWO_16 * high + low) % TWO_16 == low
  {
  }

  lemma Put32OfGet(b: Bytes)
    requires |b| == 4
    ensures Put32(Get32(b)) == b
  {
    PutGet16(0, b[..2]);
    PutGet16(0, b[2..]);
    JoinHalves(Get16(b[..2]), Get16(b[2..]));
    assert b == b[..2] + b[2..];
  }

  // ---------- Layout ----------

  // The address and mask fields are four bytes; a number stands for its big-endian bytes.
  function PutEntry(e: RIPEntry): (b: Bytes)
    ensures |b| == RIP_ENTRY_SIZE
  {
    Put32(e.cost) + Put32(e.address) + Put32(e.mask)
  }

  function GetEntry(b: Bytes): RIPEntry
    requires |b| == RIP_ENTRY_SIZE
  {
    RIPEntry(Get32(b[..4]), Get32(b[4..8]), Get32(b[8..]))
  }

  function PutEntries(entries: seq<RIPEntry>): (b: Bytes)
    ensures |b| == RIP_ENTRY_SIZE * |entries|
    decreases |entries|
  {
    if entries == [] then [] else PutEntries(entries[..|entries| - 1]) + PutEntry(entries[|entries| - 1])
  }

  function PutPacket(p: RIPPacket): Bytes {
    Put16(p.command) + Put16(p.numEntries) + PutEntries(p.entries)
  }

  function EntryAt(b: Bytes, i: nat): RIPEntry
    requires RIP_PACKET_HEADER_SIZE + RIP_ENTRY_SIZE * (i + 1) <= |b|
  {
    var at := RIP_PACKET_HEADER_SIZE + RIP_ENTRY_SIZE * i;
    GetEntry(b[at..at + RIP_ENTRY_SIZE])
  }

  /** The byte strings UnmarshalRIPPacket accepts. */
  predicate WellFormedBytes(b: Bytes) {
    && |b| >= RIP_PACKET_HEADER_SIZE
    && (|b| - RIP_PACKET_HEADER_SIZE) % RIP_ENTRY_SIZE == 0
    && var command, n := Get16(b[..2]), Get16(b[2..4]);
    && (command == REQUEST_COMMAND || command == RESPONSE_COMMAND)
    && !(command == REQUEST_COMMAND && n != 0) && n <= MAX_NUM_ENTRIES
    && (|b| - RIP_PACKET_HEADER_SIZE) / RIP_ENTRY_SIZE == n
  }

  /** What an accepted byte string is decoded to; NumEntries is left at 0. */
  function Decoded(b: Bytes): RIPPacket
    requires WellFormedBytes(b)
  {
    RIPPacket(Get16(b[..2]), 0, seq(Get16(b[2..4]), i requires 0 <= i < Get16(b[2..4]) => EntryAt(b, i)))
  }

  // ---------- The two procedures ----------

  method Marshal(p: RIPPacket) returns (b: Bytes)
    ensures b == PutPacket(p)
  {
    b := Put16(p.command);
    b := b + Put16(p.numEntries);
    ghost var header := b;
    assert header + PutEntries(p.entries[..0]) == header;
    for i := 0 to |p.entries|
      invariant b == header + PutEntries(p.entries[..i])
    {
      var e := p.entries[i];
      assert p.entries[..i + 1][..i] == p.entries[..i];
      b := b + Put32(e.cost);
      b := b + Put32(e.address);
      b := b + Put32(e.mask);
    }
    assert p.entries[..|p.entries|] == p.entries;
  }

  method Unmarshal(b: Bytes) returns (r: Result<RIPPacket>)
    ensures r.Ok? <==> WellFormedBytes(b)
    ensures r.Ok? ==> r.value == Decoded(b)
  {
    if |b| < RIP_PACKET_HEADER_SIZE { return Err("packet size less than header size was"); }
    if (|b| - RIP_PACKET_HEADER_SIZE) % RIP_ENTRY_SIZE != 0 { return Err("packet size not a valid size"); }
    var command := Get16(b[..2]);
    if command != REQUEST_COMMAND && command != RESPONSE_COMMAND {
      return Err("packet is not a request or response command");
    }
    var numEntries := Get16(b[2..4]);
    if (command == REQUEST_COMMAND && numEntries != 0) || numEntries > MAX_NUM_ENTRIES {
      return Err("invalid packet size");
    }
    if (|b| - RIP_PACKET_HEADER_SIZE) / RIP_ENTRY_SIZE != numEntries {
      return Err("packet num entries does not match packet size");
    }
    var entries: seq<RIPEntry> := [];
    for i := 0 to numEntries
      invariant |entries| == i && forall j | 0 <= j < i :: entries[j] == EntryAt(b, j)
    {
      var at := RIP_PACKET_HEADER_SIZE + i * RIP_ENTRY_SIZE;
      var e := GetEntry(b[at..at + RIP_ENTRY_SIZE]);
      assert e == EntryAt(b, i);
      entries := entries + [e];
    }
    r := Ok(RIPPacket(command, 0, entries));
  }

  // ---------- Round trips ----------

  lemma EntryRoundTrip(e: RIPEntry, b: Bytes)
    requires |b| == RIP_ENTRY_SIZE
    ensures GetEntry(PutEntry(e)) == e && PutEntry(GetEntry(b)) == b
  {
    var p := PutEntry(e);
    assert p[..4] == Put32(e.cost) && p[4..8] == Put32(e.address) && p[8..] == Put32(e.mask);
    Get32OfPut(e.cost);
    Get32OfPut(e.address);
    Get32OfPut(e.mask);
    Put32OfGet(b[..4]);
    Put32OfGet(b[4..8]);
    Put32OfGet(b[8..]);
    assert b == b[..4] + b[4..8] + b[8..];
  }

  lemma {:induction false} EntriesAt(entries: seq<RIPEntry>, i: nat)
    requires i < |entries|
    ensures PutEntries(entries)[RIP_ENTRY_SIZE * i..RIP_ENTRY_SIZE * (i + 1)] == PutEntry(entries[i])
    decreases |entries|
  {
    var m := |entries| - 1;
    var init := entries[..m];
    if i < m {
      EntriesAt(init, i);
      assert PutEntries(entries)[RIP_ENTRY_SIZE * i..RIP_ENTRY_SIZE * (i + 1)]
          == PutEntries(init)[RIP_ENTRY_SIZE * i..RIP_ENTRY_SIZE * (i + 1)];
    }
  }

  // A packet the format allows: its entry count is right and within the limit.
  predicate ValidPacket(p: RIPPacket) {
    && (p.command == REQUEST_COMMAND || p.command == RESPONSE_COMMAND)
    && p.numEntries == |p.entries| <= MAX_NUM_ENTRIES && (p.command == REQUEST_COMMAND ==> p.entries == [])
  }

  lemma PacketFields(p: RIPPacket)
    ensures var b := PutPacket(p);
      && |b| == RIP_PACKET_HEADER_SIZE + RIP_ENTRY_SIZE * |p.entries|
      && Get16(b[..2]) == p.command && Get16(b[2..4]) == p.numEntries
      && forall i | 0 <= i < |p.entries| :: EntryAt(b, i) == p.entries[i]
  {
    var b := PutPacket(p);
    assert b[..2] == Put16(p.command) && b[2..4] == Put16(p.numEntries);
    PutGet16(p.command, [0, 0]);
    PutGet16(p.numEntries, [0, 0]);
    forall i | 0 <= i < |p.entries| ensures EntryAt(b, i) == p.entries[i] {
      EntriesAt(p.entries, i);
      var at := RIP_PACKET_HEADER_SIZE + RIP_ENTRY_SIZE * i;
      assert b[at..at + RIP_ENTRY_SIZE] == PutEntries(p.entries)[RIP_ENTRY_SIZE * i..RIP_ENTRY_SIZE * (i + 1)];
      EntryRoundTrip(p.entries[i], PutEntry(p.entries[i]));
    }
  }

  /** The number that bytes stand for in network order. */
  function Number(b: Bytes): nat
    decreases |b|
  {
    if b == [] then 0 else 256 * Number(b[..|b| - 1]) + b[|b| - 1]
  }

  lemma NumberOfTwo(b: Bytes)
    requires |b| == 2
    ensures Get16(b) == Number(b)
  {
    assert b[..1] == [b[0]] && [b[0]][..0] == [];
    assert Number([b[0]]) == 256 * Number([]) + b[0];
  }

  lemma NumberOfFour(b: Bytes)
    requires |b| == 4
    ensures Get32(b) == Number(b)
  {
    NumberOfTwo(b[..2]);
    NumberOfTwo(b[2..]);
    assert b[..3][..2] == b[..2];
    assert Number(b) == 256 * Number(b[..3]) + b[3];
    assert Number(b[..3]) == 256 * Number(b[..2]) + b[2];
  }

  // The entry's fields stand at position i of the packet, in network order.
  predicate IsEntryAt(b: Bytes, i: nat, e: RIPEntry) {
    var at := 4 + 12 * i;
    && at + 12 <= |b| && Number(b[at..at + 4]) == e.cost && Number(b[at + 4..at + 8]) == e.address
    && Number(b[at + 8..at + 12]) == e.mask
  }

  lemma PieceOf(b: Bytes, at: nat, i: nat, j: nat)
    requires at + 12 <= |b| && i <= j <= 12
    ensures b[at..at + 12][i..j] == b[at + i..at + j]
  {
    var left, right := b[at..at + 12][i..j], b[at + i..at + j];
    assert |left| == |right| == j - i;
    forall k | 0 <= k < |left| ensures left[k] == right[k] {
      assert b[at..at + 12][i + k] == b[at + i + k];
    }
  }

  lemma EntryNumbers(b: Bytes, i: nat)
    requires 4 + 12 * (i + 1) <= |b|
    ensures IsEntryAt(b, i, EntryAt(b, i))
  {
    var at := 4 + 12 * i;
    var piece := b[at..at + 12];
    assert EntryAt(b, i) == GetEntry(piece);
    PieceOf(b, at, 0, 4);
    PieceOf(b, at, 4, 8);
    PieceOf(b, at, 8, 12);
    assert piece[..4] == piece[0..4] && piece[8..] == piece[8..12];
    NumberOfFour(piece[..4]);
    NumberOfFour(piece[4..8]);
    NumberOfFour(piece[8..]);
    assert Get32(piece[..4]) == Number(b[at..at + 4]);
    assert Get32(piece[4..8]) == Number(b[at + 4..at + 8]);
    assert Get32(piece[8..]) == Number(b[at + 8..at + 12]);
  }

  /** The wire format: command and count, then cost, address and mask of each entry. */
  lemma WireFormat(p: RIPPacket)
    ensures var b := PutPacket(p);
      && |b| == 4 + 12 * |p.entries| && Number(b[..2]) == p.command && Number(b[2..4]) == p.numEntries
      && forall i | 0 <= i < |p.entries| :: IsEntryAt(b, i, p.entries[i])
  {
    PacketFields(p);
    var b := PutPacket(p);
    forall i | 0 <= i < |p.entries| ensures IsEntryAt(b, i, p.entries[i]) { EntryNumbers(b, i); }
    NumberOfTwo(b[..2]);
    NumberOfTwo(b[2..4]);
  }

  /** What is accepted: a request with no entries, or a response of at most 64, of just the length that its
      count asks for; and it is decoded by that format. */
  lemma AcceptedFormat(b: Bytes)
    ensures WellFormedBytes(b) <==>
      |b| >= 4 && |b| == 4 + 12 * Number(b[2..4]) && Number(b[2..4]) <= 64
      && (Number(b[..2]) == 2 || (Number(b[..2]) == 1 && Number(b[2..4]) == 0))
    ensures WellFormedBytes(b) ==>
      && Decoded(b).command == Number(b[..2]) && |Decoded(b).entries| == Number(b[2..4])
      && forall i | 0 <= i < |Decoded(b).entries| :: IsEntryAt(b, i, Decoded(b).entries[i])
  {
    if |b| >= 4 {
      NumberOfTwo(b[..2]);
      NumberOfTwo(b[2..4]);
    }
    if WellFormedBytes(b) {
      forall i | 0 <= i < |Decoded(b).entries| ensures IsEntryAt(b, i, Decoded(b).entries[i]) { EntryNumbers(b, i); }
    }
  }

  /** Marshalled packets are accepted exactly when they are valid, and come back with the same
      command and entries. */
  lemma MarshalUnmarshal(p: RIPPacket)
    ensures WellFormedBytes(PutPacket(p)) <==> ValidPacket(p)
    ensures ValidPacket(p) ==> Decoded(PutPacket(p)) == p.(numEntries := 0)
  {
    PacketFields(p);
  }

  lemma SliceJoin(b: Bytes, i: nat, j: nat, k: nat)
    requires i <= j <= k <= |b|
    ensures b[i..j] + b[j..k] == b[i..k]
  {
  }

  lemma EntryOfBytes(b: Bytes, i: nat)
    requires RIP_PACKET_HEADER_SIZE + RIP_ENTRY_SIZE * (i + 1) <= |b|
    ensures var at := RIP_PACKET_HEADER_SIZE + RIP_ENTRY_SIZE * i; PutEntry(EntryAt(b, i)) == b[at..at + RIP_ENTRY_SIZE]
  {
    var at := RIP_PACKET_HEADER_SIZE + RIP_ENTRY_SIZE * i;
    EntryRoundTrip(EntryAt(b, i), b[at..at + RIP_ENTRY_SIZE]);
  }

  // Bytes are determined by their parts.
  lemma {:induction false} EntriesOfBytes(b: Bytes, entries: seq<RIPEntry>)
    requires |b| >= RIP_PACKET_HEADER_SIZE + RIP_ENTRY_SIZE * |entries|
    requires forall i | 0 <= i < |entries| :: entries[i] == EntryAt(b, i)
    ensures PutEntries(entries) == b[RIP_PACKET_HEADER_SIZE..RIP_PACKET_HEADER_SIZE + RIP_ENTRY_SIZE * |entries|]
    decreases |entries|
  {
    if entries != [] {
      var m := |entries| - 1;
      var at := RIP_PACKET_HEADER_SIZE + RIP_ENTRY_SIZE * m;
      EntriesOfBytes(b, entries[..m]);
      EntryOfBytes(b, m);
      SliceJoin(b, RIP_PACKET_HEADER_SIZE, at, at + RIP_ENTRY_SIZE);
    }
  }

  /** Every accepted byte string is reproduced by Marshal once NumEntries is set to the entry count. */
  lemma UnmarshalMarshal(b: Bytes)
    requires WellFormedBytes(b)
    ensures var p := Decoded(b); PutPacket(p.(numEntries := |p.entries|)) == b
  {
    EntriesOfBytes(b, Decoded(b).entries);
    PutGet16(0, b[..2]);
    PutGet16(0, b[2..4]);
    assert b == b[..2] + b[2..4] + b[4..];
  }

  /** Without that restoration the count is lost: a decoded packet with entries marshals neither to
      the bytes it came from nor to anything that is accepted. */
  lemma CountIsLost(b: Bytes)
    requires WellFormedBytes(b)
    ensures PutPacket(Decoded(b)) == b <==> Decoded(b).entries == []
    ensures WellFormedBytes(PutPacket(Decoded(b))) <==> Decoded(b).entries == []
  {
    PacketFields(Decoded(b));
    UnmarshalMarshal(b);
  }

  // The packet SendRIPResponseSafe builds around its entries.
  function ResponsePacket(entries: seq<RIPEntry>): RIPPacket {
    RIPPacket(RESPONSE_COMMAND, |entries| % TWO_16, entries)
  }

  lemma ResponseValidIff(entries: seq<RIPEntry>)
    ensures ValidPacket(ResponsePacket(entries)) <==> |entries| <= MAX_NUM_ENTRIES
  {
  }

  /** A response gets through to the handler exactly when it has at most 64 entries, whole or not at all. */
  lemma ResponseAcceptedIff(entries: seq<RIPEntry>)
    ensures WellFormedBytes(PutPacket(ResponsePacket(entries))) <==> |entries| <= MAX_NUM_ENTRIES
    ensures |entries| <= MAX_NUM_ENTRIES ==> Decoded(PutPacket(ResponsePacket(entries))).entries == entries
  {
    ResponseValidIff(entries);
    MarshalUnmarshal(ResponsePacket(entries));
  }
}
