/** What one iteration of HandleVWrite sends, for every endpoint: the bytes, how they are cut and numbered,
    and what is left to retransmit. */
module TcpIteration {
  import opened Words
  import opened SegmentHeap
  import opened Sockets
  import opened TcpInvariant

  // ---------- Data ----------

  // The text of these packets, one after the other.
  function Text(out: seq<Packet>): seq<Byte>
    decreases |out|
  {
    if out == [] then [] else out[0].data + Text(out[1..])
  }

  // Each packet is numbered where the one before it ends.
  ghost predicate Consecutive(out: seq<Packet>, from: int)
    decreases |out|
  {
    out == [] || (out[0].seqNum == from % TWO_32 && Consecutive(out[1..], from + |out[0].data|))
  }

  // ACK segments with data, all but the last of full size.
  predicate IsCut(out: seq<Packet>) {
    && (forall p | p in out :: p.flags == {ACK} && 0 < |p.data| <= 1024)
    && (forall i | 0 <= i < |out| - 1 :: |out[i].data| == 1024)
  }

  // q followed by one item for each packet.
  ghost predicate Queued(q: seq<Entry>, out: seq<Packet>, r: seq<Entry>) {
    && |r| == |q| + |out| && q <= r
    && forall i | 0 <= i < |out| :: r[|q| + i] == Entry(out[i].seqNum, out[i])
  }

  // Between s and t these packets have sent exactly these bytes.
  ghost predicate Sends(s: Sock, t: Sock, out: seq<Packet>, bytes: seq<Byte>) {
    && Text(out) == bytes && IsCut(out) && Consecutive(out, s.tx.initSeqNum + 1 + s.tx.numberBytesSent)
    && t.connState == s.connState && t.rx == s.rx
  }

  lemma FirstSegment(s: Sock)
    requires s.tx.writer.Sending? && s.tx.writer.payload != []
    ensures var size, payload := Min(1024, |s.tx.writer.payload|), s.tx.writer.payload; var (t, out) := SendSegment(s);
      && |out| == 1 && out[0].flags == {ACK} && out[0].data == payload[..size]
      && out[0].seqNum == (s.tx.initSeqNum + 1 + s.tx.numberBytesSent) % TWO_32
      && t.tx.rtQueue == s.tx.rtQueue + [Entry(out[0].seqNum, out[0])] && t.tx.writeBuffer == s.tx.writeBuffer
      && t.tx.initSeqNum == s.tx.initSeqNum && t.tx.numberBytesSent == (s.tx.numberBytesSent + size) % TWO_32
      && t.tx.writer == (if size == |payload| then Idle else Sending(payload[size..]))
      && t.connState == s.connState && t.rx == s.rx
  {
  }

  lemma {:induction false} ConsecutiveModulo(out: seq<Packet>, from: int, to: int)
    requires Consecutive(out, from) && from % TWO_32 == to % TWO_32
    ensures Consecutive(out, to)
    decreases |out|
  {
    if out != [] {
      var n := |out[0].data|;
      assert (from + n) % TWO_32 == (to + n) % TWO_32 by { ModShift(from, to, n); }
      ConsecutiveModulo(out[1..], from + n, to + n);
    }
  }

  lemma ModShift(x: int, y: int, n: int)
    requires x % TWO_32 == y % TWO_32
    ensures (x + n) % TWO_32 == (y + n) % TWO_32
  {
    var k := x / TWO_32 - y / TWO_32;
    assert x == y + k * TWO_32;
  }

  lemma CutLonger(first: Packet, rest: seq<Packet>)
    requires IsCut(rest) && first.flags == {ACK} && 0 < |first.data| <= 1024
    requires rest == [] || |first.data| == 1024
    ensures IsCut([first] + rest)
  {
    var out := [first] + rest;
    forall i | 0 <= i < |out| - 1 ensures |out[i].data| == 1024 {
      if i > 0 { assert out[i] == rest[i - 1]; }
    }
  }

  lemma TextLonger(first: Packet, rest: seq<Packet>, from: int)
    requires first.seqNum == from % TWO_32 && Consecutive(rest, from + |first.data|)
    ensures Text([first] + rest) == first.data + Text(rest) && Consecutive([first] + rest, from)
  {
    assert ([first] + rest)[1..] == rest;
  }

  lemma QueuedLonger(q: seq<Entry>, first: Packet, rest: seq<Packet>, r: seq<Entry>)
    requires Queued(q + [Entry(first.seqNum, first)], rest, r)
    ensures Queued(q, [first] + rest, r)
  {
    var out := [first] + rest;
    assert r[|q|] == (q + [Entry(first.seqNum, first)])[|q|];
    forall i | 0 <= i < |out| ensures r[|q| + i] == Entry(out[i].seqNum, out[i]) {
      if i > 0 { assert out[i] == rest[i - 1]; }
    }
  }

  // What the rest of a burst sends follows its first segment.
  lemma BurstLonger(s: Sock, s1: Sock, first: Packet, t: Sock, rest: seq<Packet>)
    requires s.tx.writer.Sending? && s.tx.writer.payload != [] && SendSegment(s) == (s1, [first])
    requires Sends(s1, t, rest, Payload(s1.tx.writer)) && Queued(s1.tx.rtQueue, rest, t.tx.rtQueue)
    ensures Sends(s, t, [first] + rest, s.tx.writer.payload) && Queued(s.tx.rtQueue, [first] + rest, t.tx.rtQueue)
  {
    FirstSegment(s);
    var from := s.tx.initSeqNum + 1 + s.tx.numberBytesSent;
    ConsecutiveModulo(rest, s1.tx.initSeqNum + 1 + s1.tx.numberBytesSent, from + |first.data|);
    TextLonger(first, rest, from);
    CutLonger(first, rest);
    QueuedLonger(s.tx.rtQueue, first, rest, t.tx.rtQueue);
  }

  // A burst sends its whole payload and queues every segment.
  lemma {:induction false} BurstSendsPayload(s: Sock)
    requires s.tx.writer.Sending? && s.tx.writer.payload != []
    ensures var (t, out) := SendBurst(s);
      && Sends(s, t, out, s.tx.writer.payload) && Queued(s.tx.rtQueue, out, t.tx.rtQueue)
      && t.tx.writer == Idle && t.tx.writeBuffer == s.tx.writeBuffer
    decreases |s.tx.writer.payload|
  {
    FirstSegment(s);
    var (s1, out1) := SendSegment(s);
    var (t, rest) := SendBurst(s1);
    if s1.tx.writer.Sending? { BurstSendsPayload(s1); }
    assert out1 == [out1[0]];
    BurstLonger(s, s1, out1[0], t, rest);
  }

  // The window has room for more than is in flight.
  predicate HasRoom(tx: Tx) { tx.bytesInFlight < tx.remoteWindowSize }

  lemma IterationBursts(s: Sock)
    requires s.tx.writer.Idle? && s.tx.writeBuffer != [] && HasRoom(s.tx)
    ensures var (t, out) := WriterIteration(s); var n := Min(s.tx.remoteWindowSize, |s.tx.writeBuffer|);
      && Sends(s, t, out, s.tx.writeBuffer[..n]) && t.tx.writeBuffer == s.tx.writeBuffer[n..]
      && Queued(s.tx.rtQueue, out, t.tx.rtQueue) && t.tx.writer == Idle
  {
    var s1 := StartIteration(s).0;
    BurstSendsPayload(s1);
    assert [] + SendBurst(s1).1 == SendBurst(s1).1;
  }

  lemma IterationProbes(s: Sock)
    requires s.tx.writer.Idle? && s.tx.writeBuffer != [] && !HasRoom(s.tx)
    ensures var (t, out) := WriterIteration(s);
      && Sends(s, t, out, s.tx.writeBuffer[..1]) && t.tx.writeBuffer == s.tx.writeBuffer[1..]
      && t.tx.rtQueue == s.tx.rtQueue && |out| == 1 && t.tx.writer == Probing(out[0]) && t.tx.zwpMode
  {
    var (s1, out) := StartIteration(s);
    assert out + [] == out;
    OneProbe(s, out[0]);
  }

  lemma OneProbe(s: Sock, probe: Packet)
    requires s.tx.writeBuffer != [] && SendProbe(s).1 == [probe]
    ensures Text([probe]) == s.tx.writeBuffer[..1] && IsCut([probe])
    ensures Consecutive([probe], s.tx.initSeqNum + 1 + s.tx.numberBytesSent)
  {
    assert [probe][1..] == [] && probe.data + [] == probe.data;
  }

  /** With data to write, an iteration sends exactly the front of the write buffer: as many bytes as the
      whole window allows, each segment queued, if the window is larger than what is in flight; otherwise
      one byte as a probe, which is not queued. */
  lemma IterationSendsData(s: Sock)
    requires s.tx.writer.Idle? && s.tx.writeBuffer != []
    ensures var (t, out) := WriterIteration(s);
      var n := if HasRoom(s.tx) then Min(s.tx.remoteWindowSize, |s.tx.writeBuffer|) else 1;
      && Sends(s, t, out, s.tx.writeBuffer[..n]) && t.tx.writeBuffer == s.tx.writeBuffer[n..]
      && (HasRoom(s.tx) ==> Queued(s.tx.rtQueue, out, t.tx.rtQueue) && t.tx.writer == Idle)
      && (!HasRoom(s.tx) ==>
            t.tx.rtQueue == s.tx.rtQueue && |out| == 1 && t.tx.writer == Probing(out[0]) && t.tx.zwpMode)
  {
    if HasRoom(s.tx) { IterationBursts(s); } else { IterationProbes(s); }
  }

  // ---------- The FIN ----------

  // From s to t the FIN, numbered after all that was sent, goes out, is queued last and ends the writer.
  ghost predicate SendsOnlyFin(s: Sock, t: Sock, out: seq<Packet>) {
    && |out| == 1 && out[0].flags == {FIN} && out[0].data == []
    && out[0].seqNum == (s.tx.initSeqNum + 1 + s.tx.numberBytesSent) % TWO_32
    && t.tx.rtQueue == s.tx.rtQueue + [Entry(out[0].seqNum, out[0])] && t.tx.writer == Done
    && t.connState == s.connState && t.rx == s.rx
  }

  /** With nothing left to write, the next iteration of HandleVWrite sends the FIN if and only if the
      connection is no longer ESTABLISHED, whichever side closes first; otherwise it does nothing. */
  lemma IterationSendsFinIff(s: Sock)
    requires s.tx.writer.Idle? && s.tx.writeBuffer == []
    ensures var (t, out) := WriterIteration(s);
      if s.connState == ESTABLISHED then (t, out) == (s, []) else SendsOnlyFin(s, t, out)
  {
    var fin := Segment(s, {FIN}, []);
    assert [fin] + [] == [fin] && StartIteration(s).1 + [] == StartIteration(s).1;
    assert fin.seqNum == (s.tx.initSeqNum + 1 + s.tx.numberBytesSent) % TWO_32;
  }
}
