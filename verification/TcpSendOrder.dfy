/** Whether the newest segment, in the order the window test uses, is the one sent last. The numbers
    an endpoint puts on its ACK segments only grow, except that the ACK of a FIN is one higher than
    those sent after it: the order of the test is the order of sending but for that. */
module TcpSendOrder {
  import opened Words
  import opened SegmentHeap
  import opened Sockets
  import opened TcpNetwork
  import opened TcpInvariant
  import opened TcpSenderProofs
  import opened TcpReceiverProofs
  import opened TcpRuns
  import opened TcpWindow

  // ---------- What is sent for the first time ----------

  // At most one segment is sent at a time.
  function Acks(out: seq<Packet>): seq<Packet> {
    if |out| == 1 && out[0].flags == {ACK} then out else []
  }

  predicate SendsNow(w: World, side: Side, at: Side, ev: Event) {
    at == side && Enabled(w.End(side), w.Inbox(side), ev) && !IsResend(ev)
  }

  function NewAcks(w: World, side: Side, at: Side, ev: Event): seq<Packet> {
    if SendsNow(w, side, at, ev) then Acks(Perform(w.End(side), ev).1) else []
  }

  /** The ACK segments that `side` sends in the run, in order, leaving retransmissions out. */
  function FirstSent(w: World, side: Side, run: Run): seq<Packet>
    decreases |run|
  {
    if run == [] then []
    else NewAcks(w, side, run[0].0, run[0].1) + FirstSent(Step(w, run[0].0, run[0].1), side, run[1..])
  }

  lemma OneAtATime(e: Endpoint, ev: Event)
    ensures |Perform(e, ev).1| <= 1
  {
  }

  // ---------- Their numbers ----------

  lemma SegmentNumber(v: Sent, s: Sock, inbox: set<Packet>, flags: set<Flag>, data: seq<Byte>)
    requires SentOk(v) && RxOk(v, s.rx, inbox)
    ensures Segment(s, flags, data).ackNum == v.isn + s.rx.nextExpectedByte
  {
  }

  // What an endpoint acknowledges for the first time is all it has accepted, or the FIN beyond.
  ghost predicate AcksAtLeast(bound: int, out: seq<Packet>) {
    forall p | p in out && p.flags == {ACK} :: bound <= p.ackNum
  }

  lemma AckAnswers(v: Sent, s: Sock, inbox: set<Packet>, p: Packet)
    requires SentOk(v) && (forall q | q in inbox :: PacketOk(v, q)) && p in inbox
    requires RxOk(v, s.rx, inbox) && (HasSeenFin(s.connState) ==> Complete(v, s.rx.nextExpectedByte))
    ensures AcksAtLeast(v.isn + HandleAck(s, p).0.rx.nextExpectedByte, HandleAck(s, p).1)
  {
    ReceiveAck(v, s, inbox, p);
    SegmentNumber(v, HandleAck(s, p).0, inbox, {ACK}, []);
  }

  lemma WriterAnswers(v: Sent, s: Sock, inbox: set<Packet>)
    requires SentOk(v) && RxOk(v, s.rx, inbox)
    ensures AcksAtLeast(v.isn + s.rx.nextExpectedByte, StartIteration(s).1) && StartIteration(s).0.rx == s.rx
    ensures s.tx.writer.Sending? ==>
      AcksAtLeast(v.isn + s.rx.nextExpectedByte, SendSegment(s).1) && SendSegment(s).0.rx == s.rx
  {
  }

  lemma EventAnswers(v: Sent, e: Endpoint, inbox: set<Packet>, ev: Event)
    requires SentOk(v) && (forall q | q in inbox :: PacketOk(v, q)) && RxOk(v, e.sock.rx, inbox)
    requires HasSeenFin(e.sock.connState) ==> Complete(v, e.sock.rx.nextExpectedByte)
    requires Enabled(e, inbox, ev) && !IsResend(ev)
    ensures var (f, o) := Perform(e, ev); AcksAtLeast(v.isn + f.sock.rx.nextExpectedByte, o)
  {
    match ev
    case Deliver(p) =>
      if e.phase == Running && p.flags == {ACK} { AckAnswers(v, e.sock, inbox, p); }
    case WriterStep => WriterAnswers(v, e.sock, inbox);
    case _ =>
  }

  // How far an endpoint has got: the number of its next segment, and what it has accepted.
  function NextNumber(e: Endpoint): int { e.sock.tx.initSeqNum + e.sock.tx.numberBytesSent + 1 }

  function AcceptedUpTo(e: Endpoint): int { e.sock.rx.remoteISN + e.sock.rx.nextExpectedByte }

  ghost predicate Progress(e: Endpoint, f: Endpoint) {
    && NextNumber(e) <= NextNumber(f) && AcceptedUpTo(e) <= AcceptedUpTo(f)
    && f.sock.tx.initSeqNum == e.sock.tx.initSeqNum && f.sock.rx.remoteISN == e.sock.rx.remoteISN
  }

  // A stream only grows, and not at all once its FIN is sent.
  ghost predicate Grows(v: Sent, w: Sent) {
    w.isn == v.isn && v.sent <= w.sent && (v.fin ==> w.fin && w.sent == v.sent)
  }

  // One event of endpoint x, whose peer is y.
  lemma EndpointProgress(x: Endpoint, y: Endpoint, out: set<Packet>, inbox: set<Packet>, ev: Event)
    requires Flow(x, y, out, inbox) && Flow(y, x, inbox, out)
    requires Enabled(x, inbox, ev) && NoWrap(Perform(x, ev).0)
    ensures var f := Perform(x, ev).0; Progress(x, f) && Grows(SentBy(x), SentBy(f))
  {
    var next := y.sock.rx.nextExpectedByte;
    forall p | p in inbox ensures PeerPacketOk(SentBy(x), next, p) { assert PacketOk(SentBy(y), p); }
    SenderStep(x, next, out, inbox, ev);
    ResentPacketsAreOld(x.sock, SentBy(x), out);
    ReceiverStep(SentBy(y), x, inbox, out, ev);
    EventProgress(x, SentBy(y), inbox, out, ev);
  }

  lemma EventProgress(x: Endpoint, v: Sent, inbox: set<Packet>, out: set<Packet>, ev: Event)
    requires var f := Perform(x, ev).0;
      Extends(SentBy(x), SentBy(f)) && RxOk(v, x.sock.rx, inbox) && RxOk(v, f.sock.rx, inbox)
    requires x.sock.rx.nextExpectedByte <= Perform(x, ev).0.sock.rx.nextExpectedByte
    ensures Progress(x, Perform(x, ev).0)
  {
  }

  lemma StepProgress(w: World, side: Side, at: Side, ev: Event)
    requires Inv(w) && NoWrapIn(Step(w, at, ev))
    ensures var x := Step(w, at, ev);
      Progress(w.End(side), x.End(side)) && Grows(SentBy(w.End(side)), SentBy(x.End(side)))
  {
    if at == side && Enabled(w.End(at), w.Inbox(at), ev) {
      if side == A { EndpointProgress(w.a, w.b, w.toB, w.toA, ev); }
      else { EndpointProgress(w.b, w.a, w.toA, w.toB, ev); }
    }
  }

  lemma {:induction false} RunProgress(w: World, side: Side, run: Run)
    requires Inv(w) && NoWrapIn(Exec(w, run))
    ensures var x := Exec(w, run);
      Progress(w.End(side), x.End(side)) && Grows(SentBy(w.End(side)), SentBy(x.End(side)))
    decreases |run|
  {
    if run != [] {
      var x := Step(w, run[0].0, run[0].1);
      RunGrows(x, run[1..]);
      StepKeepsInv(w, run[0].0, run[0].1);
      StepProgress(w, side, run[0].0, run[0].1);
      RunProgress(x, side, run[1..]);
    }
  }

  // A segment sent for the first time between endpoint states e and f.
  ghost predicate FreshFrom(e: Endpoint, f: Endpoint, p: Packet) {
    p.flags == {ACK} && p.seqNum == NextNumber(e) && AcceptedUpTo(f) <= p.ackNum
  }

  lemma EndpointAcks(x: Endpoint, y: Endpoint, out: set<Packet>, inbox: set<Packet>, ev: Event)
    requires Flow(x, y, out, inbox) && Flow(y, x, inbox, out)
    requires Enabled(x, inbox, ev) && !IsResend(ev)
    ensures var (f, o) := Perform(x, ev);
      |o| <= 1 && forall p | p in Acks(o) :: FreshFrom(x, f, p)
  {
    OneAtATime(x, ev);
    FlowRoom(x, y.sock.rx.nextExpectedByte, out);
    EventNumbers(x, ev);
    EventAnswers(SentBy(y), x, inbox, ev);
    EventKeepsPeer(x, ev);
  }

  lemma EventKeepsPeer(e: Endpoint, ev: Event)
    ensures Perform(e, ev).0.sock.rx.remoteISN == e.sock.rx.remoteISN
  {
    if ev.Deliver? && e.phase == Running && ev.packet.flags == {ACK} { HandleAckView(e, ev.packet); }
  }

  lemma NewAckNumbers(w: World, side: Side, at: Side, ev: Event)
    requires Inv(w)
    ensures var x := Step(w, at, ev); var acks := NewAcks(w, side, at, ev);
      && |acks| <= 1 && (forall p | p in acks :: FreshFrom(w.End(side), x.End(side), p) && p in x.Outbox(side))
  {
    if SendsNow(w, side, at, ev) {
      if side == A { EndpointAcks(w.a, w.b, w.toB, w.toA, ev); } else { EndpointAcks(w.b, w.a, w.toA, w.toB, ev); }
    }
  }

  // Everything sent for the first time later has numbers at least this high.
  lemma {:induction false} LaterNumbers(w: World, side: Side, run: Run)
    requires Inv(w) && NoWrapIn(Exec(w, run))
    ensures forall p | p in FirstSent(w, side, run) ::
      p.flags == {ACK} && NextNumber(w.End(side)) <= p.seqNum && AcceptedUpTo(w.End(side)) <= p.ackNum
    decreases |run|
  {
    if run != [] {
      var x := Step(w, run[0].0, run[0].1);
      RunGrows(x, run[1..]);
      StepKeepsInv(w, run[0].0, run[0].1);
      StepProgress(w, side, run[0].0, run[0].1);
      NewAckNumbers(w, side, run[0].0, run[0].1);
      LaterNumbers(x, side, run[1..]);
    }
  }

  // ---------- The order of sending ----------

  // The ACK of the FIN that ends the peer's stream.
  predicate AcksFin(v: Sent, p: Packet) { v.fin && p.ackNum == v.isn + v.sent + 2 }

  // All that was sent acknowledges at most what has been accepted, or is the ACK of the FIN.
  lemma OldAckNumbers(w: World, side: Side, p: Packet)
    requires Inv(w) && p in w.Outbox(side) && p.flags == {ACK}
    ensures p.ackNum <= AcceptedUpTo(w.End(side)) || AcksFin(SentBy(w.End(Other(side))), p)
    ensures var v := SentBy(w.End(Other(side))); AcceptedUpTo(w.End(side)) <= v.isn + v.sent + 1
  {
    var v := SentBy(w.End(Other(side)));
    assert AckOk(v, w.End(side).sock.rx.nextExpectedByte, p.ackNum);
  }

  // The first of two segments, with these numbers, keeps the second from setting the window.
  ghost predicate Overtakes(v: Sent, p: Packet, q: Packet) {
    p.seqNum == q.seqNum && AcksFin(v, p) && !AcksFin(v, q)
  }

  // In the order of the window test.
  predicate InTestOrder(p: Packet, q: Packet) { p.seqNum < q.seqNum || (p.seqNum == q.seqNum && p.ackNum <= q.ackNum) }

  // p is sent between w and x, q after x; v is the peer's stream in the end.
  lemma LaterInOrderIff(w: World, x: World, side: Side, end: World, p: Packet, q: Packet)
    requires Inv(x) && Inv(end) && p in x.Outbox(side) && q in end.Outbox(side) && q.flags == {ACK}
    requires FreshFrom(w.End(side), x.End(side), p) && NextNumber(w.End(side)) <= NextNumber(x.End(side))
    requires NextNumber(x.End(side)) <= q.seqNum && AcceptedUpTo(x.End(side)) <= q.ackNum
    requires Grows(SentBy(x.End(Other(side))), SentBy(end.End(Other(side))))
    ensures InTestOrder(p, q) <==> !Overtakes(SentBy(end.End(Other(side))), p, q)
  {
    OldAckNumbers(x, side, p);
    OldAckNumbers(end, side, q);
  }

  lemma {:induction false} SentStays(w: World, side: Side, run: Run)
    ensures w.Outbox(side) <= Exec(w, run).Outbox(side)
    decreases |run|
  {
    if run != [] { SentStays(Step(w, run[0].0, run[0].1), side, run[1..]); }
  }

  lemma {:induction false} FirstSentIsSent(w: World, side: Side, run: Run)
    ensures forall p | p in FirstSent(w, side, run) :: p in Exec(w, run).Outbox(side)
    decreases |run|
  {
    if run != [] {
      var x := Step(w, run[0].0, run[0].1);
      FirstSentIsSent(x, side, run[1..]);
      SentStays(x, side, run[1..]);
      assert forall p | p in NewAcks(w, side, run[0].0, run[0].1) :: p in x.Outbox(side);
    }
  }

  // p is sent in this step, q in a later one.
  lemma NowAndLater(w: World, side: Side, at: Side, ev: Event, rest: Run, p: Packet, q: Packet)
    requires Inv(w) && NoWrapIn(Exec(Step(w, at, ev), rest))
    requires p in NewAcks(w, side, at, ev) && q in FirstSent(Step(w, at, ev), side, rest)
    ensures InTestOrder(p, q) <==> !Overtakes(SentBy(Exec(Step(w, at, ev), rest).End(Other(side))), p, q)
  {
    var x := Step(w, at, ev);
    RunGrows(x, rest);
    StepKeepsInv(w, at, ev);
    NewAckNumbers(w, side, at, ev);
    LaterNumbers(x, side, rest);
    RunKeepsInv(x, rest);
    RunProgress(x, Other(side), rest);
    FirstSentIsSent(x, side, rest);
    StepProgress(w, side, at, ev);
    LaterInOrderIff(w, x, side, Exec(x, rest), p, q);
  }

  // The order of the window test is the order of this sequence, but for what the ACK of a FIN overtakes.
  ghost predicate SendOrdered(v: Sent, sent: seq<Packet>) {
    forall i, j | 0 <= i < j < |sent| :: InTestOrder(sent[i], sent[j]) <==> !Overtakes(v, sent[i], sent[j])
  }

  lemma OrderedJoin(v: Sent, first: seq<Packet>, later: seq<Packet>)
    requires |first| <= 1 && SendOrdered(v, later)
    requires forall p, q | p in first && q in later :: InTestOrder(p, q) <==> !Overtakes(v, p, q)
    ensures SendOrdered(v, first + later)
  {
    var all := first + later;
    forall i, j | 0 <= i < j < |all| ensures InTestOrder(all[i], all[j]) <==> !Overtakes(v, all[i], all[j]) {
      assert all[j] == later[j - |first|];
      if i < |first| { assert all[i] in first && all[j] in later; }
      else { assert all[i] == later[i - |first|]; }
    }
  }

  /** Of two ACK segments an endpoint sends for the first time, the earlier one comes first in the order
      of the window test too, if and only if it is not the ACK of a FIN followed by a segment with the
      same sequence number that is not. */
  lemma {:induction false} SendOrderIff(w: World, side: Side, run: Run)
    requires Inv(w) && NoWrapIn(Exec(w, run))
    ensures SendOrdered(SentBy(Exec(w, run).End(Other(side))), FirstSent(w, side, run))
    decreases |run|
  {
    if run != [] {
      var (at, ev) := run[0];
      var x, rest := Step(w, at, ev), run[1..];
      RunGrows(x, rest);
      StepKeepsInv(w, at, ev);
      SendOrderIff(x, side, rest);
      PairsNowAndLater(w, side, at, ev, rest);
      OrderedJoin(SentBy(Exec(x, rest).End(Other(side))), NewAcks(w, side, at, ev), FirstSent(x, side, rest));
    }
  }

  lemma PairsNowAndLater(w: World, side: Side, at: Side, ev: Event, rest: Run)
    requires Inv(w) && NoWrapIn(Exec(Step(w, at, ev), rest))
    ensures |NewAcks(w, side, at, ev)| <= 1
    ensures forall p, q | p in NewAcks(w, side, at, ev) && q in FirstSent(Step(w, at, ev), side, rest) ::
      InTestOrder(p, q) <==> !Overtakes(SentBy(Exec(Step(w, at, ev), rest).End(Other(side))), p, q)
  {
    forall p, q | p in NewAcks(w, side, at, ev) && q in FirstSent(Step(w, at, ev), side, rest)
      ensures InTestOrder(p, q) <==> !Overtakes(SentBy(Exec(Step(w, at, ev), rest).End(Other(side))), p, q)
    {
      NowAndLater(w, side, at, ev, rest, p, q);
    }
  }

  // ---------- The connecting side ----------

  // Everything handled was sent in the run.
  lemma {:induction false} HandledWasSent(w: World, side: Side, run: Run)
    requires Inv(w) && NoWrapIn(Exec(w, run))
    ensures forall p | p in Handled(w, side, run) :: p in w.Inbox(side) || p in FirstSent(w, Other(side), run)
    decreases |run|
  {
    if run != [] {
      var (at, ev) := run[0];
      var x := Step(w, at, ev);
      RunGrows(x, run[1..]);
      StepKeepsInv(w, at, ev);
      HandledWasSent(x, side, run[1..]);
      forall p | p in x.Inbox(side) && p.flags == {ACK}
        ensures p in w.Inbox(side) || p in NewAcks(w, Other(side), at, ev)
      {
        NewOrResent(w, Other(side), at, ev, p);
      }
      HandledAreAcks(x, side, run[1..]);
    }
  }

  lemma SentOrResent(e: Endpoint, v: Sent, out: set<Packet>, ev: Event, p: Packet)
    requires TxOk(e.sock, v, out) && p in out + Packets(Perform(e, ev).1) && p.flags == {ACK}
    ensures p in out || (!IsResend(ev) && p in Acks(Perform(e, ev).1))
  {
    OneAtATime(e, ev);
    ResentPacketsAreOld(e.sock, v, out);
  }

  lemma NewOrResent(w: World, side: Side, at: Side, ev: Event, p: Packet)
    requires Inv(w) && p in Step(w, at, ev).Outbox(side) && p.flags == {ACK}
    ensures p in w.Outbox(side) || p in NewAcks(w, side, at, ev)
  {
    if at == side && Enabled(w.End(side), w.Inbox(side), ev) {
      if side == A { SentOrResent(w.a, SentBy(w.a), w.toB, ev, p); }
      else { SentOrResent(w.b, SentBy(w.b), w.toA, ev, p); }
    }
  }

  lemma {:induction false} HandledAreAcks(w: World, side: Side, run: Run)
    ensures forall p | p in Handled(w, side, run) :: p.flags == {ACK}
    decreases |run|
  {
    if run != [] { HandledAreAcks(Step(w, run[0].0, run[0].1), side, run[1..]); }
  }

  // The view comes from segment i of those B sent, and no segment handled by A that B sent later is
  // strictly newer; one that is not as new has been overtaken by the ACK of A's FIN.
  ghost predicate FromLastSent(isnB: U32, v: Sent, sent: seq<Packet>, handled: seq<Packet>, view: View, i: nat) {
    && i < |sent| && sent[i] in handled && view == ViewFrom(isnB, sent[i])
    && forall j | i < j < |sent| && sent[j] in handled ::
         (sent[j].seqNum == sent[i].seqNum && sent[j].ackNum == sent[i].ackNum) || Overtakes(v, sent[i], sent[j])
  }

  // What is handled was either on its way before or has numbers past the sender's.
  lemma HandledNumbers(w: World, side: Side, run: Run, p: Packet)
    requires Inv(w) && NoWrapIn(Exec(w, run)) && p in Handled(w, side, run)
    ensures p.flags == {ACK}
    ensures p in w.Inbox(side)
      || (p in FirstSent(w, Other(side), run) && NextNumber(w.End(Other(side))) <= p.seqNum)
  {
    HandledWasSent(w, side, run);
    HandledAreAcks(w, side, run);
    LaterNumbers(w, Other(side), run);
  }

  // The SYN-ACK is all that is on its way to A, and B's next number is the one after its initial number.
  lemma ConnectedNumbers(isnA: U32, isnB: U32)
    requires NoWrapIn(Connected(isnA, isnB))
    ensures var w0 := Connected(isnA, isnB); NextNumber(w0.b) == isnB + 1 && forall p | p in w0.toA :: p.flags != {ACK}
  {
  }

  lemma ConnectorViews(isnA: U32, isnB: U32, run: Run, p: Packet)
    requires NoWrapIn(Exec(Connected(isnA, isnB), run)) && p in Handled(Connected(isnA, isnB), A, run)
    ensures p in FirstSent(Connected(isnA, isnB), B, run) && isnB + 1 <= p.seqNum
  {
    RunGrows(Connected(isnA, isnB), run);
    ConnectedInv(isnA, isnB);
    ConnectedNumbers(isnA, isnB);
    HandledNumbers(Connected(isnA, isnB), A, run, p);
  }

  // A later segment that is not newer has the same numbers or has been overtaken.
  lemma LaterNotNewer(v: Sent, isn: U32, p: Packet, q: Packet)
    requires isn < p.seqNum && isn < q.seqNum && NotOlder(ViewFrom(isn, q), ViewFrom(isn, p))
    requires InTestOrder(p, q) <==> !Overtakes(v, p, q)
    ensures (q.seqNum == p.seqNum && q.ackNum == p.ackNum) || Overtakes(v, p, q)
  {
  }

  lemma HandledNotNewer(w: World, side: Side, run: Run, q: Packet)
    requires w.End(side).phase == Running && q in Handled(w, side, run)
    ensures NotOlder(ViewFrom(w.End(side).sock.rx.remoteISN, q), ViewOf(Exec(w, run).End(side)))
  {
    WindowOfNewest(w, side, run);
  }

  lemma PairOrdered(w: World, side: Side, run: Run, i: nat, j: nat)
    requires Inv(w) && NoWrapIn(Exec(w, run)) && i < j < |FirstSent(w, side, run)|
    ensures var p, q := FirstSent(w, side, run)[i], FirstSent(w, side, run)[j];
      InTestOrder(p, q) <==> !Overtakes(SentBy(Exec(w, run).End(Other(side))), p, q)
  {
    SendOrderIff(w, side, run);
  }

  lemma NoneNewer(isnA: U32, isnB: U32, run: Run, i: nat, j: nat)
    requires var w0 := Connected(isnA, isnB); var sent := FirstSent(w0, B, run);
      && NoWrapIn(Exec(w0, run)) && i < j < |sent| && sent[i] in Handled(w0, A, run) && sent[j] in Handled(w0, A, run)
      && ViewOf(Exec(w0, run).a) == ViewFrom(isnB, sent[i])
    ensures var w0 := Connected(isnA, isnB); var p, q := FirstSent(w0, B, run)[i], FirstSent(w0, B, run)[j];
      (q.seqNum == p.seqNum && q.ackNum == p.ackNum) || Overtakes(SentBy(Exec(w0, run).a), p, q)
  {
    var w0 := Connected(isnA, isnB);
    var p, q := FirstSent(w0, B, run)[i], FirstSent(w0, B, run)[j];
    ConnectorViews(isnA, isnB, run, p);
    ConnectorViews(isnA, isnB, run, q);
    HandledNotNewer(w0, A, run, q);
    ConnectedOrdered(isnA, isnB, run, i, j);
    LaterNotNewer(SentBy(Exec(w0, run).a), isnB, p, q);
  }

  lemma ConnectedOrdered(isnA: U32, isnB: U32, run: Run, i: nat, j: nat)
    requires var w0 := Connected(isnA, isnB); NoWrapIn(Exec(w0, run)) && i < j < |FirstSent(w0, B, run)|
    ensures var w0 := Connected(isnA, isnB); var p, q := FirstSent(w0, B, run)[i], FirstSent(w0, B, run)[j];
      InTestOrder(p, q) <==> !Overtakes(SentBy(Exec(w0, run).a), p, q)
  {
    RunGrows(Connected(isnA, isnB), run);
    ConnectedInv(isnA, isnB);
    PairOrdered(Connected(isnA, isnB), B, run, i, j);
  }

  // Whatever handled segment the view comes from, none was sent after it that should have replaced it.
  lemma ViewFromLastSent(isnA: U32, isnB: U32, run: Run, p: Packet)
    requires var w0 := Connected(isnA, isnB);
      NoWrapIn(Exec(w0, run)) && p in Handled(w0, A, run) && ViewOf(Exec(w0, run).a) == ViewFrom(isnB, p)
    ensures var w0 := Connected(isnA, isnB); var x := Exec(w0, run);
      exists i :: FromLastSent(isnB, SentBy(x.a), FirstSent(w0, B, run), Handled(w0, A, run), ViewOf(x.a), i)
  {
    var w0 := Connected(isnA, isnB);
    var x, sent, handled := Exec(w0, run), FirstSent(w0, B, run), Handled(w0, A, run);
    ConnectorViews(isnA, isnB, run, p);
    var i :| 0 <= i < |sent| && sent[i] == p;
    forall j | i < j < |sent| && sent[j] in handled
      ensures (sent[j].seqNum == sent[i].seqNum && sent[j].ackNum == sent[i].ackNum)
        || Overtakes(SentBy(x.a), sent[i], sent[j])
    {
      NoneNewer(isnA, isnB, run, i, j);
    }
    assert FromLastSent(isnB, SentBy(x.a), sent, handled, ViewOf(x.a), i);
  }

  // A segment that has been handled has set the view.
  lemma SomeViewSet(isnA: U32, isnB: U32, run: Run) returns (p: Packet)
    requires NoWrapIn(Exec(Connected(isnA, isnB), run)) && Handled(Connected(isnA, isnB), A, run) != []
    ensures p in Handled(Connected(isnA, isnB), A, run)
    ensures ViewOf(Exec(Connected(isnA, isnB), run).a) == ViewFrom(isnB, p)
  {
    var w0 := Connected(isnA, isnB);
    var first := Handled(w0, A, run)[0];
    WindowOfNewest(w0, A, run);
    ConnectorViews(isnA, isnB, run, first);
    assert NotOlder(ViewFrom(isnB, first), ViewOf(Exec(w0, run).a));
    p :| p in Handled(w0, A, run) && ViewOf(Exec(w0, run).a) == ViewFrom(isnB, p);
  }

  /** On the connecting side the window is, once an acceptable ACK has been handled, that of the segment
      the peer sent last among those handled, up to segments with the same two numbers, and except that
      the ACK of the connecting side's FIN keeps out what was sent after it. */
  lemma ConnectorWindowIsLastSent(isnA: U32, isnB: U32, run: Run)
    requires NoWrapIn(Exec(Connected(isnA, isnB), run))
    requires Handled(Connected(isnA, isnB), A, run) != []
    ensures var w0 := Connected(isnA, isnB); var x := Exec(w0, run);
      exists i :: FromLastSent(isnB, SentBy(x.a), FirstSent(w0, B, run), Handled(w0, A, run), ViewOf(x.a), i)
  {
    var p := SomeViewSet(isnA, isnB, run);
    ViewFromLastSent(isnA, isnB, run, p);
  }
}
