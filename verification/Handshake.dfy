/** The three-way handshake of VConnect and VAccept between any number of sockets for one pair
    of addresses, when SYNs, SYN-ACKs and ACKs may be delayed, repeated, reordered and lost. */
module Handshake {
  import opened Words
  import opened SegmentHeap
  import opened Sockets

  // A call of VConnect or VAccept in progress or finished, and its socket.
  datatype Status = Waiting | Connected | Failed
  datatype Party = Party(sock: Sock, status: Status)

  // Every packet ever sent stays deliverable.
  datatype Calls = Calls(clients: seq<Party>, servers: seq<Party>, toServers: set<Packet>, toClients: set<Packet>)

  ghost predicate NewConnect(s: Calls, s': Calls) {
    exists isn: U32 ::
      s' == s.(clients := s.clients + [Party(MakeTCPSocket(SYN_SENT, 0, isn), Waiting)],
               toServers := s.toServers + {SynPacket(isn)})
  }

  // VAccept returns an error and leaves no socket when the packet is not a SYN.
  ghost predicate NewAccept(s: Calls, s': Calls) {
    exists p: Packet, isn: U32 :: p in s.toServers && AcceptSyn(p, isn).Some?
      && s' == s.(servers := s.servers + [Party(AcceptSyn(p, isn).value.0, Waiting)],
                  toClients := s.toClients + {AcceptSyn(p, isn).value.1})
  }

  ghost predicate ConnectReceives(s: Calls, s': Calls) {
    exists i: nat, p: Packet :: i < |s.clients| && s.clients[i].status == Waiting && p in s.toClients
      && s' == (match ConnectReply(s.clients[i].sock, p)
                case Some((sock, ack)) =>
                  s.(clients := s.clients[i := Party(sock, Connected)], toServers := s.toServers + {ack})
                case None => s.(clients := s.clients[i := s.clients[i].(status := Failed)]))
  }

  ghost predicate AcceptReceives(s: Calls, s': Calls) {
    exists i: nat, p: Packet :: i < |s.servers| && s.servers[i].status == Waiting && p in s.toServers
      && s' == s.(servers := s.servers[i := match AcceptReply(s.servers[i].sock, p)
                                            case Some(sock) => Party(sock, Connected)
                                            case None => s.servers[i].(status := Failed)])
  }

  ghost predicate CallStep(s: Calls, s': Calls) {
    NewConnect(s, s') || NewAccept(s, s') || ConnectReceives(s, s') || AcceptReceives(s, s')
  }

  // Each end has recorded the other's initial sequence number and starts at its first byte.
  ghost predicate Agree(c: Sock, v: Sock) {
    && c.rx.remoteISN == v.tx.initSeqNum && v.rx.remoteISN == c.tx.initSeqNum
    && c.rx.nextExpectedByte == 1 && v.rx.nextExpectedByte == 1
  }

  ghost predicate IsClient(s: Calls, isn: U32) {
    exists i | 0 <= i < |s.clients| :: s.clients[i].sock.tx.initSeqNum == isn
  }

  ghost predicate SynOk(s: Calls, p: Packet) { p.flags == {SYN} ==> IsClient(s, p.seqNum) }

  ghost predicate SynAckOk(s: Calls, p: Packet) {
    exists i | 0 <= i < |s.servers| ::
      p.seqNum == s.servers[i].sock.tx.initSeqNum && p.ackNum == Add32(s.servers[i].sock.rx.remoteISN, 1)
  }

  ghost predicate FinalAckOk(s: Calls, p: Packet) {
    p.flags == {ACK} ==> exists i | 0 <= i < |s.clients| ::
      && s.clients[i].status == Connected
      && p.seqNum == Add32(s.clients[i].sock.tx.initSeqNum, 1) && p.ackNum == Add32(s.clients[i].sock.rx.remoteISN, 1)
  }

  // A client that is connected agrees with a socket some VAccept made for it.
  ghost predicate ClientOk(s: Calls, c: Party) {
    && (c.status == Connected <==> c.sock.connState == ESTABLISHED)
    && (c.status == Connected ==> exists j | 0 <= j < |s.servers| :: Agree(c.sock, s.servers[j].sock))
  }

  // A server that is connected agrees with a connected client.
  ghost predicate ServerOk(s: Calls, v: Party) {
    && v.sock.rx.nextExpectedByte == 1
    && (v.status == Connected <==> v.sock.connState == ESTABLISHED)
    && IsClient(s, v.sock.rx.remoteISN)
    && (v.status == Connected ==>
          exists i | 0 <= i < |s.clients| :: s.clients[i].status == Connected && Agree(s.clients[i].sock, v.sock))
  }

  ghost predicate CallsOk(s: Calls) {
    && (forall p | p in s.toServers :: SynOk(s, p) && FinalAckOk(s, p))
    && (forall p | p in s.toClients :: SynAckOk(s, p))
    && (forall c | c in s.clients :: ClientOk(s, c))
    && (forall v | v in s.servers :: ServerOk(s, v))
  }

  // Sockets are never forgotten and never change their numbers once connected.
  ghost predicate Grows(s: Calls, s': Calls) {
    && |s.clients| <= |s'.clients| && |s.servers| <= |s'.servers|
    && (forall i | 0 <= i < |s.clients| ::
          && s'.clients[i].sock.tx.initSeqNum == s.clients[i].sock.tx.initSeqNum
          && (s.clients[i].status == Connected ==> s'.clients[i] == s.clients[i]))
    && (forall j | 0 <= j < |s.servers| ::
          && s'.servers[j].sock.tx.initSeqNum == s.servers[j].sock.tx.initSeqNum
          && s'.servers[j].sock.rx == s.servers[j].sock.rx)
  }

  lemma ClientGrows(s: Calls, s': Calls, c: Party)
    requires Grows(s, s') && ClientOk(s, c)
    ensures ClientOk(s', c)
  {
    if c.status == Connected {
      var j :| 0 <= j < |s.servers| && Agree(c.sock, s.servers[j].sock);
      assert Agree(c.sock, s'.servers[j].sock);
    }
  }

  lemma ServerGrows(s: Calls, s': Calls, v: Party)
    requires Grows(s, s') && ServerOk(s, v)
    ensures ServerOk(s', v)
  {
    var i :| 0 <= i < |s.clients| && s.clients[i].sock.tx.initSeqNum == v.sock.rx.remoteISN;
    assert s'.clients[i].sock.tx.initSeqNum == v.sock.rx.remoteISN;
    if v.status == Connected {
      var k :| 0 <= k < |s.clients| && s.clients[k].status == Connected && Agree(s.clients[k].sock, v.sock);
      assert s'.clients[k] == s.clients[k];
    }
  }

  lemma PacketsGrow(s: Calls, s': Calls, p: Packet)
    requires Grows(s, s')
    ensures SynOk(s, p) ==> SynOk(s', p)
    ensures FinalAckOk(s, p) ==> FinalAckOk(s', p)
    ensures SynAckOk(s, p) ==> SynAckOk(s', p)
  {
    if SynOk(s, p) && p.flags == {SYN} {
      var i :| 0 <= i < |s.clients| && s.clients[i].sock.tx.initSeqNum == p.seqNum;
      assert s'.clients[i].sock.tx.initSeqNum == p.seqNum;
    }
    if FinalAckOk(s, p) && p.flags == {ACK} {
      var i :| 0 <= i < |s.clients| && s.clients[i].status == Connected
        && p.seqNum == Add32(s.clients[i].sock.tx.initSeqNum, 1)
        && p.ackNum == Add32(s.clients[i].sock.rx.remoteISN, 1);
      assert s'.clients[i] == s.clients[i];
    }
    if SynAckOk(s, p) {
      var i :| 0 <= i < |s.servers|
        && p.seqNum == s.servers[i].sock.tx.initSeqNum && p.ackNum == Add32(s.servers[i].sock.rx.remoteISN, 1);
      assert s'.servers[i].sock.rx == s.servers[i].sock.rx;
    }
  }

  // What was in order stays so; only what is new has to be looked at.
  lemma GrowthKeeps(s: Calls, s': Calls)
    requires CallsOk(s) && Grows(s, s')
    requires forall p | p in s'.toServers && p !in s.toServers :: SynOk(s', p) && FinalAckOk(s', p)
    requires forall p | p in s'.toClients && p !in s.toClients :: SynAckOk(s', p)
    requires forall c | c in s'.clients && c !in s.clients :: ClientOk(s', c)
    requires forall v | v in s'.servers && v !in s.servers :: ServerOk(s', v)
    ensures CallsOk(s')
  {
    forall p | p in s'.toServers ensures SynOk(s', p) && FinalAckOk(s', p) { PacketsGrow(s, s', p); }
    forall p | p in s'.toClients ensures SynAckOk(s', p) { PacketsGrow(s, s', p); }
    forall c | c in s'.clients ensures ClientOk(s', c) { if c in s.clients { ClientGrows(s, s', c); } }
    forall v | v in s'.servers ensures ServerOk(s', v) { if v in s.servers { ServerGrows(s, s', v); } }
  }

  lemma ConnectKeeps(s: Calls, s': Calls)
    requires CallsOk(s) && NewConnect(s, s')
    ensures CallsOk(s')
  {
    var n := |s.clients|;
    assert IsClient(s', s'.clients[n].sock.tx.initSeqNum);
    GrowthKeeps(s, s');
  }

  lemma AcceptKeeps(s: Calls, s': Calls)
    requires CallsOk(s) && NewAccept(s, s')
    ensures CallsOk(s')
  {
    var p: Packet, isn: U32 :| p in s.toServers && AcceptSyn(p, isn).Some?
      && s' == s.(servers := s.servers + [Party(AcceptSyn(p, isn).value.0, Waiting)],
                  toClients := s.toClients + {AcceptSyn(p, isn).value.1});
    assert SynOk(s, p);
    PacketsGrow(s, s', p);
    assert s'.servers[|s.servers|].sock == AcceptSyn(p, isn).value.0;
    GrowthKeeps(s, s');
  }

  lemma ReplyAgrees(s: Calls, c: Sock, p: Packet)
    requires SynAckOk(s, p) && ConnectReply(c, p).Some? && forall v | v in s.servers :: ServerOk(s, v)
    ensures exists j | 0 <= j < |s.servers| :: Agree(ConnectReply(c, p).value.0, s.servers[j].sock)
  {
    var j :| 0 <= j < |s.servers|
      && p.seqNum == s.servers[j].sock.tx.initSeqNum && p.ackNum == Add32(s.servers[j].sock.rx.remoteISN, 1);
    assert ServerOk(s, s.servers[j]);
    assert Agree(ConnectReply(c, p).value.0, s.servers[j].sock);
  }

  lemma ConnectSucceeds(s: Calls, i: nat, p: Packet)
    requires CallsOk(s) && i < |s.clients| && s.clients[i].status == Waiting && p in s.toClients
    requires ConnectReply(s.clients[i].sock, p).Some?
    ensures var (sock, ack) := ConnectReply(s.clients[i].sock, p).value;
      CallsOk(s.(clients := s.clients[i := Party(sock, Connected)], toServers := s.toServers + {ack}))
  {
    var (sock, ack) := ConnectReply(s.clients[i].sock, p).value;
    var s' := s.(clients := s.clients[i := Party(sock, Connected)], toServers := s.toServers + {ack});
    ReplyAgrees(s, s.clients[i].sock, p);
    assert ClientOk(s', Party(sock, Connected));
    assert s'.clients[i].status == Connected;
    assert FinalAckOk(s', ack);
    GrowthKeeps(s, s');
  }

  lemma ConnectFails(s: Calls, i: nat)
    requires CallsOk(s) && i < |s.clients| && s.clients[i].status == Waiting
    ensures CallsOk(s.(clients := s.clients[i := s.clients[i].(status := Failed)]))
  {
    assert ClientOk(s, s.clients[i]);
    GrowthKeeps(s, s.(clients := s.clients[i := s.clients[i].(status := Failed)]));
  }

  lemma ConnectReplyKeeps(s: Calls, s': Calls)
    requires CallsOk(s) && ConnectReceives(s, s')
    ensures CallsOk(s')
  {
    var i: nat, p: Packet :| i < |s.clients| && s.clients[i].status == Waiting && p in s.toClients
      && s' == (match ConnectReply(s.clients[i].sock, p)
                case Some((sock, ack)) =>
                  s.(clients := s.clients[i := Party(sock, Connected)], toServers := s.toServers + {ack})
                case None => s.(clients := s.clients[i := s.clients[i].(status := Failed)]));
    if ConnectReply(s.clients[i].sock, p).Some? {
      ConnectSucceeds(s, i, p);
    } else {
      ConnectFails(s, i);
    }
  }

  lemma AcceptSucceeds(s: Calls, i: nat, p: Packet)
    requires CallsOk(s) && i < |s.servers| && s.servers[i].status == Waiting && p in s.toServers
    requires AcceptReply(s.servers[i].sock, p).Some?
    ensures CallsOk(s.(servers := s.servers[i := Party(AcceptReply(s.servers[i].sock, p).value, Connected)]))
  {
    var v := Party(AcceptReply(s.servers[i].sock, p).value, Connected);
    var s' := s.(servers := s.servers[i := v]);
    assert ServerOk(s, s.servers[i]) && FinalAckOk(s, p);
    var k :| 0 <= k < |s.clients| && s.clients[k].status == Connected
      && p.seqNum == Add32(s.clients[k].sock.tx.initSeqNum, 1) && p.ackNum == Add32(s.clients[k].sock.rx.remoteISN, 1);
    assert ClientOk(s, s.clients[k]);
    assert Agree(s'.clients[k].sock, v.sock);
    assert IsClient(s', v.sock.rx.remoteISN);
    assert ServerOk(s', v);
    GrowthKeeps(s, s');
  }

  lemma AcceptFails(s: Calls, i: nat)
    requires CallsOk(s) && i < |s.servers| && s.servers[i].status == Waiting
    ensures CallsOk(s.(servers := s.servers[i := s.servers[i].(status := Failed)]))
  {
    var v := s.servers[i].(status := Failed);
    var s' := s.(servers := s.servers[i := v]);
    assert ServerOk(s, s.servers[i]);
    assert IsClient(s', v.sock.rx.remoteISN);
    GrowthKeeps(s, s');
  }

  lemma AcceptReplyKeeps(s: Calls, s': Calls)
    requires CallsOk(s) && AcceptReceives(s, s')
    ensures CallsOk(s')
  {
    var i: nat, p: Packet :| i < |s.servers| && s.servers[i].status == Waiting && p in s.toServers
      && s' == s.(servers := s.servers[i := match AcceptReply(s.servers[i].sock, p)
                                            case Some(sock) => Party(sock, Connected)
                                            case None => s.servers[i].(status := Failed)]);
    if AcceptReply(s.servers[i].sock, p).Some? {
      AcceptSucceeds(s, i, p);
    } else {
      AcceptFails(s, i);
    }
  }

  ghost predicate IsCallRun(run: seq<Calls>) {
    && run != [] && run[0] == Calls([], [], {}, {})
    && forall i | 0 <= i < |run| - 1 :: CallStep(run[i], run[i + 1])
  }

  lemma {:induction false} CallRunOk(run: seq<Calls>, i: nat)
    requires IsCallRun(run) && i < |run|
    ensures CallsOk(run[i])
  {
    if i > 0 {
      CallRunOk(run, i - 1);
      var s, s' := run[i - 1], run[i];
      assert CallStep(s, s');
      if NewConnect(s, s') { ConnectKeeps(s, s'); }
      else if NewAccept(s, s') { AcceptKeeps(s, s'); }
      else if ConnectReceives(s, s') { ConnectReplyKeeps(s, s'); }
      else { AcceptReplyKeeps(s, s'); }
    }
  }

  // No two sockets chose the same initial sequence number.
  ghost predicate DistinctNumbers(s: Calls) {
    && (forall i, j | 0 <= i < j < |s.clients| :: s.clients[i].sock.tx.initSeqNum != s.clients[j].sock.tx.initSeqNum)
    && (forall i, j | 0 <= i < j < |s.servers| :: s.servers[i].sock.tx.initSeqNum != s.servers[j].sock.tx.initSeqNum)
  }

  /** Agreement: every ESTABLISHED end has a peer socket that recorded its number and whose number
      it recorded, both starting at byte 1; with distinct numbers that peer is the only one whose
      number it recorded. An ESTABLISHED server's peer is itself ESTABLISHED. */
  lemma HandshakeAgreement(run: seq<Calls>, i: nat)
    requires IsCallRun(run) && i < |run|
    ensures forall c | c in run[i].clients && c.sock.connState == ESTABLISHED ::
      exists j | 0 <= j < |run[i].servers| :: Agree(c.sock, run[i].servers[j].sock)
    ensures forall v | v in run[i].servers && v.sock.connState == ESTABLISHED ::
      exists j | 0 <= j < |run[i].clients| ::
        run[i].clients[j].sock.connState == ESTABLISHED && Agree(run[i].clients[j].sock, v.sock)
    ensures DistinctNumbers(run[i]) ==> forall c, j, k |
      c in run[i].clients && 0 <= j < |run[i].servers| && 0 <= k < |run[i].servers|
      && Agree(c.sock, run[i].servers[j].sock) && Agree(c.sock, run[i].servers[k].sock) :: j == k
  {
    CallRunOk(run, i);
    var s := run[i];
    forall c | c in s.clients && c.sock.connState == ESTABLISHED
      ensures exists j | 0 <= j < |s.servers| :: Agree(c.sock, s.servers[j].sock)
    {
      assert ClientOk(s, c);
    }
    forall v | v in s.servers && v.sock.connState == ESTABLISHED
      ensures exists j | 0 <= j < |s.clients| ::
        s.clients[j].sock.connState == ESTABLISHED && Agree(s.clients[j].sock, v.sock)
    {
      assert ServerOk(s, v);
      var j :| 0 <= j < |s.clients| && s.clients[j].status == Connected && Agree(s.clients[j].sock, v.sock);
      assert ClientOk(s, s.clients[j]);
    }
  }
}
