/** A call of one stack leaves the other as it was. */
module Locality {
  import opened Wrappers
  import opened Bytes
  import opened Qtls
  import opened Link
  import opened Sessions
  import opened SessionInvariant
  import opened SessionRuns

  /** Table, counters, ports and keys of node `r`. */
  ghost predicate NodeKept(w: World, w': World, r: Role) { w'.At(r) == w.At(r) && w'.net.Keys(r) == w.net.Keys(r) }

  lemma KeptThrough(w: World, w1: World, w2: World, r: Role)
    requires NodeKept(w, w1, r) && NodeKept(w1, w2, r)
    ensures NodeKept(w, w2, r)
  {}

  lemma NetEventKeeps(supply: seq<seq<byte>>, w: World, e: Event)
    ensures NodeKept(w, w.(net := Link.Next(supply, w.net, e)), Peer(e.node))
  {
    hide SealLane, OpenLane, DepositBlock, WipeKeys;
  }

  lemma SlotKeeps(w: World, r: Role, i: nat, x: Session, hist: seq<Hist>)
    requires i < MAX_SESSIONS
    ensures NodeKept(w, w.WithSlot(r, i, x).(hist := hist), Peer(r)) && NodeKept(w, w.WithSlot(r, i, x), Peer(r))
  {}

  lemma SendRecordKeepsPeer(supply: seq<seq<byte>>, w: World, r: Role, i: nat, t: ContentType, data: seq<byte>,
                            arp: bool, dev: bool)
    requires i < MAX_SESSIONS
    ensures NodeKept(w, Sessions.SendRecord(supply, w, r, i, t, data, arp, dev), Peer(r))
  {
    hide Link.Next;
    NetEventKeeps(supply, w, SealAt(r, t, w.Slot(r, i).id, data));
  }

  lemma ConnectKeepsPeer(supply: seq<seq<byte>>, w: World, r: Role, port: U16, arp: bool, dev: bool)
    ensures NodeKept(w, Connect(supply, w, r, port, arp, dev), Peer(r))
  {
    hide SendRecord;
    var st := w.At(r);
    var i := FindFree(st.sessions, 0);
    if arp && i < MAX_SESSIONS {
      var id := st.nextSession;
      var local: U16 := EPHEMERAL_BASE + id % 16384;
      var x := Session(HelloSent, id, port, local, true, [], |w.hist|);
      var w1 := w.With(r, st.(sessions := st.sessions[i := x], nextSession := NextId(id)))
                 .(hist := w.hist + [Hist(r, local, port, id, true, 0, [], [])]);
      SendRecordKeepsPeer(supply, w1, r, i, Hello, [], arp, dev);
    }
  }

  lemma CloseKeepsPeer(supply: seq<seq<byte>>, w: World, r: Role, i: nat, arp: bool, dev: bool)
    ensures NodeKept(w, Sessions.Close(supply, w, r, i, arp, dev), Peer(r))
  {
    hide SendRecord;
    if i < MAX_SESSIONS { SendRecordKeepsPeer(supply, w, r, i, ContentType.Close, [], arp, dev); }
  }

  lemma AdmitKeepsPeer(supply: seq<seq<byte>>, w: World, r: Role, k: nat, sport: U16, dport: U16, id: U16, arp: bool,
                       dev: bool)
    ensures NodeKept(w, Admit(supply, w, r, k, sport, dport, id, arp, dev), Peer(r))
  {
    hide SendRecord;
    var i := FindFree(w.At(r).sessions, 0);
    if i < MAX_SESSIONS {
      var x := Session(Established, id, sport, dport, false, [], |w.hist|);
      var hist := w.hist + [Hist(r, dport, sport, id, false, k, [], [])];
      SlotKeeps(w, r, i, x, hist);
      SendRecordKeepsPeer(supply, w.WithSlot(r, i, x).(hist := hist), r, i, HelloAck, [], arp, dev);
    }
  }

  lemma ArriveKeepsPeer(w: World, r: Role, i: nat, k: nat, t: ContentType, pt: seq<byte>)
    requires i < MAX_SESSIONS
    ensures NodeKept(w, Arrive(w, r, i, k, t, pt), Peer(r))
  {}

  lemma HandleKeepsPeer(supply: seq<seq<byte>>, w: World, r: Role, k: nat, arp: bool, dev: bool)
    ensures NodeKept(w, Handle(supply, w, r, k, arp, dev), Peer(r))
  {
    hide Link.Next, Admit, Arrive, ParseHeader, FindSession, NodeKept;
    SelfKept(w, Peer(r));
    NetEventKeeps(supply, w, DeliverTo(r, k));
    NotSealed(supply, w.net, DeliverTo(r, k));
    var w1 := w.(net := Link.Next(supply, w.net, DeliverTo(r, k)));
    if k < |w.net.sent| && k < |w.wires| && ParseHeader(w.net.sent[k].rec).Ok? && |w1.net.got| != |w.net.got| {
      var hdr := ParseHeader(w.net.sent[k].rec).value;
      var got := w1.net.got[|w1.net.got| - 1];
      var i := FindSession(w.At(r).sessions, w.wires[k].sport, w.wires[k].dport, hdr.sessionId, 0);
      AdmitKeepsPeer(supply, w1, r, k, w.wires[k].sport, w.wires[k].dport, hdr.sessionId, arp, dev);
      KeptThrough(w, w1, Admit(supply, w1, r, k, w.wires[k].sport, w.wires[k].dport, hdr.sessionId, arp, dev), Peer(r));
      if i < MAX_SESSIONS {
        ArriveKeepsPeer(w1, r, i, k, got.hdr.ctype, got.pt);
        KeptThrough(w, w1, Arrive(w1, r, i, k, got.hdr.ctype, got.pt), Peer(r));
      }
    }
  }

  lemma SelfKept(w: World, r: Role)
    ensures NodeKept(w, w, r)
  {}

  lemma {:induction false} WipeQueuesKeepPeer(w: World, r: Role, n: nat)
    requires n <= MAX_SESSIONS
    ensures NodeKept(w, WipeQueues(w, r, n), Peer(r))
    decreases n
  {
    if n > 0 { WipeQueuesKeepPeer(w, r, n - 1); }
  }

  lemma WipeKeepsPeer(supply: seq<seq<byte>>, w: World, r: Role)
    ensures NodeKept(w, WipeStack(supply, w, r), Peer(r))
  {
    hide Link.Next, WipeQueues;
    NetEventKeeps(supply, w, WipeAt(r));
    WipeQueuesKeepPeer(w.(net := Link.Next(supply, w.net, WipeAt(r))), r, MAX_SESSIONS);
  }

  /** A call at one node leaves the other as it was: its table, counters, ports and keys. */
  lemma PeerUntouched(supply: seq<seq<byte>>, w: World, c: Call)
    ensures NodeKept(w, Step(supply, w, c), Peer(c.r))
  {
    hide NodeKept, Listen, Connect, Accept, Send, Recv, Sessions.Close, Handle, WipeStack, Link.Next;
    match c
    case DoConnect(r, port, arp, dev) => ConnectKeepsPeer(supply, w, r, port, arp, dev);
    case DoSend(r, i, data, arp, dev) => SendKeepsPeer(supply, w, r, i, data, arp, dev);
    case DoClose(r, i, arp, dev) => CloseKeepsPeer(supply, w, r, i, arp, dev);
    case DoDeliver(r, k, arp, dev) => HandleKeepsPeer(supply, w, r, k, arp, dev);
    case DoDeposit(r) => NetEventKeeps(supply, w, DepositAt(r));
    case DoWipe(r) => WipeKeepsPeer(supply, w, r);
    case DoListen(r, port) => ListenKeepsPeer(w, r, port);
    case DoAccept(r, port) => AcceptKeepsPeer(w, r, port);
    case DoRecv(r, i, room) => RecvKeepsPeer(w, r, i, room);
  }

  lemma SendKeepsPeer(supply: seq<seq<byte>>, w: World, r: Role, i: nat, data: seq<byte>, arp: bool, dev: bool)
    ensures NodeKept(w, Send(supply, w, r, i, data, arp, dev), Peer(r))
  {
    hide SendRecord;
    if i < MAX_SESSIONS { SendRecordKeepsPeer(supply, w, r, i, Data, Clip(data), arp, dev); }
  }

  lemma ListenKeepsPeer(w: World, r: Role, port: U16)
    ensures NodeKept(w, Listen(w, r, port), Peer(r))
  {
    hide FirstZero;
  }

  lemma AcceptKeepsPeer(w: World, r: Role, port: U16)
    ensures NodeKept(w, Accept(w, r, port), Peer(r))
  {
    hide FindPending;
  }

  lemma RecvKeepsPeer(w: World, r: Role, i: nat, room: nat)
    ensures NodeKept(w, Recv(w, r, i, room), Peer(r))
  {}
}
