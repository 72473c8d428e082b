/** Whole runs of the two stacks: who is who, message order, and who established what. */
module SessionRuns {
  import opened Wrappers
  import opened Bytes
  import opened KeyLane
  import opened Qtls
  import opened Link
  import opened Sessions
  import opened SessionInvariant

  // ---------- what one call can add ----------

  /** At most one record is sealed: at node `r`, of type `t`, by instance `inst`, carrying `pt`; `dev`
      says whether it reaches the channel. */
  ghost predicate Seals(w: World, w': World, r: Role, t: ContentType, inst: nat, pt: seq<byte>, dev: bool)
  {
    || (w'.wires == w.wires && w'.net.sent == w.net.sent)
    || (&& |w'.wires| == |w.wires| + 1 && w'.wires[..|w.wires|] == w.wires && w'.wires[|w.wires|].inst == inst
        && w'.wires[|w.wires|].shipped == dev
        && |w'.net.sent| == |w.net.sent| + 1 && w'.net.sent[..|w.net.sent|] == w.net.sent
        && w'.net.sent[|w.net.sent|].from == r && w'.net.sent[|w.net.sent|].hdr.ctype == t
        && w'.net.sent[|w.net.sent|].pt == pt)
  }

  ghost predicate Silent(w: World, w': World) { w'.wires == w.wires && w'.net.sent == w.net.sent }

  /** Listening ports and id counters stay. */
  ghost predicate Fronts(w: World, w': World)
  {
    forall r: Role :: w'.At(r).listen == w.At(r).listen && w'.At(r).nextSession == w.At(r).nextSession
  }

  ghost predicate NewClient(w: World, w': World, r: Role, port: U16)
  {
    var id := w.At(r).nextSession;
    && w'.hist == w.hist + [Hist(r, EPHEMERAL_BASE + id % 16384, port, id, true, 0, [], [])]
    && w'.At(r).nextSession == NextId(id) && w'.At(r).listen == w.At(r).listen
    && w'.At(Peer(r)).nextSession == w.At(Peer(r)).nextSession && w'.At(Peer(r)).listen == w.At(Peer(r)).listen
  }

  /** A server instance for Hello `k`, which was never opened before. */
  ghost predicate NewServer(w: World, w': World, r: Role, k: nat)
  {
    && k < |w.wires| && k < |w.net.sent| && w.wires[k].dport in w.At(r).listen
    && w'.hist == w.hist + [Hist(r, w.wires[k].dport, w.wires[k].sport, w.net.sent[k].hdr.sessionId, false, k, [], [])]
    && forall j :: 0 <= j < |w.net.got| && w.net.got[j].node == r ==> w.net.got[j].idx < k
  }

  ghost predicate Shape(w: World, w': World, c: Call)
  {
    match c
    case DoListen(r, port) =>
      && Silent(w, w') && w'.hist == w.hist
      && forall q: Role ::
           w'.At(q).nextSession == w.At(q).nextSession
           && forall p :: p in w'.At(q).listen ==> p in w.At(q).listen || (q == r && p == port)
    case DoConnect(r, port, _, dev) =>
      w' == w || (Seals(w, w', r, Hello, |w.hist|, [], dev) && NewClient(w, w', r, port))
    case DoSend(r, i, data, _, dev) =>
      Fronts(w, w') && w'.hist == w.hist
      && if i < MAX_SESSIONS && w.Slot(r, i).state == Established
         then Seals(w, w', r, Data, w.Slot(r, i).inst, Clip(data), dev)
         else w' == w
    case DoClose(r, i, _, dev) =>
      Fronts(w, w') && w'.hist == w.hist
      && if i < MAX_SESSIONS then Seals(w, w', r, ContentType.Close, w.Slot(r, i).inst, [], dev) else w' == w
    case DoDeliver(r, k, _, dev) =>
      Fronts(w, w') && Seals(w, w', r, HelloAck, |w.hist|, [], dev) && (|w'.hist| == |w.hist| || NewServer(w, w', r, k))
    case _ => Fronts(w, w') && Silent(w, w') && |w'.hist| == |w.hist|
  }

  lemma SendRecordShape(supply: seq<seq<byte>>, w: World, r: Role, i: nat, t: ContentType, data: seq<byte>,
                        arp: bool, dev: bool)
    requires i < MAX_SESSIONS && |w.wires| == |w.net.sent|
    ensures var w' := SendRecord(supply, w, r, i, t, data, arp, dev);
            Seals(w, w', r, t, w.Slot(r, i).inst, data, dev) && w'.a == w.a && w'.b == w.b && w'.hist == w.hist
  {
    hide Link.Next;
    SealAppends(supply, w.net, r, t, w.Slot(r, i).id, data);
  }

  lemma ConnectShape(supply: seq<seq<byte>>, w: World, r: Role, port: U16, arp: bool, dev: bool)
    requires |w.wires| == |w.net.sent|
    ensures Shape(w, Connect(supply, w, r, port, arp, dev), DoConnect(r, port, arp, dev))
  {
    hide SendRecord;
    var st := w.At(r);
    var i := FindFree(st.sessions, 0);
    if arp && i < MAX_SESSIONS {
      var id := st.nextSession;
      var local: U16 := EPHEMERAL_BASE + id % 16384;
      var x := Session(HelloSent, id, port, local, true, [], |w.hist|);
      var w1 := w.With(r, st.(sessions := st.sessions[i := x], nextSession := NextId(id)))
                 .(hist := w.hist + [Hist(r, local, port, id, true, 0, [], [])]);
      SendRecordShape(supply, w1, r, i, Hello, [], arp, dev);
    }
  }

  lemma CloseShape(supply: seq<seq<byte>>, w: World, r: Role, i: nat, arp: bool, dev: bool)
    requires |w.wires| == |w.net.sent|
    ensures Shape(w, Sessions.Close(supply, w, r, i, arp, dev), DoClose(r, i, arp, dev))
  {
    hide SendRecord;
    if i < MAX_SESSIONS && w.Slot(r, i).state == Established {
      SendRecordShape(supply, w, r, i, ContentType.Close, [], arp, dev);
    }
  }

  lemma SendShape(supply: seq<seq<byte>>, w: World, r: Role, i: nat, data: seq<byte>, arp: bool, dev: bool)
    requires |w.wires| == |w.net.sent|
    ensures Shape(w, Send(supply, w, r, i, data, arp, dev), DoSend(r, i, data, arp, dev))
  {
    hide SendRecord;
    if i < MAX_SESSIONS && w.Slot(r, i).state == Established {
      SendRecordShape(supply, w, r, i, Data, Clip(data), arp, dev);
    }
  }

  lemma ListenShape(w: World, r: Role, port: U16)
    ensures Shape(w, Listen(w, r, port), DoListen(r, port))
  {
    hide FirstZero;
  }

  lemma {:induction false} WipeQueuesShape(w: World, r: Role, n: nat)
    requires n <= MAX_SESSIONS
    ensures var w' := WipeQueues(w, r, n); Fronts(w, w') && Silent(w, w') && |w'.hist| == |w.hist|
    decreases n
  {
    if n > 0 { WipeQueuesShape(w, r, n - 1); }
  }

  lemma AdmitShape(supply: seq<seq<byte>>, w: World, r: Role, k: nat, sport: U16, dport: U16, id: U16, arp: bool,
                   dev: bool)
    requires |w.wires| == |w.net.sent|
    ensures var w' := Admit(supply, w, r, k, sport, dport, id, arp, dev);
            && Fronts(w, w') && Seals(w, w', r, HelloAck, |w.hist|, [], dev)
            && (w'.hist == w.hist || w'.hist == w.hist + [Hist(r, dport, sport, id, false, k, [], [])])
  {
    hide SendRecord;
    var i := FindFree(w.At(r).sessions, 0);
    if i < MAX_SESSIONS {
      var x := Session(Established, id, sport, dport, false, [], |w.hist|);
      var w1 := w.WithSlot(r, i, x).(hist := w.hist + [Hist(r, dport, sport, id, false, k, [], [])]);
      SendRecordShape(supply, w1, r, i, HelloAck, [], arp, dev);
    }
  }

  lemma ArriveShape(w: World, r: Role, i: nat, k: nat, t: ContentType, pt: seq<byte>)
    requires i < MAX_SESSIONS
    ensures var w' := Arrive(w, r, i, k, t, pt); Fronts(w, w') && Silent(w, w') && |w'.hist| == |w.hist|
  {}

  lemma NeverOpenedBefore(supply: seq<seq<byte>>, net: Sys, r: Role, k: nat)
    requires Link.Inv(supply, net) && Fits(supply) && k < |net.sent| && net.sent[k].from == Peer(r)
    requires Link.Next(supply, net, DeliverTo(r, k)) != net
    ensures forall j :: 0 <= j < |net.got| && net.got[j].node == r ==> net.got[j].idx < k
  {
    hide Link.Inv, Link.Next;
    DeliverAppends(supply, net, r, k);
    StepKeepsInv(supply, net, DeliverTo(r, k));
    DeliveredLast(supply, Link.Next(supply, net, DeliverTo(r, k)), r, k, net.got,
                  Got(r, k, net.sent[k].hdr, net.sent[k].pt));
  }

  /** Opening a record changes neither the records nor the fronts. */
  lemma AfterOpening(w: World, w1: World, w': World, q: Role, t: ContentType, inst: nat, pt: seq<byte>, dev: bool)
    requires w1 == w.(net := w1.net) && w1.net.sent == w.net.sent && Fronts(w1, w')
    requires Seals(w1, w', q, t, inst, pt, dev)
    ensures Fronts(w, w') && Seals(w, w', q, t, inst, pt, dev)
  {
    forall r: Role ensures w'.At(r).listen == w.At(r).listen && w'.At(r).nextSession == w.At(r).nextSession {
      assert w1.At(r) == w.At(r);
    }
  }

  lemma ServerShape(w: World, w': World, r: Role, k: nat, arp: bool, dev: bool)
    requires k < |w.net.sent| && k < |w.wires| && w.wires[k].dport in w.At(r).listen
    requires Fronts(w, w') && Seals(w, w', r, HelloAck, |w.hist|, [], dev)
    requires var h := Hist(r, w.wires[k].dport, w.wires[k].sport, w.net.sent[k].hdr.sessionId, false, k, [], []);
             w'.hist == w.hist || w'.hist == w.hist + [h]
    requires forall j :: 0 <= j < |w.net.got| && w.net.got[j].node == r ==> w.net.got[j].idx < k
    ensures Shape(w, w', DoDeliver(r, k, arp, dev))
  {
    hide Fronts, Seals;
  }

  lemma PeerRecord(w: World, r: Role, k: nat)
    requires FromPeer(w, r, k)
    ensures k < |w.net.sent| && k < |w.wires| && w.net.sent[k].from == Peer(r)
  {}

  /** A Hello for a listening port, opened. */
  lemma HelloShape(supply: seq<seq<byte>>, w: World, r: Role, k: nat, arp: bool, dev: bool)
    requires WorldInv(supply, w) && Fits(supply) && FromPeer(w, r, k)
    requires Link.Next(supply, w.net, DeliverTo(r, k)) != w.net && w.wires[k].dport in w.At(r).listen
    ensures var w1 := w.(net := Link.Next(supply, w.net, DeliverTo(r, k)));
            var id := w.net.sent[k].hdr.sessionId;
            var w' := Admit(supply, w1, r, k, w.wires[k].sport, w.wires[k].dport, id, arp, dev);
            Shape(w, w', DoDeliver(r, k, arp, dev))
  {
    hide *;
    InvNet(supply, w);
    PeerRecord(w, r, k);
    NotSealed(supply, w.net, DeliverTo(r, k));
    NeverOpenedBefore(supply, w.net, r, k);
    var w1 := w.(net := Link.Next(supply, w.net, DeliverTo(r, k)));
    var sport, dport, id := w.wires[k].sport, w.wires[k].dport, w.net.sent[k].hdr.sessionId;
    AdmitShape(supply, w1, r, k, sport, dport, id, arp, dev);
    AfterOpening(w, w1, Admit(supply, w1, r, k, sport, dport, id, arp, dev), r, HelloAck, |w.hist|, [], dev);
    ServerShape(w, Admit(supply, w1, r, k, sport, dport, id, arp, dev), r, k, arp, dev);
  }

  lemma ArrivalShape(supply: seq<seq<byte>>, w: World, r: Role, i: nat, k: nat, t: ContentType, pt: seq<byte>,
                     arp: bool, dev: bool)
    requires i < MAX_SESSIONS
    ensures var w1 := w.(net := Link.Next(supply, w.net, DeliverTo(r, k)));
            Shape(w, Arrive(w1, r, i, k, t, pt), DoDeliver(r, k, arp, dev))
  {
    hide Link.Next, Arrive;
    NotSealed(supply, w.net, DeliverTo(r, k));
    ArriveShape(w.(net := Link.Next(supply, w.net, DeliverTo(r, k))), r, i, k, t, pt);
  }

  lemma StillShape(w: World, r: Role, k: nat, arp: bool, dev: bool)
    ensures Shape(w, w, DoDeliver(r, k, arp, dev))
  {}

  lemma HandleShape(supply: seq<seq<byte>>, w: World, r: Role, k: nat, arp: bool, dev: bool)
    requires WorldInv(supply, w) && Fits(supply)
    ensures Shape(w, Handle(supply, w, r, k, arp, dev), DoDeliver(r, k, arp, dev))
  {
    StillShape(w, r, k, arp, dev);
    hide Shape, WorldInv, Link.Next, Admit, Arrive;
    if FromPeer(w, r, k) {
      HandleIs(supply, w, r, k, arp, dev);
      hide Handle;
      var h := w.net.sent[k].hdr;
      var i := FindSession(w.At(r).sessions, w.wires[k].sport, w.wires[k].dport, h.sessionId, 0);
      if Link.Next(supply, w.net, DeliverTo(r, k)) != w.net {
        if i < MAX_SESSIONS {
          ArrivalShape(supply, w, r, i, k, h.ctype, w.net.sent[k].pt, arp, dev);
        } else if h.ctype == Hello && w.wires[k].dport in w.At(r).listen {
          HelloShape(supply, w, r, k, arp, dev);
        }
      }
    }
  }

  lemma QuietShape(supply: seq<seq<byte>>, w: World, c: Call)
    requires c.DoAccept? || c.DoRecv? || c.DoDeposit? || c.DoWipe?
    ensures Shape(w, Step(supply, w, c), c)
  {
    hide Link.Next, WipeQueues;
    match c
    case DoWipe(r) =>
      NotSealed(supply, w.net, WipeAt(r));
      WipeQueuesShape(w.(net := Link.Next(supply, w.net, WipeAt(r))), r, MAX_SESSIONS);
    case DoDeposit(r) => NotSealed(supply, w.net, DepositAt(r));
    case _ =>
  }

  lemma StepShape(supply: seq<seq<byte>>, w: World, c: Call)
    requires WorldInv(supply, w) && Fits(supply)
    ensures Shape(w, Step(supply, w, c), c)
  {
    InvNet(supply, w);
    hide WorldInv, Link.Next, Listen, Connect, Accept, Send, Recv, Sessions.Close, Handle, WipeStack, Shape;
    match c
    case DoListen(r, port) => ListenShape(w, r, port);
    case DoConnect(r, port, arp, dev) => ConnectShape(supply, w, r, port, arp, dev);
    case DoSend(r, i, data, arp, dev) => SendShape(supply, w, r, i, data, arp, dev);
    case DoClose(r, i, arp, dev) => CloseShape(supply, w, r, i, arp, dev);
    case DoDeliver(r, k, arp, dev) => HandleShape(supply, w, r, k, arp, dev);
    case _ => QuietShape(supply, w, c);
  }

  // ---------- who is who ----------

  ghost predicate LowPorts(w: World) { forall r: Role, p :: p in w.At(r).listen ==> p < EPHEMERAL_BASE }

  /** Clients use ephemeral ports and ids already handed out; servers use listening ports. */
  ghost predicate InRange(w: World, h: Hist)
  {
    if h.client then h.local >= EPHEMERAL_BASE && h.id < w.At(h.node).nextSession else h.local < EPHEMERAL_BASE
  }

  /** Of two instances of the same kind at the same node, the later has the later id or Hello. */
  ghost predicate Before(g: Hist, h: Hist)
  {
    g.node == h.node && g.client == h.client ==> if h.client then g.id < h.id else g.hello < h.hello
  }

  ghost predicate HelloOnce(w: World)
    requires |w.wires| == |w.net.sent|
  {
    forall j, k :: 0 <= j < k < |w.wires| && w.net.sent[j].hdr.ctype == Hello && w.net.sent[k].hdr.ctype == Hello ==>
      w.wires[j].inst != w.wires[k].inst
  }

  ghost predicate Distinct(w: World)
  {
    && LowPorts(w) && |w.wires| == |w.net.sent| && HelloOnce(w)
    && (forall n :: 0 <= n < |w.hist| ==> InRange(w, w.hist[n]))
    && (forall m, n :: 0 <= m < n < |w.hist| ==> Before(w.hist[m], w.hist[n]))
  }

  /** Servers listen below the ephemeral range and the id counter has not wrapped. */
  predicate Fair(w: World, c: Call)
  {
    match c
    case DoListen(_, port) => port < EPHEMERAL_BASE
    case DoConnect(r, _, _, _) => w.At(r).nextSession < 65535
    case _ => true
  }

  /** What a fair call does to the fronts and the table of instances. */
  ghost predicate Forward(w: World, w': World)
  {
    && (forall q: Role :: w.At(q).nextSession <= w'.At(q).nextSession)
    && (|w'.hist| == |w.hist|
        || (exists r, port :: NewClient(w, w', r, port) && w'.At(r).nextSession > w.At(r).nextSession)
        || exists r, k :: NewServer(w, w', r, k))
  }

  lemma ClientForward(w: World, w': World, r: Role, port: U16)
    requires NewClient(w, w', r, port) && w.At(r).nextSession < 65535
    ensures Forward(w, w')
  {
    assert NewClient(w, w', r, port) && w'.At(r).nextSession > w.At(r).nextSession;
    forall q: Role ensures w.At(q).nextSession <= w'.At(q).nextSession { assert q == r || q == Peer(r); }
  }

  lemma FairForward(w: World, w': World, c: Call)
    requires Shape(w, w', c) && Fair(w, c) && Extends(w, w')
    ensures Forward(w, w')
  {
    hide Extends, NewClient, NewServer, Seals;
    if c.DoConnect? && w' != w { ClientForward(w, w', c.r, c.port); }
    if c.DoDeliver? && |w'.hist| != |w.hist| { assert NewServer(w, w', c.r, c.k); }
  }

  lemma ClientPorts(w: World, w': World, r: Role, port: U16)
    requires NewClient(w, w', r, port) && LowPorts(w)
    ensures LowPorts(w')
  {
    forall q: Role, p | p in w'.At(q).listen ensures p < EPHEMERAL_BASE {
      assert q == r || q == Peer(r);
      assert p in w.At(q).listen;
    }
  }

  lemma PortsStayLow(w: World, w': World, c: Call)
    requires Shape(w, w', c) && Fair(w, c) && LowPorts(w)
    ensures LowPorts(w')
  {
    hide Seals, NewServer, NewClient;
    if c.DoConnect? {
      if w' != w { ClientPorts(w, w', c.r, c.port); }
    } else {
      forall q: Role, p | p in w'.At(q).listen ensures p < EPHEMERAL_BASE {
        assert p in w.At(q).listen || (c.DoListen? && p == c.port);
      }
    }
  }

  lemma RangesKeep(w: World, w': World, n: nat)
    requires Extends(w, w') && Forward(w, w') && LowPorts(w) && n < |w'.hist|
    requires forall m :: 0 <= m < |w.hist| ==> InRange(w, w.hist[m])
    ensures InRange(w', w'.hist[n])
  {
    if n < |w.hist| {
      assert SameConn(w.hist[n], w'.hist[n]) && InRange(w, w.hist[n]);
    }
  }

  lemma OrderKeeps(supply: seq<seq<byte>>, w: World, w': World, m: nat, n: nat)
    requires WorldInv(supply, w) && Extends(w, w') && Forward(w, w') && m < n < |w'.hist|
    requires forall i :: 0 <= i < |w.hist| ==> InRange(w, w.hist[i])
    requires forall i, j :: 0 <= i < j < |w.hist| ==> Before(w.hist[i], w.hist[j])
    ensures Before(w'.hist[m], w'.hist[n])
  {
    hide WorldInv;
    if n < |w.hist| {
      assert SameConn(w.hist[m], w'.hist[m]);
      assert SameConn(w.hist[n], w'.hist[n]) && Before(w.hist[m], w.hist[n]);
    } else if (exists r, port :: NewClient(w, w', r, port)) {
      assert InRange(w, w.hist[m]);
    } else {
      ServerLast(supply, w, w', m, n);
    }
  }

  lemma ServerLast(supply: seq<seq<byte>>, w: World, w': World, m: nat, n: nat)
    requires WorldInv(supply, w) && m < |w.hist| == n && exists r, k :: NewServer(w, w', r, k)
    ensures n < |w'.hist| && Before(w'.hist[m], w'.hist[n])
  {
    hide WorldInv;
    if !w.hist[m].client { HelloAccepted(supply, w, m); }
  }

  lemma HelloAccepted(supply: seq<seq<byte>>, w: World, m: nat)
    requires WorldInv(supply, w) && m < |w.hist| && !w.hist[m].client
    ensures exists j ::
              0 <= j < |w.net.got| && w.net.got[j].node == w.hist[m].node && w.net.got[j].idx == w.hist[m].hello
  {
    hide Link.Inv, RecordInv, SlotInv;
    assert HistInv(w, w.hist[m]);
  }

  lemma HelloStaysOnce(supply: seq<seq<byte>>, w: World, w': World, c: Call)
    requires WorldInv(supply, w) && Shape(w, w', c) && |w.wires| == |w.net.sent| && |w'.wires| == |w'.net.sent|
    requires HelloOnce(w)
    ensures HelloOnce(w')
  {
    hide Link.Inv, HistInv, SlotInv, NewServer, NewClient, Fronts;
    forall j, k | 0 <= j < k < |w'.wires| && w'.net.sent[j].hdr.ctype == Hello && w'.net.sent[k].hdr.ctype == Hello
      ensures w'.wires[j].inst != w'.wires[k].inst
    {
      assert RecordInv(w, j);
      assert w'.wires[..|w.wires|][j] == w.wires[j] && w'.net.sent[..|w.wires|][j] == w.net.sent[j];
      if k < |w.wires| {
        assert w'.wires[..|w.wires|][k] == w.wires[k] && w'.net.sent[..|w.wires|][k] == w.net.sent[k];
      }
    }
  }

  lemma StepKeepsDistinct(supply: seq<seq<byte>>, w: World, w': World, c: Call)
    requires WorldInv(supply, w) && Extends(w, w') && Shape(w, w', c) && Fair(w, c) && Distinct(w)
    ensures Distinct(w')
  {
    assert |w'.wires| == |w'.net.sent|;
    hide WorldInv, Shape, LowPorts, HelloOnce, InRange, Before, Extends, Forward;
    FairForward(w, w', c);
    PortsStayLow(w, w', c);
    HelloStaysOnce(supply, w, w', c);
    forall n | 0 <= n < |w'.hist| ensures InRange(w', w'.hist[n]) { RangesKeep(w, w', n); }
    forall m, n | 0 <= m < n < |w'.hist| ensures Before(w'.hist[m], w'.hist[n]) { OrderKeeps(supply, w, w', m, n); }
  }

  /** Two instances at a node never answer to the same ports and id. */
  lemma InstancesDiffer(supply: seq<seq<byte>>, w: World, m: nat, n: nat)
    requires WorldInv(supply, w) && Distinct(w) && m < n < |w.hist| && w.hist[m].node == w.hist[n].node
    ensures var g, h := w.hist[m], w.hist[n]; !(g.local == h.local && g.peerPort == h.peerPort && g.id == h.id)
  {
    var g, h := w.hist[m], w.hist[n];
    hide WorldInv, HelloOnce, LowPorts;
    assert InRange(w, g) && InRange(w, h) && Before(g, h);
    if !g.client && !h.client {
      HelloClient(supply, w, m);
      HelloClient(supply, w, n);
      OnceFor(w, g.hello, h.hello);
      ClientsDiffer(w, w.wires[g.hello].inst, w.wires[h.hello].inst);
    }
  }

  lemma ClientsDiffer(w: World, c: nat, d: nat)
    requires Distinct(w) && c < |w.hist| && d < |w.hist| && c != d
    requires w.hist[c].client && w.hist[d].client && w.hist[c].node == w.hist[d].node
    ensures w.hist[c].id != w.hist[d].id
  {
    hide HelloOnce, LowPorts, InRange;
    if c < d { assert Before(w.hist[c], w.hist[d]); } else { assert Before(w.hist[d], w.hist[c]); }
  }

  lemma OnceFor(w: World, j: nat, k: nat)
    requires |w.wires| == |w.net.sent| && HelloOnce(w) && j < k < |w.wires|
    requires w.net.sent[j].hdr.ctype == Hello && w.net.sent[k].hdr.ctype == Hello
    ensures w.wires[j].inst != w.wires[k].inst
  {}

  /** The client behind a server instance. */
  lemma HelloClient(supply: seq<seq<byte>>, w: World, n: nat)
    requires WorldInv(supply, w) && n < |w.hist| && !w.hist[n].client
    ensures var k := w.hist[n].hello;
            && |w.wires| == |w.net.sent| && k < |w.wires| && w.net.sent[k].hdr.ctype == Hello
            && w.wires[k].inst < |w.hist|
            && w.hist[w.wires[k].inst].client && Twin(w.hist[n], w.hist[w.wires[k].inst])
  {
    hide Link.Inv, SlotInv, AcceptedBy;
    assert HistInv(w, w.hist[n]);
    assert RecordInv(w, w.hist[n].hello);
  }

  // ---------- runs ----------

  function Connects(cs: seq<Call>, r: Role): nat
  {
    if cs == [] then 0
    else Connects(cs[..|cs| - 1], r) + if cs[|cs| - 1].DoConnect? && cs[|cs| - 1].r == r then 1 else 0
  }

  /** Listening ports below the ephemeral range, and fewer than 65535 connects at either node. */
  ghost predicate Bounded(cs: seq<Call>)
  {
    && (forall i :: 0 <= i < |cs| && cs[i].DoListen? ==> cs[i].port < EPHEMERAL_BASE)
    && Connects(cs, A) < 65535 && Connects(cs, B) < 65535
  }

  /** At most one more id per call of `connect`. */
  lemma CounterMoves(w: World, w': World, c: Call, r: Role)
    requires Shape(w, w', c)
    ensures w'.At(r).nextSession <= w.At(r).nextSession + if c.DoConnect? && c.r == r then 1 else 0
  {
    hide Seals, NewServer;
  }

  ghost predicate Counted(w: World, cs: seq<Call>)
  {
    forall r: Role :: w.At(r).nextSession <= 1 + Connects(cs, r)
  }

  lemma CountedKeeps(w: World, w': World, cs: seq<Call>)
    requires cs != [] && Shape(w, w', cs[|cs| - 1]) && Counted(w, cs[..|cs| - 1])
    ensures Counted(w', cs)
  {
    hide Shape;
    forall r: Role ensures w'.At(r).nextSession <= 1 + Connects(cs, r) {
      CounterMoves(w, w', cs[|cs| - 1], r);
    }
  }

  lemma ShorterBounded(cs: seq<Call>)
    requires cs != [] && Bounded(cs)
    ensures Bounded(cs[..|cs| - 1])
  {}

  lemma NextFair(w: World, cs: seq<Call>)
    requires cs != [] && Bounded(cs) && Counted(w, cs[..|cs| - 1])
    ensures Fair(w, cs[|cs| - 1])
  {}

  lemma {:induction false} RunKeepsDistinct(supply: seq<seq<byte>>, cs: seq<Call>)
    requires Fits(supply) && Bounded(cs)
    ensures var w := Play(supply, START, cs); WorldInv(supply, w) && Distinct(w) && Counted(w, cs)
    decreases |cs|
  {
    StartInv(supply);
    hide WorldInv, Step, Bounded, Shape, Extends, Fair;
    if cs == [] {
    } else {
      var cs', c := cs[..|cs| - 1], cs[|cs| - 1];
      var w := Play(supply, START, cs');
      hide START, Distinct, Counted;
      ShorterBounded(cs);
      RunKeepsDistinct(supply, cs');
      NextFair(w, cs);
      StepShape(supply, w, c);
      StepKeeps(supply, w, c);
      StepKeepsDistinct(supply, w, Step(supply, w, c), c);
      CountedKeeps(w, Step(supply, w, c), cs);
    }
  }

  /** In every run of the two stacks, no two sessions ever created at a node answer to the same
      ports and id. */
  lemma SessionsDistinct(supply: seq<seq<byte>>, cs: seq<Call>, m: nat, n: nat)
    requires Fits(supply) && Bounded(cs)
    requires var w := Play(supply, START, cs);
             m < |w.hist| && n < |w.hist| && m != n && w.hist[m].node == w.hist[n].node
    ensures var w := Play(supply, START, cs); var g, h := w.hist[m], w.hist[n];
            !(g.local == h.local && g.peerPort == h.peerPort && g.id == h.id)
  {
    hide *;
    RunKeepsDistinct(supply, cs);
    var w := Play(supply, START, cs);
    if m < n { InstancesDiffer(supply, w, m, n); } else { InstancesDiffer(supply, w, n, m); }
  }

  /** A client is Established only when a matching server session has been created at the peer. */
  lemma EstablishedHasServer(supply: seq<seq<byte>>, cs: seq<Call>, r: Role, i: nat)
    requires Fits(supply) && i < MAX_SESSIONS
    requires var w := Play(supply, START, cs); w.Slot(r, i).state == Established
    ensures var w := Play(supply, START, cs); var x := w.Slot(r, i);
            && x.inst < |w.hist|
            && (w.hist[x.inst].client ==>
                  exists g :: 0 <= g < |w.hist| && !w.hist[g].client && w.hist[g].node == Peer(r)
                           && w.hist[g].local == x.peerPort && w.hist[g].peerPort == x.localPort
                           && w.hist[g].id == x.id)
  {
    StartInv(supply);
    PlayKeeps(supply, START, cs);
    var w := Play(supply, START, cs);
    hide Play, START, HistInv, RecordInv, Link.Inv, Queued;
    assert SlotInv(w, r, w.Slot(r, i));
    var h := w.hist[w.Slot(r, i).inst];
    if h.client {
      var g :| 0 <= g < |w.hist| && Twin(h, w.hist[g]) && !w.hist[g].client;
    }
  }

  /** And within the stated bounds that server was opened by this very client: the Hello it answers
      was sealed by the client's own session. */
  lemma EstablishedByOwnHello(supply: seq<seq<byte>>, cs: seq<Call>, r: Role, i: nat)
    requires Fits(supply) && Bounded(cs) && i < MAX_SESSIONS
    requires var w := Play(supply, START, cs); w.Slot(r, i).state == Established
    ensures var w := Play(supply, START, cs); var x := w.Slot(r, i);
            && x.inst < |w.hist|
            && (w.hist[x.inst].client ==>
                  exists g :: 0 <= g < |w.hist| && !w.hist[g].client && Twin(w.hist[x.inst], w.hist[g])
                           && w.hist[g].hello < |w.wires| && w.wires[w.hist[g].hello].inst == x.inst)
  {
    hide Play, WorldInv, Distinct, Twin, HasServer;
    RunKeepsDistinct(supply, cs);
    var w := Play(supply, START, cs);
    ServerOfClient(supply, w, r, i);
    var n := w.Slot(r, i).inst;
    if w.hist[n].client {
      var g := ServerIndex(w, w.hist[n]);
      HelloClient(supply, w, g);
      var c := w.wires[w.hist[g].hello].inst;
      TwinBack(w.hist[n], w.hist[g]);
      TwinIsOne(supply, w, w.hist[g], n, c);
    }
  }

  lemma ServerOfClient(supply: seq<seq<byte>>, w: World, r: Role, i: nat)
    requires WorldInv(supply, w) && i < MAX_SESSIONS && w.Slot(r, i).state == Established
    ensures var n := w.Slot(r, i).inst; n < |w.hist| && (w.hist[n].client ==> HasServer(w, w.hist[n]))
  {
    hide HistInv, RecordInv, Link.Inv, Queued, HasServer;
    assert SlotInv(w, r, w.Slot(r, i));
  }

  lemma ServerIndex(w: World, h: Hist) returns (g: nat)
    requires HasServer(w, h)
    ensures g < |w.hist| && Twin(h, w.hist[g]) && !w.hist[g].client
  {
    g :| 0 <= g < |w.hist| && Twin(h, w.hist[g]) && !w.hist[g].client;
  }

  lemma TwinBack(h: Hist, g: Hist)
    requires Twin(h, g)
    ensures Twin(g, h)
  {}

  // ---------- message order ----------

  ghost predicate SaidAt(w: World, g: nat, k: nat)
    requires |w.wires| == |w.net.sent| && k < |w.wires|
  {
    w.wires[k].inst == g && w.wires[k].shipped && w.net.sent[k].hdr.ctype == Data
  }

  /** The messages instance `g` has brought onto the channel among the first `k` records. */
  ghost function Said(w: World, g: nat, k: nat): seq<seq<byte>>
    requires |w.wires| == |w.net.sent| && k <= |w.wires|
  {
    if k == 0 then [] else Said(w, g, k - 1) + if SaidAt(w, g, k - 1) then [w.net.sent[k - 1].pt] else []
  }

  /** `f` gives the places, in increasing order, at which the elements of `s` stand in `t`. */
  ghost predicate Picks(f: seq<nat>, s: seq<seq<byte>>, t: seq<seq<byte>>)
  {
    && |f| == |s|
    && (forall i :: 0 <= i < |f| ==> f[i] < |t| && t[f[i]] == s[i])
    && (forall i, j :: 0 <= i < j < |f| ==> f[i] < f[j])
  }

  ghost predicate Subsequence(s: seq<seq<byte>>, t: seq<seq<byte>>) { exists f: seq<nat> :: Picks(f, s, t) }

  lemma {:induction false} SaidGrows(w: World, g: nat, j: nat, k: nat)
    requires |w.wires| == |w.net.sent| && j <= k <= |w.wires|
    ensures Said(w, g, j) <= Said(w, g, k)
    decreases k
  {
    if j < k { SaidGrows(w, g, j, k - 1); }
  }

  lemma PlaceOf(w: World, g: nat, k: nat)
    requires |w.wires| == |w.net.sent| && k < |w.wires| && SaidAt(w, g, k)
    ensures var all := Said(w, g, |w.wires|); |Said(w, g, k)| < |all| && all[|Said(w, g, k)|] == w.net.sent[k].pt
  {
    SaidGrows(w, g, k + 1, |w.wires|);
  }

  lemma PlacesGrow(w: World, g: nat, j: nat, k: nat)
    requires |w.wires| == |w.net.sent| && j < k <= |w.wires| && SaidAt(w, g, j)
    ensures |Said(w, g, j)| < |Said(w, g, k)|
  {
    SaidGrows(w, g, j + 1, k);
  }

  /** The instance that sent the record at place `j` of a line is the twin of the instance it is for. */
  lemma LineFromTwin(supply: seq<seq<byte>>, w: World, n: nat, j: nat)
    requires WorldInv(supply, w) && n < |w.hist| && j < |w.hist[n].line|
    ensures var k := w.hist[n].line[j];
            && |w.wires| == |w.net.sent| && k < |w.wires| && w.wires[k].shipped && w.net.sent[k].hdr.ctype == Data
            && w.wires[k].inst < |w.hist| && Twin(w.hist[n], w.hist[w.wires[k].inst])
  {
    hide Link.Inv, SlotInv, AcceptedBy;
    assert HistInv(w, w.hist[n]);
    assert For(w, w.hist[n], w.hist[n].line[j], Data);
    assert RecordInv(w, w.hist[n].line[j]);
  }

  lemma LineFacts(supply: seq<seq<byte>>, w: World, n: nat)
    requires WorldInv(supply, w) && n < |w.hist|
    ensures var h := w.hist[n];
            && |h.popped| <= |h.line| && (forall i, j :: 0 <= i < j < |h.line| ==> h.line[i] < h.line[j])
            && (forall j :: 0 <= j < |h.popped| ==> h.line[j] < |w.net.sent| && h.popped[j] == w.net.sent[h.line[j]].pt)
  {
    hide Link.Inv, SlotInv, RecordInv;
    var h := w.hist[n];
    assert HistInv(w, h);
    forall j | 0 <= j < |h.popped| ensures h.line[j] < |w.net.sent| && h.popped[j] == w.net.sent[h.line[j]].pt {
      assert For(w, h, h.line[j], Data);
    }
  }

  lemma TwinIsOne(supply: seq<seq<byte>>, w: World, h: Hist, g: nat, g': nat)
    requires WorldInv(supply, w) && Distinct(w) && g < |w.hist| && g' < |w.hist| && Twin(h, w.hist[g])
    requires Twin(h, w.hist[g'])
    ensures g == g'
  {
    hide WorldInv, Distinct;
    if g < g' { InstancesDiffer(supply, w, g, g'); }
    if g' < g { InstancesDiffer(supply, w, g', g); }
  }

  /** What has been handed over on instance `n`, once anything has, comes from one twin and in its order. */
  lemma PoppedPicks(supply: seq<seq<byte>>, w: World, n: nat, g: nat)
    requires WorldInv(supply, w) && Distinct(w) && n < |w.hist| && g < |w.hist| && Twin(w.hist[n], w.hist[g])
    ensures |w.wires| == |w.net.sent| && Subsequence(w.hist[n].popped, Said(w, g, |w.wires|))
  {
    hide WorldInv, Distinct, Twin;
    InvNet(supply, w);
    LineFacts(supply, w, n);
    var h := w.hist[n];
    forall j | 0 <= j < |h.popped| ensures h.line[j] < |w.wires| && SaidAt(w, g, h.line[j]) {
      LineFromTwin(supply, w, n, j);
      TwinIsOne(supply, w, h, g, w.wires[h.line[j]].inst);
    }
    var all := Said(w, g, |w.wires|);
    var f: seq<nat> := seq(|h.popped|, j requires 0 <= j < |h.popped| => |Said(w, g, h.line[j])|);
    forall j | 0 <= j < |f| ensures f[j] < |all| && all[f[j]] == h.popped[j] { PlaceOf(w, g, h.line[j]); }
    forall i, j | 0 <= i < j < |f| ensures f[i] < f[j] { PlacesGrow(w, g, h.line[i], h.line[j]); }
    assert Picks(f, h.popped, all);
  }

  // ---------- what has been said ----------

  lemma {:induction false} SaidAgrees(w: World, w': World, g: nat, k: nat)
    requires |w.wires| == |w.net.sent| && |w'.wires| == |w'.net.sent| && k <= |w.wires| && k <= |w'.wires|
    requires w.wires[..k] == w'.wires[..k] && w.net.sent[..k] == w'.net.sent[..k]
    ensures Said(w, g, k) == Said(w', g, k)
    decreases k
  {
    if k > 0 {
      assert w.wires[..k][k - 1] == w'.wires[..k][k - 1] && w.net.sent[..k][k - 1] == w'.net.sent[..k][k - 1];
      assert w.wires[..k - 1] == w.wires[..k][..k - 1] && w.net.sent[..k - 1] == w.net.sent[..k][..k - 1];
      assert w'.wires[..k - 1] == w'.wires[..k][..k - 1] && w'.net.sent[..k - 1] == w'.net.sent[..k][..k - 1];
      SaidAgrees(w, w', g, k - 1);
    }
  }

  lemma SealsSaid(w: World, w': World, r: Role, t: ContentType, inst: nat, pt: seq<byte>, dev: bool, g: nat)
    requires |w.wires| == |w.net.sent| && |w'.wires| == |w'.net.sent| && Seals(w, w', r, t, inst, pt, dev)
    ensures var before, after := Said(w, g, |w.wires|), Said(w', g, |w'.wires|);
            after == before + if Shipped(w, w') && t == Data && inst == g then [pt] else []
  {
    SaidAgrees(w, w', g, |w.wires|);
  }

  /** The call is a `send` on instance `g` that answers Ok. */
  ghost predicate SendsOk(w: World, c: Call, g: nat)
  {
    c.DoSend? && SendAnswer(w, c.r, c.i, c.data, c.arp, c.dev).Ok? && w.Slot(c.r, c.i).inst == g
  }

  /** What `send` says it has taken of its data. */
  function TakenOf(w: World, c: Call): seq<byte>
    requires c.DoSend?
  {
    var answer := SendAnswer(w, c.r, c.i, c.data, c.arp, c.dev);
    if answer.Ok? then c.data[..answer.value] else []
  }

  /** The messages for which `send` on instance `g` has answered Ok in the run of `cs` from `w`, each
      as long as the answer says. */
  ghost function SentOk(supply: seq<seq<byte>>, w: World, cs: seq<Call>, g: nat): seq<seq<byte>>
  {
    if cs == [] then []
    else
      var cs', c := cs[..|cs| - 1], cs[|cs| - 1];
      var w' := Play(supply, w, cs');
      SentOk(supply, w, cs', g) + if SendsOk(w', c, g) then [TakenOf(w', c)] else []
  }

  /** What a `send` that answers `Ok(n)` does: the first `n` octets of its data, all of them up to the
      1400 a record can carry, are sealed for the session and its peer's port and reach the channel. */
  lemma SendIs(supply: seq<seq<byte>>, w: World, r: Role, i: nat, data: seq<byte>, arp: bool, dev: bool, n: nat)
    requires WorldInv(supply, w) && SendAnswer(w, r, i, data, arp, dev) == Ok(n)
    ensures n == (if |data| < 1400 then |data| else 1400) && i < MAX_SESSIONS
    ensures var w' := Send(supply, w, r, i, data, arp, dev); var x := w.Slot(r, i); var k := |w.net.sent|;
            && |w'.net.sent| == k + 1 && w'.net.sent[..k] == w.net.sent && w'.net.sent[k].pt == data[..n]
            && w'.net.sent[k].from == r && w'.net.sent[k].hdr.ctype == Data && w'.net.sent[k].hdr.sessionId == x.id
            && w'.wires == w.wires + [Wire(x.localPort, x.peerPort, x.inst, true)]
            && w'.hist == w.hist && w'.a == w.a && w'.b == w.b
  {
    RolesKept(supply, w, r);
    hide WorldInv, SendAnswer, Clip, Link.Next, Send, SealLane;
    OkIffShipped(supply, w, r, i, data, arp, dev);
    assert Clip(data) == data[..n];
    SendUnfolds(supply, w, r, i, data, arp, dev);
    SealAppends(supply, w.net, r, Data, w.Slot(r, i).id, Clip(data));
  }

  lemma SendUnfolds(supply: seq<seq<byte>>, w: World, r: Role, i: nat, data: seq<byte>, arp: bool, dev: bool)
    requires SendAnswer(w, r, i, data, arp, dev).Ok? && Shipped(w, Send(supply, w, r, i, data, arp, dev))
    ensures i < MAX_SESSIONS
    ensures var w' := Send(supply, w, r, i, data, arp, dev); var x := w.Slot(r, i);
            && w'.net == Link.Next(supply, w.net, SealAt(r, Data, x.id, Clip(data))) && |w'.net.sent| != |w.net.sent|
            && w'.wires == w.wires + [Wire(x.localPort, x.peerPort, x.inst, true)]
            && w'.hist == w.hist && w'.a == w.a && w'.b == w.b
  {
    hide Link.Next, Clip, SealLane;
  }

  /** `send` answers Ok exactly when its record reaches the channel. */
  lemma OkIffShipped(supply: seq<seq<byte>>, w: World, r: Role, i: nat, data: seq<byte>, arp: bool, dev: bool)
    requires |w.wires| == |w.net.sent| && w.net.Keys(r).role == r
    ensures SendAnswer(w, r, i, data, arp, dev).Ok? <==> Shipped(w, Send(supply, w, r, i, data, arp, dev))
  {
    hide SealLane, Clip;
  }

  lemma RolesKept(supply: seq<seq<byte>>, w: World, r: Role)
    requires WorldInv(supply, w)
    ensures w.net.Keys(r).role == r && |w.wires| == |w.net.sent|
  {
    hide RecordInv, HistInv, SlotInv, SentInv, GotInv;
  }

  lemma SendIsStep(supply: seq<seq<byte>>, w: World, c: Call)
    requires c.DoSend?
    ensures Step(supply, w, c) == Send(supply, w, c.r, c.i, c.data, c.arp, c.dev)
    ensures SendAnswer(w, c.r, c.i, c.data, c.arp, c.dev).Ok? ==>
              c.i < MAX_SESSIONS && w.Slot(c.r, c.i).state == Established
  {
    hide Send, SendResult;
  }

  lemma ShapeSaid(w: World, w': World, c: Call, g: nat)
    requires |w.wires| == |w.net.sent| && |w'.wires| == |w'.net.sent| && Shape(w, w', c)
    ensures Said(w', g, |w'.wires|) == Said(w, g, |w.wires|) +
              if c.DoSend? && c.i < MAX_SESSIONS && w.Slot(c.r, c.i).inst == g && Shipped(w, w')
              then [Clip(c.data)]
              else []
  {
    hide Said, NewClient, NewServer, Fronts, Clip;
    match c
    case DoConnect(r, _, _, dev) => if w' != w { SealsSaid(w, w', r, Hello, |w.hist|, [], dev, g); }
    case DoSend(r, i, data, _, dev) =>
      if i < MAX_SESSIONS && w.Slot(r, i).state == Established {
        SealsSaid(w, w', r, Data, w.Slot(r, i).inst, Clip(data), dev, g);
      }
    case DoClose(r, i, _, dev) =>
      if i < MAX_SESSIONS { SealsSaid(w, w', r, ContentType.Close, w.Slot(r, i).inst, [], dev, g); }
    case DoDeliver(r, _, _, dev) => SealsSaid(w, w', r, HelloAck, |w.hist|, [], dev, g);
    case _ => SaidAgrees(w, w', g, |w.wires|);
  }

  lemma OkSend(supply: seq<seq<byte>>, w: World, c: Call, g: nat)
    requires WorldInv(supply, w)
    ensures SendsOk(w, c, g) <==>
              c.DoSend? && c.i < MAX_SESSIONS && w.Slot(c.r, c.i).inst == g && Shipped(w, Step(supply, w, c))
    ensures SendsOk(w, c, g) ==> TakenOf(w, c) == Clip(c.data)
  {
    hide WorldInv, Step, SendAnswer, Shipped, Clip;
    if c.DoSend? {
      RolesKept(supply, w, c.r);
      OkIffShipped(supply, w, c.r, c.i, c.data, c.arp, c.dev);
      SendIsStep(supply, w, c);
    }
  }

  /** Only a `send` that answers Ok adds to what its instance has brought onto the channel, and adds
      exactly as much of its data as the answer says. */
  lemma OnlySendSays(supply: seq<seq<byte>>, cs: seq<Call>, c: Call, g: nat)
    requires Fits(supply)
    ensures var w := Play(supply, START, cs); var w' := Step(supply, w, c);
            && |w.wires| == |w.net.sent| && |w'.wires| == |w'.net.sent|
            && Said(w', g, |w'.wires|) == Said(w, g, |w.wires|) + if SendsOk(w, c, g) then [TakenOf(w, c)] else []
  {
    StartInv(supply);
    hide WorldInv, Step, Said, START, Play, NewClient, NewServer, Fronts, Clip, SendsOk, TakenOf;
    PlayKeeps(supply, START, cs);
    var w := Play(supply, START, cs);
    StepKeeps(supply, w, c);
    InvNet(supply, w);
    InvNet(supply, Step(supply, w, c));
    StepShape(supply, w, c);
    OkSend(supply, w, c, g);
    ShapeSaid(w, Step(supply, w, c), c, g);
  }

  lemma NothingSaid(supply: seq<seq<byte>>, g: nat)
    ensures Play(supply, START, []) == START && SentOk(supply, START, [], g) == []
    ensures START.wires == [] && START.net.sent == [] && Said(START, g, 0) == []
  {}

  /** In every run, what an instance has brought onto the channel is what `send` has answered Ok for. */
  lemma {:induction false} SaidIsSentOk(supply: seq<seq<byte>>, cs: seq<Call>, g: nat)
    requires Fits(supply)
    ensures var w := Play(supply, START, cs);
            |w.wires| == |w.net.sent| && Said(w, g, |w.wires|) == SentOk(supply, START, cs, g)
    decreases |cs|
  {
    hide START, Said, Step, SendsOk, TakenOf;
    if cs == [] {
      NothingSaid(supply, g);
    } else {
      var cs', c := cs[..|cs| - 1], cs[|cs| - 1];
      SaidIsSentOk(supply, cs', g);
      OnlySendSays(supply, cs', c, g);
    }
  }

  /** End to end, in every run of the two stacks over a channel that loses, repeats and reorders:
      what `recv` has handed over on a session is, in order and without repeats, a subsequence of
      what `send` has answered Ok for on the one session at the peer with the same ports and id. */
  lemma MessagesInOrder(supply: seq<seq<byte>>, cs: seq<Call>, n: nat)
    requires Fits(supply) && Bounded(cs)
    requires n < |Play(supply, START, cs).hist| && Play(supply, START, cs).hist[n].popped != []
    ensures var w := Play(supply, START, cs); var h := w.hist[n];
            exists g :: 0 <= g < |w.hist| && Twin(h, w.hist[g]) && Subsequence(h.popped, SentOk(supply, START, cs, g))
                      && forall g' :: 0 <= g' < |w.hist| && Twin(h, w.hist[g']) ==> g' == g
  {
    hide *;
    RunKeepsDistinct(supply, cs);
    var w := Play(supply, START, cs);
    var h := w.hist[n];
    LineFacts(supply, w, n);
    LineFromTwin(supply, w, n, 0);
    var g := w.wires[h.line[0]].inst;
    PoppedPicks(supply, w, n, g);
    SaidIsSentOk(supply, cs, g);
    forall g' | 0 <= g' < |w.hist| && Twin(h, w.hist[g']) ensures g' == g { TwinIsOne(supply, w, h, g, g'); }
  }
}
