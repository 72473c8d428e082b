/** When a message that was sent is queued at the other end, in runs without emergency wipes. */
module Delivery {
  import opened Wrappers
  import opened Bytes
  import opened Qtls
  import opened Link
  import opened Sessions
  import opened SessionInvariant
  import opened SessionRuns

  // ---------- where the receive windows start ----------

  /** Besides the invariant of the link, every receive window starts where deposits and accepted records have put it. */
  ghost predicate Seated(supply: seq<seq<byte>>, net: Sys)
  {
    Link.Inv(supply, net) && net.a.blocks <= |supply| && net.b.blocks <= |supply| && BaseInv(supply, net)
  }

  lemma EventSeated(supply: seq<seq<byte>>, net: Sys, e: Event)
    requires Seated(supply, net) && Fits(supply) && !e.WipeAt?
    ensures Seated(supply, Link.Next(supply, net, e))
  {
    StepKeepsBase(supply, net, e);
    StepKeepsInv(supply, net, e);
    hide *;
  }

  lemma SendRecordSeated(supply: seq<seq<byte>>, w: World, r: Role, i: nat, t: ContentType, data: seq<byte>,
                         arp: bool, dev: bool)
    requires Seated(supply, w.net) && Fits(supply) && i < MAX_SESSIONS
    ensures Seated(supply, SendRecord(supply, w, r, i, t, data, arp, dev).net)
  {
    hide Seated, Link.Next;
    EventSeated(supply, w.net, SealAt(r, t, w.Slot(r, i).id, data));
  }

  lemma ConnectSeated(supply: seq<seq<byte>>, w: World, r: Role, port: U16, arp: bool, dev: bool)
    requires Seated(supply, w.net) && Fits(supply)
    ensures Seated(supply, Connect(supply, w, r, port, arp, dev).net)
  {
    hide Seated, SendRecord;
    var st := w.At(r);
    var i := FindFree(st.sessions, 0);
    if arp && i < MAX_SESSIONS {
      var id := st.nextSession;
      var local: U16 := EPHEMERAL_BASE + id % 16384;
      var x := Session(HelloSent, id, port, local, true, [], |w.hist|);
      var w1 := w.With(r, st.(sessions := st.sessions[i := x], nextSession := NextId(id)))
                 .(hist := w.hist + [Hist(r, local, port, id, true, 0, [], [])]);
      assert w1.net == w.net;
      SendRecordSeated(supply, w1, r, i, Hello, [], arp, dev);
    }
  }

  lemma CloseSeated(supply: seq<seq<byte>>, w: World, r: Role, i: nat, arp: bool, dev: bool)
    requires Seated(supply, w.net) && Fits(supply)
    ensures Seated(supply, Sessions.Close(supply, w, r, i, arp, dev).net)
  {
    hide Seated, SendRecord;
    if i < MAX_SESSIONS { SendRecordSeated(supply, w, r, i, ContentType.Close, [], arp, dev); }
  }

  lemma SendSeated(supply: seq<seq<byte>>, w: World, r: Role, i: nat, data: seq<byte>, arp: bool, dev: bool)
    requires Seated(supply, w.net) && Fits(supply)
    ensures Seated(supply, Send(supply, w, r, i, data, arp, dev).net)
  {
    hide Seated, SendRecord, Clip;
    if i < MAX_SESSIONS { SendRecordSeated(supply, w, r, i, Data, Clip(data), arp, dev); }
  }

  lemma AdmitSeated(supply: seq<seq<byte>>, w: World, r: Role, k: nat, sport: U16, dport: U16, id: U16, arp: bool,
                    dev: bool)
    requires Seated(supply, w.net) && Fits(supply)
    ensures Seated(supply, Admit(supply, w, r, k, sport, dport, id, arp, dev).net)
  {
    hide Seated, SendRecord;
    var i := FindFree(w.At(r).sessions, 0);
    if i < MAX_SESSIONS {
      var x := Session(Established, id, sport, dport, false, [], |w.hist|);
      var w1 := w.WithSlot(r, i, x).(hist := w.hist + [Hist(r, dport, sport, id, false, k, [], [])]);
      assert w1.net == w.net;
      SendRecordSeated(supply, w1, r, i, HelloAck, [], arp, dev);
    }
  }

  lemma ArriveNet(w: World, r: Role, i: nat, k: nat, t: ContentType, pt: seq<byte>)
    requires i < MAX_SESSIONS
    ensures Arrive(w, r, i, k, t, pt).net == w.net
  {}

  lemma HandleSeated(supply: seq<seq<byte>>, w: World, r: Role, k: nat, arp: bool, dev: bool)
    requires WorldInv(supply, w) && Seated(supply, w.net) && Fits(supply)
    ensures Seated(supply, Handle(supply, w, r, k, arp, dev).net)
  {
    if FromPeer(w, r, k) {
      HandleIs(supply, w, r, k, arp, dev);
      hide WorldInv, Seated, Link.Next, Handle, Admit, Arrive;
      EventSeated(supply, w.net, DeliverTo(r, k));
      var w1 := w.(net := Link.Next(supply, w.net, DeliverTo(r, k)));
      var h := w.net.sent[k].hdr;
      var i := FindSession(w.At(r).sessions, w.wires[k].sport, w.wires[k].dport, h.sessionId, 0);
      AdmitSeated(supply, w1, r, k, w.wires[k].sport, w.wires[k].dport, h.sessionId, arp, dev);
      if i < MAX_SESSIONS { ArriveNet(w1, r, i, k, h.ctype, w.net.sent[k].pt); }
    }
  }

  lemma QuietNet(w: World, c: Call, supply: seq<seq<byte>>)
    requires c.DoListen? || c.DoAccept? || c.DoRecv?
    ensures Step(supply, w, c).net == w.net
  {
    hide FirstZero, FindPending;
  }

  lemma StepSeated(supply: seq<seq<byte>>, w: World, c: Call)
    requires WorldInv(supply, w) && Seated(supply, w.net) && Fits(supply) && !c.DoWipe?
    ensures Seated(supply, Step(supply, w, c).net)
  {
    hide WorldInv, Seated, Link.Next, Listen, Connect, Accept, Send, Recv, Sessions.Close, Handle;
    match c
    case DoConnect(r, port, arp, dev) => ConnectSeated(supply, w, r, port, arp, dev);
    case DoSend(r, i, data, arp, dev) => SendSeated(supply, w, r, i, data, arp, dev);
    case DoClose(r, i, arp, dev) => CloseSeated(supply, w, r, i, arp, dev);
    case DoDeliver(r, k, arp, dev) => HandleSeated(supply, w, r, k, arp, dev);
    case DoDeposit(r) => EventSeated(supply, w.net, DepositAt(r));
    case _ => QuietNet(w, c, supply);
  }

  predicate NoWipes(cs: seq<Call>) { forall i :: 0 <= i < |cs| ==> !cs[i].DoWipe? }

  lemma StartSeated(supply: seq<seq<byte>>)
    requires Fits(supply)
    ensures Seated(supply, START.net)
  {
    ReachableBase(supply, []);
    hide Inv, BaseInv;
  }

  lemma {:induction false} RunSeated(supply: seq<seq<byte>>, cs: seq<Call>)
    requires Fits(supply) && NoWipes(cs)
    ensures WorldInv(supply, Play(supply, START, cs)) && Seated(supply, Play(supply, START, cs).net)
    decreases |cs|
  {
    hide WorldInv, Seated, Step, Fits;
    StartInv(supply);
    PlayKeeps(supply, START, cs);
    if cs == [] {
      StartSeated(supply);
    } else {
      var cs' := cs[..|cs| - 1];
      RunSeated(supply, cs');
      StepSeated(supply, Play(supply, START, cs'), cs[|cs| - 1]);
    }
  }

  // ---------- what an arrival does ----------

  /** The session in a slot that a record with these ports and this id is for. */
  predicate ForSlot(x: Session, v: Wire, id: U16)
  {
    x.state != Free && x.peerPort == v.sport && x.localPort == v.dport && x.id == id
  }

  /** Slot `i` of `r` is the first one that record `k` is for. */
  ghost predicate IsFor(w: World, r: Role, i: nat, k: nat)
    requires k < |w.wires| && k < |w.net.sent| && i < MAX_SESSIONS
  {
    var id := w.net.sent[k].hdr.sessionId;
    ForSlot(w.Slot(r, i), w.wires[k], id) && forall j :: 0 <= j < i ==> !ForSlot(w.Slot(r, j), w.wires[k], id)
  }

  /** Every slot of both nodes is as before, except that slot `i` of `r`, if there is one, is `x`. */
  ghost predicate OnlySlot(w: World, w': World, r: Role, i: nat, x: Session)
  {
    forall q: Role, j :: 0 <= j < MAX_SESSIONS ==> w'.Slot(q, j) == if q == r && j == i then x else w.Slot(q, j)
  }

  lemma {:induction false} FoundFirst(t: Table, v: Wire, id: U16, k: nat)
    requires k <= MAX_SESSIONS
    ensures var i := FindSession(t, v.sport, v.dport, id, k);
            && (i < MAX_SESSIONS ==> ForSlot(t[i], v, id))
            && (forall j :: k <= j < i ==> !ForSlot(t[j], v, id))
    decreases MAX_SESSIONS - k
  {
    if k < MAX_SESSIONS && !ForSlot(t[k], v, id) { FoundFirst(t, v, id, k + 1); }
  }

  /** The slot the lookup finds, or MAX_SESSIONS. */
  function Addressed(w: World, r: Role, k: nat): (i: nat)
    requires k < |w.wires| && k < |w.net.sent|
    ensures i <= MAX_SESSIONS
  {
    FindSession(w.At(r).sessions, w.wires[k].sport, w.wires[k].dport, w.net.sent[k].hdr.sessionId, 0)
  }

  lemma AddressedIs(w: World, r: Role, k: nat)
    requires k < |w.wires| && k < |w.net.sent|
    ensures forall j :: 0 <= j < MAX_SESSIONS ==> (IsFor(w, r, j, k) <==> j == Addressed(w, r, k))
    ensures Addressed(w, r, k) < MAX_SESSIONS ==> IsFor(w, r, Addressed(w, r, k), k)
  {
    hide ForSlot;
    FoundFirst(w.At(r).sessions, w.wires[k], w.net.sent[k].hdr.sessionId, 0);
    var i := Addressed(w, r, k);
    var id := w.net.sent[k].hdr.sessionId;
    forall l | 0 <= l < i ensures !ForSlot(w.Slot(r, l), w.wires[k], id) { assert w.Slot(r, l) == w.At(r).sessions[l]; }
    if i < MAX_SESSIONS { assert ForSlot(w.Slot(r, i), w.wires[k], id); }
  }

  /** In every run without wipes, a Data record that the channel delivers joins the queue of the
      session it is for exactly when that one is Established, fewer than four messages wait there,
      and the record lies in the receive window; no other slot changes, and nothing else does. */
  lemma QueuedIff(supply: seq<seq<byte>>, cs: seq<Call>, r: Role, k: nat, arp: bool, dev: bool, i: nat)
    requires Fits(supply) && NoWipes(cs) && i < MAX_SESSIONS
    requires FromPeer(Play(supply, START, cs), r, k) && Play(supply, START, cs).net.sent[k].hdr.ctype == Data
    ensures Play(supply, START, cs).net.Keys(r).blocks <= |supply|
    ensures var w := Play(supply, START, cs); var w' := Handle(supply, w, r, k, arp, dev); var x := w.Slot(r, i);
            var taken := x.state == Established && |x.rx| < 4 && InWindow(supply, w.net, r, w.net.sent[k].hdr);
            IsFor(w, r, i, k) ==>
              OnlySlot(w, w', r, i, if taken then x.(rx := x.rx + [w.net.sent[k].pt]) else x)
  {
    hide Play, NoWipes, WorldInv, Seated, Handle, IsFor, OnlySlot, InWindow, Arrive;
    RunSeated(supply, cs);
    var w := Play(supply, START, cs);
    PeerRecord(w, r, k);
    ArrivalIs(supply, w, r, k, arp, dev, i);
    if IsFor(w, r, i, k) { ArriveData(w, supply, r, i, k); }
  }

  /** A HelloAck makes the slot it is for Established exactly when that one was HelloSent and the
      record lies in the receive window; no other slot changes. */
  lemma AcknowledgedIff(supply: seq<seq<byte>>, cs: seq<Call>, r: Role, k: nat, arp: bool, dev: bool, i: nat)
    requires Fits(supply) && NoWipes(cs) && i < MAX_SESSIONS
    requires FromPeer(Play(supply, START, cs), r, k) && Play(supply, START, cs).net.sent[k].hdr.ctype == HelloAck
    ensures Play(supply, START, cs).net.Keys(r).blocks <= |supply|
    ensures var w := Play(supply, START, cs); var w' := Handle(supply, w, r, k, arp, dev); var x := w.Slot(r, i);
            && (IsFor(w, r, i, k) && x.state == HelloSent && InWindow(supply, w.net, r, w.net.sent[k].hdr) ==>
                  OnlySlot(w, w', r, i, x.(state := Established)))
            && (IsFor(w, r, i, k) && !(x.state == HelloSent && InWindow(supply, w.net, r, w.net.sent[k].hdr)) ==>
                  OnlySlot(w, w', r, i, x))
  {
    hide Play, NoWipes, WorldInv, Seated, Handle, IsFor, OnlySlot, InWindow, Arrive;
    RunSeated(supply, cs);
    var w := Play(supply, START, cs);
    PeerRecord(w, r, k);
    ArrivalIs(supply, w, r, k, arp, dev, i);
    if IsFor(w, r, i, k) { ArriveAck(w, supply, r, i, k); }
  }

  /** A Close closes the slot it is for, whatever its state, exactly when the record lies in the receive
      window; no other slot changes. */
  lemma ClosedIff(supply: seq<seq<byte>>, cs: seq<Call>, r: Role, k: nat, arp: bool, dev: bool, i: nat)
    requires Fits(supply) && NoWipes(cs) && i < MAX_SESSIONS
    requires FromPeer(Play(supply, START, cs), r, k)
    requires Play(supply, START, cs).net.sent[k].hdr.ctype == ContentType.Close
    ensures Play(supply, START, cs).net.Keys(r).blocks <= |supply|
    ensures var w := Play(supply, START, cs); var w' := Handle(supply, w, r, k, arp, dev); var x := w.Slot(r, i);
            && (IsFor(w, r, i, k) && InWindow(supply, w.net, r, w.net.sent[k].hdr) ==>
                  OnlySlot(w, w', r, i, x.(state := Closed)))
            && (IsFor(w, r, i, k) && !InWindow(supply, w.net, r, w.net.sent[k].hdr) ==> OnlySlot(w, w', r, i, x))
  {
    hide Play, NoWipes, WorldInv, Seated, Handle, IsFor, OnlySlot, InWindow, Arrive;
    RunSeated(supply, cs);
    var w := Play(supply, START, cs);
    PeerRecord(w, r, k);
    ArrivalIs(supply, w, r, k, arp, dev, i);
    if IsFor(w, r, i, k) { ArriveClose(w, supply, r, i, k); }
  }

  /** A record that no session at `r` waits for changes no slot, unless it is a Hello; nor does a Hello
      for a session that exists already. */
  lemma StrayChangesNothing(supply: seq<seq<byte>>, cs: seq<Call>, r: Role, k: nat, arp: bool, dev: bool)
    requires Fits(supply) && FromPeer(Play(supply, START, cs), r, k)
    requires var w := Play(supply, START, cs);
             (exists i :: 0 <= i < MAX_SESSIONS && IsFor(w, r, i, k)) <==> w.net.sent[k].hdr.ctype == Hello
    ensures var w := Play(supply, START, cs); var w' := Handle(supply, w, r, k, arp, dev);
            forall q: Role :: w'.At(q) == w.At(q)
  {
    hide Play, WorldInv, Handle, IsFor;
    StartInv(supply);
    PlayKeeps(supply, START, cs);
    StrayFrom(supply, Play(supply, START, cs), r, k, arp, dev);
  }

  lemma StrayFrom(supply: seq<seq<byte>>, w: World, r: Role, k: nat, arp: bool, dev: bool)
    requires WorldInv(supply, w) && Fits(supply) && FromPeer(w, r, k)
    requires (exists i :: 0 <= i < MAX_SESSIONS && IsFor(w, r, i, k)) <==> w.net.sent[k].hdr.ctype == Hello
    ensures forall q: Role :: Handle(supply, w, r, k, arp, dev).At(q) == w.At(q)
  {
    hide WorldInv, Link.Next, Handle, Admit, Arrive, FindSession, IsFor, Addressed;
    PeerRecord(w, r, k);
    AddressedIs(w, r, k);
    var i := Addressed(w, r, k);
    if i < MAX_SESSIONS {
      assert IsFor(w, r, i, k);
      ArrivalUnfolds(supply, w, r, k, arp, dev);
      ArriveHello(w.(net := Link.Next(supply, w.net, DeliverTo(r, k))), r, i, k, w.net.sent[k].pt);
    } else {
      StrayUnfolds(supply, w, r, k, arp, dev);
    }
  }

  lemma ArriveHello(w: World, r: Role, i: nat, k: nat, pt: seq<byte>)
    requires i < MAX_SESSIONS
    ensures Arrive(w, r, i, k, Hello, pt) == w
  {}

  lemma StrayUnfolds(supply: seq<seq<byte>>, w: World, r: Role, k: nat, arp: bool, dev: bool)
    requires WorldInv(supply, w) && Fits(supply) && FromPeer(w, r, k) && Addressed(w, r, k) == MAX_SESSIONS
    requires w.net.sent[k].hdr.ctype != Hello
    ensures Handle(supply, w, r, k, arp, dev) == w
  {
    hide WorldInv, Link.Next, Handle, Admit, Arrive, FindSession, Fits;
    HandleIs(supply, w, r, k, arp, dev);
  }

  /** The delivery of a record of an existing session, in terms of the transition. */
  lemma ArrivalIs(supply: seq<seq<byte>>, w: World, r: Role, k: nat, arp: bool, dev: bool, i: nat)
    requires WorldInv(supply, w) && Seated(supply, w.net) && Fits(supply) && FromPeer(w, r, k) && i < MAX_SESSIONS
    ensures w.net.Keys(r).blocks <= |supply|
    ensures IsFor(w, r, i, k) ==>
              && w.Slot(r, i).state != Free && w.Slot(r, i).inst < |w.hist| && |w.Slot(r, i).rx| <= 4
              && var x, w1 := w.net.sent[k], w.(net := Link.Next(supply, w.net, DeliverTo(r, k)));
                 Handle(supply, w, r, k, arp, dev) ==
                   if InWindow(supply, w.net, r, x.hdr) then Arrive(w1, r, i, k, x.hdr.ctype, x.pt) else w
  {
    hide WorldInv, Link.Inv, BaseInv, Link.Next, InWindow, Handle, Arrive, Admit, Addressed, IsFor, Fits;
    PeerRecord(w, r, k);
    OpensIff(supply, w.net, r, k);
    AddressedIs(w, r, k);
    if IsFor(w, r, i, k) {
      ArrivalUnfolds(supply, w, r, k, arp, dev);
      NotFree(w, r, i, k);
      InstanceKnown(supply, w, r, i);
    }
  }

  lemma NotFree(w: World, r: Role, i: nat, k: nat)
    requires k < |w.wires| && k < |w.net.sent| && i < MAX_SESSIONS && IsFor(w, r, i, k)
    ensures w.Slot(r, i).state != Free
  {}

  lemma ArrivalUnfolds(supply: seq<seq<byte>>, w: World, r: Role, k: nat, arp: bool, dev: bool)
    requires WorldInv(supply, w) && Fits(supply) && FromPeer(w, r, k) && Addressed(w, r, k) < MAX_SESSIONS
    ensures var w1 := w.(net := Link.Next(supply, w.net, DeliverTo(r, k)));
            Handle(supply, w, r, k, arp, dev) ==
              if w1.net == w.net then w
              else Arrive(w1, r, Addressed(w, r, k), k, w.net.sent[k].hdr.ctype, w.net.sent[k].pt)
  {
    hide WorldInv, Link.Next, Handle, Admit, Arrive, FindSession, Fits;
    HandleIs(supply, w, r, k, arp, dev);
  }

  lemma InstanceKnown(supply: seq<seq<byte>>, w: World, r: Role, i: nat)
    requires WorldInv(supply, w) && i < MAX_SESSIONS
    ensures w.Slot(r, i).state != Free ==> w.Slot(r, i).inst < |w.hist| && |w.Slot(r, i).rx| <= RX_SLOTS
  {
    hide WorldInv;
    if w.Slot(r, i).state != Free { QueuedFacts(supply, w, r, i); }
  }

  lemma ArriveData(w: World, supply: seq<seq<byte>>, r: Role, i: nat, k: nat)
    requires k < |w.net.sent| && i < MAX_SESSIONS && w.Slot(r, i).inst < |w.hist| && |w.Slot(r, i).rx| <= 4
    ensures var w1 := w.(net := Link.Next(supply, w.net, DeliverTo(r, k)));
            var x, pt := w.Slot(r, i), w.net.sent[k].pt;
            OnlySlot(w, Arrive(w1, r, i, k, Data, pt), r, i,
                     if x.state == Established && |x.rx| < 4 then x.(rx := x.rx + [pt]) else x)
    ensures OnlySlot(w, w, r, i, w.Slot(r, i))
  {
    hide Link.Next;
  }

  lemma ArriveAck(w: World, supply: seq<seq<byte>>, r: Role, i: nat, k: nat)
    requires k < |w.net.sent| && i < MAX_SESSIONS
    ensures var w1 := w.(net := Link.Next(supply, w.net, DeliverTo(r, k))); var x := w.Slot(r, i);
            OnlySlot(w, Arrive(w1, r, i, k, HelloAck, w.net.sent[k].pt), r, i,
                     if x.state == HelloSent then x.(state := Established) else x)
    ensures OnlySlot(w, w, r, i, w.Slot(r, i))
  {
    hide Link.Next;
  }

  lemma ArriveClose(w: World, supply: seq<seq<byte>>, r: Role, i: nat, k: nat)
    requires k < |w.net.sent| && i < MAX_SESSIONS
    ensures var w1 := w.(net := Link.Next(supply, w.net, DeliverTo(r, k)));
            OnlySlot(w, Arrive(w1, r, i, k, ContentType.Close, w.net.sent[k].pt), r, i, w.Slot(r, i).(state := Closed))
    ensures OnlySlot(w, w, r, i, w.Slot(r, i))
  {
    hide Link.Next;
  }

  // ---------- from send to queue ----------

  /** `send` on slot `i` of the peer of `r` answers `Ok(n)` while both nodes hold the same number of key
      blocks, and slot `j` of `r` is the first that the message is for: Established, with room. */
  ghost predicate Expected(supply: seq<seq<byte>>, w: World, r: Role, i: nat, data: seq<byte>, arp: bool, dev: bool,
                           n: nat, j: nat)
  {
    && SendAnswer(w, Peer(r), i, data, arp, dev) == Ok(n) && w.net.Keys(r).blocks == w.net.Keys(Peer(r)).blocks
    && j < MAX_SESSIONS && i < MAX_SESSIONS && w.Slot(r, j).state == Established && |w.Slot(r, j).rx| < 4
    && var x := w.Slot(Peer(r), i); var v := Wire(x.localPort, x.peerPort, x.inst, true);
       ForSlot(w.Slot(r, j), v, x.id) && forall l :: 0 <= l < j ==> !ForSlot(w.Slot(r, l), v, x.id)
  }

  /** In every run without wipes such a message, delivered next, is queued as it was given to `send`, up
      to the 1400 octets a record carries: whatever was lost, repeated or reordered before it. */
  lemma SentIsQueued(supply: seq<seq<byte>>, cs: seq<Call>, r: Role, i: nat, data: seq<byte>, arp: bool, dev: bool,
                     n: nat, j: nat, arp': bool, dev': bool)
    requires Fits(supply) && NoWipes(cs) && Expected(supply, Play(supply, START, cs), r, i, data, arp, dev, n, j)
    ensures n == (if |data| < 1400 then |data| else 1400) && j < MAX_SESSIONS
    ensures var w := Play(supply, START, cs); var w1 := Send(supply, w, Peer(r), i, data, arp, dev);
            var x := w.Slot(r, j);
            OnlySlot(w, Handle(supply, w1, r, |w.net.sent|, arp', dev'), r, j, x.(rx := x.rx + [data[..n]]))
  {
    RunSeated(supply, cs);
    hide *;
    SentQueuedFrom(supply, Play(supply, START, cs), r, i, data, arp, dev, n, j, arp', dev');
  }

  lemma SentQueuedFrom(supply: seq<seq<byte>>, w: World, r: Role, i: nat, data: seq<byte>, arp: bool, dev: bool,
                       n: nat, j: nat, arp': bool, dev': bool)
    requires WorldInv(supply, w) && Seated(supply, w.net) && Fits(supply)
    requires Expected(supply, w, r, i, data, arp, dev, n, j)
    ensures n == (if |data| < 1400 then |data| else 1400) && j < MAX_SESSIONS
    ensures var w1 := Send(supply, w, Peer(r), i, data, arp, dev); var x := w.Slot(r, j);
            OnlySlot(w, Handle(supply, w1, r, |w.net.sent|, arp', dev'), r, j, x.(rx := x.rx + [data[..n]]))
  {
    hide WorldInv, Seated, Send, Handle, OnlySlot, InWindow, Arrive, Fits, ForSlot, SendAnswer;
    var w1 := Send(supply, w, Peer(r), i, data, arp, dev);
    var k := |w.net.sent|;
    SendIs(supply, w, Peer(r), i, data, arp, dev, n);
    SendKeeps(supply, w, Peer(r), i, data, arp, dev);
    SendSeated(supply, w, Peer(r), i, data, arp, dev);
    SendOpens(supply, w, r, i, data, arp, dev, n, j);
    ArrivalIs(supply, w1, r, k, arp', dev', j);
    ArriveData(w1, supply, r, j, k);
    SameSlots(w, w1, Handle(supply, w1, r, k, arp', dev'), r, j, w.Slot(r, j).(rx := w.Slot(r, j).rx + [data[..n]]));
  }

  lemma SameSlots(w: World, w1: World, w2: World, r: Role, i: nat, x: Session)
    requires w1.a == w.a && w1.b == w.b && OnlySlot(w1, w2, r, i, x)
    ensures OnlySlot(w, w2, r, i, x)
  {}

  /** The record just sealed is for slot `j` and in the receiver's window. */
  lemma SendOpens(supply: seq<seq<byte>>, w: World, r: Role, i: nat, data: seq<byte>, arp: bool, dev: bool,
                  n: nat, j: nat)
    requires WorldInv(supply, w) && Seated(supply, w.net) && Expected(supply, w, r, i, data, arp, dev, n, j)
    ensures var w1 := Send(supply, w, Peer(r), i, data, arp, dev); var k := |w.net.sent|;
            && FromPeer(w1, r, k) && w1.net.Keys(r).blocks <= |supply|
            && IsFor(w1, r, j, k) && InWindow(supply, w1.net, r, w1.net.sent[k].hdr)
  {
    hide WorldInv, Seated, Send, SendAnswer, ForSlot, InWindow;
    RolesKept(supply, w, r);
    SendIs(supply, w, Peer(r), i, data, arp, dev, n);
    SendInWindow(supply, w, r, i, data, arp, dev);
    var w1 := Send(supply, w, Peer(r), i, data, arp, dev);
    var x := w.Slot(Peer(r), i);
    assert w1.wires[|w.net.sent|] == Wire(x.localPort, x.peerPort, x.inst, true);
    forall l | 0 <= l <= j ensures w1.Slot(r, l) == w.Slot(r, l) { assert w1.At(r) == w.At(r); }
    assert IsFor(w1, r, j, |w.net.sent|);
    assert FromPeer(w1, r, |w.net.sent|);
  }

  lemma SendInWindow(supply: seq<seq<byte>>, w: World, r: Role, i: nat, data: seq<byte>, arp: bool, dev: bool)
    requires WorldInv(supply, w) && Seated(supply, w.net) && w.net.Keys(r).blocks == w.net.Keys(Peer(r)).blocks
    requires SendAnswer(w, Peer(r), i, data, arp, dev).Ok?
    ensures var w1 := Send(supply, w, Peer(r), i, data, arp, dev); var k := |w.net.sent|;
            k < |w1.net.sent| && w1.net.Keys(r).blocks <= |supply| && InWindow(supply, w1.net, r, w1.net.sent[k].hdr)
  {
    RolesKept(supply, w, Peer(r));
    hide WorldInv, Link.Inv, BaseInv, Link.Next, Stream, Clip, Send, SendAnswer;
    var x := w.Slot(Peer(r), i);
    OkSends(supply, w, Peer(r), i, data, arp, dev);
    FreshRecord(supply, w.net, r, Data, x.id, Clip(data));
    SealedRecord(supply, w.net, Peer(r), Data, x.id, Clip(data));
  }

  /** A `send` that answers Ok seals one record and brings it onto the channel. */
  lemma OkSends(supply: seq<seq<byte>>, w: World, q: Role, i: nat, data: seq<byte>, arp: bool, dev: bool)
    requires w.net.Keys(q).role == q && SendAnswer(w, q, i, data, arp, dev).Ok?
    ensures i < MAX_SESSIONS
    ensures var w1 := Send(supply, w, q, i, data, arp, dev); var x := w.Slot(q, i);
            && w1.net == Link.Next(supply, w.net, SealAt(q, Data, x.id, Clip(data)))
            && |w1.net.sent| == |w.net.sent| + 1
            && w1.wires == w.wires + [Wire(x.localPort, x.peerPort, x.inst, true)] && w1.a == w.a && w1.b == w.b
  {
    hide Link.Next, Clip, SealLane;
    SealAnswers(supply, w.net, q, w.Slot(q, i).id, Clip(data));
  }

  lemma SealAnswers(supply: seq<seq<byte>>, net: Sys, q: Role, id: U16, pt: seq<byte>)
    requires net.Keys(q).role == q && SealLane(net.Keys(q).Tx(), Data, id, pt, MAX_RECORD_LEN).Ok?
    ensures |Link.Next(supply, net, SealAt(q, Data, id, pt)).sent| == |net.sent| + 1
  {
    hide SealLane;
  }
}
