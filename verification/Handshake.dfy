/** Opening and closing: what `connect`, an arriving Hello and `close` do, and that a Hello and its
    acknowledgement leave both ends Established. */
module Handshake {
  import opened Wrappers
  import opened Bytes
  import opened KeyLane
  import opened Qtls
  import opened Link
  import opened Sessions
  import opened SessionInvariant
  import opened SessionRuns
  import opened Delivery

  // ---------- one record ----------

  /** One record was sealed by `r`, and nothing else has happened to keys, records and instances. */
  ghost predicate OneRecord(supply: seq<seq<byte>>, w: World, w': World, r: Role, t: ContentType, id: U16,
                            v: Wire)
  {
    var k := |w.net.sent|;
    && w'.net == Link.Next(supply, w.net, SealAt(r, t, id, []))
    && |w'.net.sent| == k + 1 && w'.net.sent[..k] == w.net.sent && w'.net.got == w.net.got
    && w'.net.sent[k].from == r && w'.net.sent[k].hdr.ctype == t && w'.net.sent[k].hdr.sessionId == id
    && w'.net.sent[k].pt == [] && w'.wires == w.wires + [v]
  }

  /** Of the invariant, what sealing at `r` depends on. */
  predicate Sound(w: World, r: Role) { |w.wires| == |w.net.sent| && w.net.Keys(r).role == r }

  /** An empty record can be sealed: its 32 key octets are there. */
  predicate HasKey(w: World, r: Role) { |w.net.Keys(r).Tx().window| >= 32 }

  lemma SealsWithKey(supply: seq<seq<byte>>, net: Sys, r: Role, t: ContentType, id: U16)
    requires net.Keys(r).role == r
    ensures var net' := Link.Next(supply, net, SealAt(r, t, id, []));
            if |net.Keys(r).Tx().window| >= 32 then |net'.sent| == |net.sent| + 1 else net' == net
  {
    hide RecordBytes;
  }

  lemma RecordSent(supply: seq<seq<byte>>, w: World, r: Role, i: nat, t: ContentType, arp: bool, dev: bool)
    requires i < MAX_SESSIONS && |w.wires| == |w.net.sent| && w.net.Keys(r).role == r
    ensures var w' := SendRecord(supply, w, r, i, t, [], arp, dev); var x := w.Slot(r, i);
            && w'.a == w.a && w'.b == w.b && w'.hist == w.hist
            && if arp && HasKey(w, r)
               then OneRecord(supply, w, w', r, t, x.id, Wire(x.localPort, x.peerPort, x.inst, dev))
               else w' == w
  {
    hide Link.Next;
    SealsWithKey(supply, w.net, r, t, w.Slot(r, i).id);
    SealAppends(supply, w.net, r, t, w.Slot(r, i).id, []);
  }

  /** With equal block counts the record just sealed lies in the peer's window. */
  lemma FreshInWindow(supply: seq<seq<byte>>, w: World, w': World, r: Role, t: ContentType, id: U16, v: Wire)
    requires Seated(supply, w.net) && OneRecord(supply, w, w', Peer(r), t, id, v)
    requires w.net.Keys(r).blocks == w.net.Keys(Peer(r)).blocks
    ensures w'.net.Keys(r) == w.net.Keys(r) && w'.net.Keys(r).blocks <= |supply|
    ensures InWindow(supply, w'.net, r, w'.net.sent[|w.net.sent|].hdr)
  {
    hide Link.Inv, BaseInv, Link.Next, Stream;
    FreshRecord(supply, w.net, r, t, id, []);
    SealedRecord(supply, w.net, Peer(r), t, id, []);
  }

  /** Sealing spends no blocks and leaves the other node's keys alone. */
  lemma SealKeepsBlocks(supply: seq<seq<byte>>, net: Sys, r: Role, t: ContentType, id: U16)
    ensures var net' := Link.Next(supply, net, SealAt(r, t, id, []));
            net'.Keys(r).blocks == net.Keys(r).blocks && net'.Keys(Peer(r)) == net.Keys(Peer(r))
  {
    hide SealLane;
  }

  // ---------- connect ----------

  /** Slot `i` is the first free one. */
  ghost predicate FirstFree(t: Table, i: nat)
    requires i < MAX_SESSIONS
  {
    t[i].state == Free && forall j :: 0 <= j < i ==> t[j].state != Free
  }

  lemma {:induction false} FreeFound(t: Table, k: nat)
    requires k <= MAX_SESSIONS
    ensures forall j :: k <= j < FindFree(t, k) ==> t[j].state != Free
    decreases MAX_SESSIONS - k
  {
    if k < MAX_SESSIONS { FreeFound(t, k + 1); }
  }

  lemma FirstFreeIs(t: Table, i: nat)
    requires i < MAX_SESSIONS
    ensures FirstFree(t, i) <==> FindFree(t, 0) == i
  {
    FreeFound(t, 0);
    hide FindFree;
  }

  function LocalPort(id: U16): U16 { 49152 + id % 16384 }

  /** `connect` with the address known, key for a record and a device that takes the frame: the first
      free slot becomes a client waiting for its acknowledgement, and a Hello goes out. */
  lemma ConnectOpens(supply: seq<seq<byte>>, w: World, r: Role, port: U16, i: nat)
    requires Sound(w, r) && HasKey(w, r) && i < MAX_SESSIONS && FirstFree(w.At(r).sessions, i)
    ensures var w' := Connect(supply, w, r, port, true, true); var id := w.At(r).nextSession;
            && OnlySlot(w, w', r, i, Session(HelloSent, id, port, LocalPort(id), true, [], |w.hist|))
            && OneRecord(supply, w, w', r, Hello, id, Wire(LocalPort(id), port, |w.hist|, true))
            && |w'.hist| == |w.hist| + 1 && w'.hist[|w.hist|].client && w'.At(Peer(r)) == w.At(Peer(r))
  {
    hide SendRecord, FindFree, FirstFree, Link.Next, OneRecord, OnlySlot, Connect;
    FirstFreeIs(w.At(r).sessions, i);
    var w1 := WithClient(w, r, i, port);
    RecordSent(supply, w1, r, i, Hello, true, true);
    SameRecord(supply, w, w1, SendRecord(supply, w1, r, i, Hello, [], true, true), r, Hello, w.At(r).nextSession,
               Wire(LocalPort(w.At(r).nextSession), port, |w.hist|, true));
    ConnectUnfolds(supply, w, r, port, true, true);
    WithClientIs(w, r, i, port);
    SlotsFrom(w, w1, SendRecord(supply, w1, r, i, Hello, [], true, true), r, i, w1.Slot(r, i));
    GrewRecord(supply, w1, SendRecord(supply, w1, r, i, Hello, [], true, true), r, Hello, w.At(r).nextSession,
               Wire(LocalPort(w.At(r).nextSession), port, |w.hist|, true));
  }

  /** The world with the client in its slot, before anything is sealed. */
  ghost function WithClient(w: World, r: Role, i: nat, port: U16): World
    requires i < MAX_SESSIONS
  {
    var st, id := w.At(r), w.At(r).nextSession;
    var x := Session(HelloSent, id, port, LocalPort(id), true, [], |w.hist|);
    w.With(r, st.(sessions := st.sessions[i := x], nextSession := NextId(id)))
     .(hist := w.hist + [Hist(r, LocalPort(id), port, id, true, 0, [], [])])
  }

  lemma WithClientIs(w: World, r: Role, i: nat, port: U16)
    requires i < MAX_SESSIONS
    ensures var w1 := WithClient(w, r, i, port); var id := w.At(r).nextSession;
            && w1.Slot(r, i) == Session(HelloSent, id, port, LocalPort(id), true, [], |w.hist|)
            && OnlySlot(w, w1, r, i, w1.Slot(r, i)) && w1.net == w.net && w1.wires == w.wires
            && |w1.hist| == |w.hist| + 1 && w1.hist[|w.hist|].client && w1.At(Peer(r)) == w.At(Peer(r))
  {}

  lemma ConnectUnfolds(supply: seq<seq<byte>>, w: World, r: Role, port: U16, arp: bool, dev: bool)
    ensures var i := FindFree(w.At(r).sessions, 0); var w' := Connect(supply, w, r, port, arp, dev);
            if !arp || i == MAX_SESSIONS then w' == w
            else
              var w1 := WithClient(w, r, i, port);
              var w2 := SendRecord(supply, w1, r, i, Hello, [], true, dev);
              w' == if Grew(w1, w2) && dev then w2 else w2.WithSlot(r, i, w1.Slot(r, i).(state := Free))
  {
    hide SendRecord, FindFree;
  }

  lemma SameRecord(supply: seq<seq<byte>>, w: World, w1: World, w2: World, r: Role, t: ContentType, id: U16, v: Wire)
    requires w1.net == w.net && w1.wires == w.wires
    ensures OneRecord(supply, w, w2, r, t, id, v) <==> OneRecord(supply, w1, w2, r, t, id, v)
  {
    hide Link.Next;
  }

  lemma GrewRecord(supply: seq<seq<byte>>, w: World, w': World, r: Role, t: ContentType, id: U16, v: Wire)
    ensures OneRecord(supply, w, w', r, t, id, v) ==> Grew(w, w') && |w'.wires| > |w.wires| && w'.wires[|w.wires|] == v
  {
    hide Link.Next;
  }

  lemma SlotsFrom(w: World, w1: World, w2: World, r: Role, i: nat, x: Session)
    requires OnlySlot(w, w1, r, i, x) && w2.a == w1.a && w2.b == w1.b
    ensures OnlySlot(w, w2, r, i, x)
  {
    forall q: Role, j | 0 <= j < MAX_SESSIONS ensures w2.Slot(q, j) == w1.Slot(q, j) { assert w2.At(q) == w1.At(q); }
  }

  /** In every other case no session is opened: free slots stay free, the others are untouched, and no
      record reaches the channel. */
  lemma ConnectRefused(supply: seq<seq<byte>>, w: World, r: Role, port: U16, arp: bool, dev: bool)
    requires Sound(w, r)
    requires !arp || !dev || !HasKey(w, r) || forall i :: 0 <= i < MAX_SESSIONS ==> w.Slot(r, i).state != Free
    ensures var w' := Connect(supply, w, r, port, arp, dev);
            && (forall q: Role, j :: 0 <= j < MAX_SESSIONS ==>
                  if w.Slot(q, j).state == Free then w'.Slot(q, j).state == Free else w'.Slot(q, j) == w.Slot(q, j))
            && !Shipped(w, w')
  {
    hide SendRecord, Link.Next, Connect, WithClient, OneRecord, OnlySlot, FindFree;
    ConnectUnfolds(supply, w, r, port, arp, dev);
    var i := FindFree(w.At(r).sessions, 0);
    if !arp || i == MAX_SESSIONS {
      StillFree(w, w, r, MAX_SESSIONS, w.Slot(r, 0));
    } else {
      WithClientIs(w, r, i, port);
      var w1 := WithClient(w, r, i, port);
      var w2 := SendRecord(supply, w1, r, i, Hello, [], true, dev);
      RecordSent(supply, w1, r, i, Hello, true, dev);
      var id := w.At(r).nextSession;
      GrewRecord(supply, w1, w2, r, Hello, id, Wire(LocalPort(id), port, |w.hist|, dev));
      SlotsFrom(w, w1, w2, r, i, w1.Slot(r, i));
      Replace(w, w2, r, i, w1.Slot(r, i), w1.Slot(r, i).(state := Free));
      StillFree(w, w2.WithSlot(r, i, w1.Slot(r, i).(state := Free)), r, i, w1.Slot(r, i).(state := Free));
    }
  }

  lemma Replace(w: World, w2: World, r: Role, i: nat, x: Session, y: Session)
    requires i < MAX_SESSIONS && OnlySlot(w, w2, r, i, x)
    ensures OnlySlot(w, w2.WithSlot(r, i, y), r, i, y)
  {}

  lemma StillFree(w: World, w': World, r: Role, i: nat, x: Session)
    requires i < MAX_SESSIONS ==> OnlySlot(w, w', r, i, x) && x.state == Free && w.Slot(r, i).state == Free
    requires i >= MAX_SESSIONS ==> w' == w
    ensures forall q: Role, j :: 0 <= j < MAX_SESSIONS ==>
              if w.Slot(q, j).state == Free then w'.Slot(q, j).state == Free else w'.Slot(q, j) == w.Slot(q, j)
  {}

  // ---------- an arriving Hello ----------

  /** A Hello for a listening port that no session waits for, in the receive window, with a free slot:
      that slot becomes Established, unclaimed and empty, whether or not the acknowledgement can be
      sent; it is sealed when the address is known and there is key, and goes out if the device
      takes it. */
  lemma HelloAdmits(supply: seq<seq<byte>>, w: World, r: Role, k: nat, arp: bool, dev: bool, i: nat)
    requires WorldInv(supply, w) && Seated(supply, w.net) && Fits(supply) && FromPeer(w, r, k)
    requires w.net.sent[k].hdr.ctype == Hello && w.wires[k].dport in w.At(r).listen
    requires forall j :: 0 <= j < MAX_SESSIONS ==> !IsFor(w, r, j, k)
    requires i < MAX_SESSIONS && FirstFree(w.At(r).sessions, i)
    requires w.net.Keys(r).blocks <= |supply| && InWindow(supply, w.net, r, w.net.sent[k].hdr)
    ensures var w1 := w.(net := Link.Next(supply, w.net, DeliverTo(r, k))); var w' := Handle(supply, w, r, k, arp, dev);
            var v, id := w.wires[k], w.net.sent[k].hdr.sessionId;
            && OnlySlot(w, w', r, i, Session(Established, id, v.sport, v.dport, false, [], |w.hist|))
            && |w'.hist| == |w.hist| + 1 && w1.net.sent == w.net.sent
            && if arp && HasKey(w, r)
               then OneRecord(supply, w1, w', r, HelloAck, id, Wire(v.dport, v.sport, |w.hist|, dev))
               else w'.net == w1.net && w'.wires == w.wires
  {
    hide WorldInv, Seated, InWindow, Link.Next, Handle, Admit, Addressed, IsFor, FirstFree, FindFree, OnlySlot,
         OneRecord, Fits;
    RolesKept(supply, w, r);
    PeerRecord(w, r, k);
    AddressedIs(w, r, k);
    FirstFreeIs(w.At(r).sessions, i);
    HelloUnfolds(supply, w, r, k, arp, dev);
    var w1 := w.(net := Link.Next(supply, w.net, DeliverTo(r, k)));
    DeliverKeepsTx(supply, w.net, r, k);
    NotSealed(supply, w.net, DeliverTo(r, k));
    var v, id := w.wires[k], w.net.sent[k].hdr.sessionId;
    AdmitIs(supply, w1, r, k, v.sport, v.dport, id, arp, dev, i);
    SameSlots(w, w1, Handle(supply, w, r, k, arp, dev), r, i,
              Session(Established, id, v.sport, v.dport, false, [], |w.hist|));
  }

  /** A Hello for no session changes no slot when its port is not listened on, no slot is free, or it is
      outside the receive window. */
  lemma HelloIgnored(supply: seq<seq<byte>>, w: World, r: Role, k: nat, arp: bool, dev: bool)
    requires WorldInv(supply, w) && Seated(supply, w.net) && Fits(supply) && FromPeer(w, r, k)
    requires w.net.sent[k].hdr.ctype == Hello && w.net.Keys(r).blocks <= |supply|
    requires forall j :: 0 <= j < MAX_SESSIONS ==> !IsFor(w, r, j, k)
    requires w.wires[k].dport !in w.At(r).listen || !InWindow(supply, w.net, r, w.net.sent[k].hdr)
             || forall j :: 0 <= j < MAX_SESSIONS ==> w.Slot(r, j).state != Free
    ensures forall q: Role :: Handle(supply, w, r, k, arp, dev).At(q) == w.At(q)
  {
    hide WorldInv, Seated, InWindow, Link.Next, Handle, Admit, Addressed, IsFor, FindFree, Fits;
    PeerRecord(w, r, k);
    AddressedIs(w, r, k);
    HelloUnfolds(supply, w, r, k, arp, dev);
    if forall j :: 0 <= j < MAX_SESSIONS ==> w.Slot(r, j).state != Free {
      forall j | 0 <= j < MAX_SESSIONS ensures w.At(r).sessions[j].state != Free { assert w.Slot(r, j).state != Free; }
      AdmitFull(supply, w.(net := Link.Next(supply, w.net, DeliverTo(r, k))), r, k, arp, dev, w.wires[k],
                w.net.sent[k].hdr.sessionId);
    }
  }

  lemma HelloUnfolds(supply: seq<seq<byte>>, w: World, r: Role, k: nat, arp: bool, dev: bool)
    requires WorldInv(supply, w) && Seated(supply, w.net) && Fits(supply) && FromPeer(w, r, k)
    requires w.net.sent[k].hdr.ctype == Hello && Addressed(w, r, k) == MAX_SESSIONS
    requires w.net.Keys(r).blocks <= |supply|
    ensures var w1 := w.(net := Link.Next(supply, w.net, DeliverTo(r, k))); var v := w.wires[k];
            Handle(supply, w, r, k, arp, dev) ==
              if v.dport in w.At(r).listen && InWindow(supply, w.net, r, w.net.sent[k].hdr)
              then Admit(supply, w1, r, k, v.sport, v.dport, w.net.sent[k].hdr.sessionId, arp, dev) else w
  {
    hide WorldInv, Link.Inv, BaseInv, Link.Next, InWindow, Handle, Admit, Fits, Sessions.FindSession;
    HandleIs(supply, w, r, k, arp, dev);
    OpensIff(supply, w.net, r, k);
  }

  lemma AdmitFull(supply: seq<seq<byte>>, w: World, r: Role, k: nat, arp: bool, dev: bool, v: Wire, id: U16)
    requires forall j :: 0 <= j < MAX_SESSIONS ==> w.At(r).sessions[j].state != Free
    ensures Admit(supply, w, r, k, v.sport, v.dport, id, arp, dev) == w
  {
    hide SendRecord;
  }

  lemma DeliverKeepsTx(supply: seq<seq<byte>>, net: Sys, r: Role, k: nat)
    requires net.Keys(r).role == r
    ensures var net' := Link.Next(supply, net, DeliverTo(r, k));
            && net'.Keys(r).role == r && net'.Keys(r).Tx() == net.Keys(r).Tx()
            && net'.Keys(r).blocks == net.Keys(r).blocks
            && net'.Keys(Peer(r)) == net.Keys(Peer(r))
  {
    hide OpenLane;
  }

  lemma AdmitIs(supply: seq<seq<byte>>, w: World, r: Role, k: nat, sport: U16, dport: U16, id: U16, arp: bool,
                dev: bool, i: nat)
    requires i < MAX_SESSIONS && FindFree(w.At(r).sessions, 0) == i
    requires |w.wires| == |w.net.sent| && w.net.Keys(r).role == r
    ensures var w' := Admit(supply, w, r, k, sport, dport, id, arp, dev);
            && OnlySlot(w, w', r, i, Session(Established, id, sport, dport, false, [], |w.hist|))
            && |w'.hist| == |w.hist| + 1
            && if arp && HasKey(w, r)
               then OneRecord(supply, w, w', r, HelloAck, id, Wire(dport, sport, |w.hist|, dev))
               else w'.net == w.net && w'.wires == w.wires
  {
    hide SendRecord, FindFree, Link.Next;
    var x := Session(Established, id, sport, dport, false, [], |w.hist|);
    var w1 := w.WithSlot(r, i, x).(hist := w.hist + [Hist(r, dport, sport, id, false, k, [], [])]);
    RecordSent(supply, w1, r, i, HelloAck, arp, dev);
  }

  // ---------- send ----------

  /** What `send` answers, in the order of its checks; a message needs 32 key octets and one more for
      each of its own. */
  lemma SendAnswerIs(w: World, r: Role, i: nat, data: seq<byte>, arp: bool, dev: bool)
    ensures var n := if |data| < 1400 then |data| else 1400;
            SendAnswer(w, r, i, data, arp, dev) ==
              if i >= 4 then Err(NoSession)
              else if w.Slot(r, i).state != Established then Err(NotEstablished)
              else if !arp then Err(if dev then ArpPending else DeviceFull)
              else if 32 + n > |w.net.Keys(r).Tx().window| then Err(KeyFault(InsufficientKey))
              else if !dev then Err(DeviceFull)
              else Ok(n)
  {
    hide RecordBytes;
  }

  // ---------- close ----------

  /** `close` empties the slot in any case; an Established session says goodbye first, when the address
      is known and there is key. */
  lemma CloseIs(supply: seq<seq<byte>>, w: World, r: Role, i: nat, arp: bool, dev: bool)
    requires Sound(w, r) && i < MAX_SESSIONS
    ensures var w' := Sessions.Close(supply, w, r, i, arp, dev); var x := w.Slot(r, i);
            && OnlySlot(w, w', r, i, Session(Free, 0, 0, 0, true, [], 0))
            && if x.state == Established && arp && HasKey(w, r)
               then OneRecord(supply, w, w', r, ContentType.Close, x.id, Wire(x.localPort, x.peerPort, x.inst, dev))
               else w'.net == w.net && w'.wires == w.wires
  {
    hide SendRecord, Link.Next;
    RecordSent(supply, w, r, i, ContentType.Close, arp, dev);
  }

  /** A Close that goes out and is delivered next closes the session it is for, in whatever state. */
  lemma CloseReaches(supply: seq<seq<byte>>, w: World, r: Role, i: nat, j: nat, arp: bool, dev: bool)
    requires WorldInv(supply, w) && Seated(supply, w.net) && Fits(supply) && i < MAX_SESSIONS && j < MAX_SESSIONS
    requires w.Slot(Peer(r), i).state == Established && HasKey(w, Peer(r))
    requires w.net.Keys(r).blocks == w.net.Keys(Peer(r)).blocks
    requires var x := w.Slot(Peer(r), i); var v := Wire(x.localPort, x.peerPort, x.inst, true);
             ForSlot(w.Slot(r, j), v, x.id) && forall l :: 0 <= l < j ==> !ForSlot(w.Slot(r, l), v, x.id)
    ensures var w1 := Sessions.Close(supply, w, Peer(r), i, true, true);
            OnlySlot(w1, Handle(supply, w1, r, |w.net.sent|, arp, dev), r, j, w.Slot(r, j).(state := Closed))
  {
    hide WorldInv, Seated, Handle, OnlySlot, InWindow, Arrive, Fits, ForSlot, OneRecord, Sessions.Close,
         Sessions.FindSession;
    var w1 := Sessions.Close(supply, w, Peer(r), i, true, true);
    var x, k := w.Slot(Peer(r), i), |w.net.sent|;
    RolesKept(supply, w, Peer(r));
    CloseIs(supply, w, Peer(r), i, true, true);
    CloseKeeps(supply, w, Peer(r), i, true, true);
    CloseSeated(supply, w, Peer(r), i, true, true);
    FreshInWindow(supply, w, w1, r, ContentType.Close, x.id, Wire(x.localPort, x.peerPort, x.inst, true));
    OtherNode(w, w1, Peer(r), i, Session(Free, 0, 0, 0, true, [], 0));
    assert Peer(Peer(r)) == r;
    RecordIsFor(supply, w, w1, r, ContentType.Close, x.id, Wire(x.localPort, x.peerPort, x.inst, true), j);
    ArrivalIs(supply, w1, r, k, arp, dev, j);
    ArriveClose(w1, supply, r, j, k);
  }

  lemma OtherNode(w: World, w': World, r: Role, i: nat, x: Session)
    requires OnlySlot(w, w', r, i, x)
    ensures forall j :: 0 <= j < MAX_SESSIONS ==> w'.Slot(Peer(r), j) == w.Slot(Peer(r), j)
  {}

  /** The record just sealed is for slot `j` of the other node. */
  lemma RecordIsFor(supply: seq<seq<byte>>, w: World, w': World, r: Role, t: ContentType, id: U16, v: Wire, j: nat)
    requires OneRecord(supply, w, w', Peer(r), t, id, v) && |w.wires| == |w.net.sent| && v.shipped && j < MAX_SESSIONS
    requires forall l :: 0 <= l < MAX_SESSIONS ==> w'.Slot(r, l) == w.Slot(r, l)
    ensures FromPeer(w', r, |w.net.sent|) && w'.net.sent[|w.net.sent|].hdr.ctype == t
    ensures IsFor(w', r, j, |w.net.sent|) <==>
              ForSlot(w.Slot(r, j), v, id) && forall l :: 0 <= l < j ==> !ForSlot(w.Slot(r, l), v, id)
  {
    hide Link.Next, ForSlot;
  }

  // ---------- the handshake ----------

  /** Node `r` has a free slot `i`, its peer has a free slot `j` and listens on the port; both have key for
      one record and the same number of blocks; and no session is in the way of the new one. */
  ghost predicate CanMeet(w: World, r: Role, port: U16, i: nat, j: nat)
  {
    var q, id := Peer(r), w.At(r).nextSession;
    && i < MAX_SESSIONS && j < MAX_SESSIONS && FirstFree(w.At(r).sessions, i) && FirstFree(w.At(q).sessions, j)
    && port in w.At(q).listen && w.net.Keys(r).blocks == w.net.Keys(q).blocks && HasKey(w, r) && HasKey(w, q)
    && (forall l :: 0 <= l < MAX_SESSIONS ==> !ForSlot(w.Slot(q, l), Wire(LocalPort(id), port, 0, true), id))
    && (forall l :: 0 <= l < i ==> !ForSlot(w.Slot(r, l), Wire(port, LocalPort(id), 0, true), id))
  }

  /** Both sessions are Established, each with the other's ports, and no other slot has changed. */
  ghost predicate Met(w: World, w': World, r: Role, port: U16, i: nat, j: nat)
  {
    var id := w.At(r).nextSession;
    && i < MAX_SESSIONS && j < MAX_SESSIONS
    && w'.Slot(r, i) == Session(Established, id, port, LocalPort(id), true, [], |w.hist|)
    && w'.Slot(Peer(r), j) == Session(Established, id, LocalPort(id), port, false, [], |w.hist| + 1)
    && (forall l :: 0 <= l < MAX_SESSIONS && l != i ==> w'.Slot(r, l) == w.Slot(r, l))
    && (forall l :: 0 <= l < MAX_SESSIONS && l != j ==> w'.Slot(Peer(r), l) == w.Slot(Peer(r), l))
  }

  /** In every run without wipes: when two nodes can meet, `connect`, the delivery of its Hello and the
      delivery of the acknowledgement leave both ends Established. */
  lemma HandshakeCompletes(supply: seq<seq<byte>>, cs: seq<Call>, r: Role, port: U16, i: nat, j: nat)
    requires Fits(supply) && NoWipes(cs) && CanMeet(Play(supply, START, cs), r, port, i, j)
    ensures var w := Play(supply, START, cs); var k := |w.net.sent|;
            var w1 := Connect(supply, w, r, port, true, true);
            var w2 := Handle(supply, w1, Peer(r), k, true, true);
            Met(w, Handle(supply, w2, r, k + 1, true, true), r, port, i, j)
  {
    RunSeated(supply, cs);
    hide *;
    MeetFrom(supply, Play(supply, START, cs), r, port, i, j);
  }

  lemma MeetFrom(supply: seq<seq<byte>>, w: World, r: Role, port: U16, i: nat, j: nat)
    requires WorldInv(supply, w) && Seated(supply, w.net) && Fits(supply) && CanMeet(w, r, port, i, j)
    ensures var k := |w.net.sent|; var w1 := Connect(supply, w, r, port, true, true);
            var w2 := Handle(supply, w1, Peer(r), k, true, true);
            Met(w, Handle(supply, w2, r, k + 1, true, true), r, port, i, j)
  {
    hide WorldInv, Seated, Fits, Connect, Handle, CanMeet, Met, Asked, Answered;
    var w1 := Connect(supply, w, r, port, true, true);
    var w2 := Handle(supply, w1, Peer(r), |w.net.sent|, true, true);
    Asking(supply, w, r, port, i, j);
    Answering(supply, w, w1, r, port, i, j);
    Acknowledging(supply, w, w2, r, port, i, j);
  }

  /** After `connect`: the client waits, its Hello is on the channel and can be opened. */
  ghost predicate Asked(supply: seq<seq<byte>>, w: World, w1: World, r: Role, port: U16, i: nat, j: nat)
  {
    var q, id, k := Peer(r), w.At(r).nextSession, |w.net.sent|;
    && i < MAX_SESSIONS && OnlySlot(w, w1, r, i, Session(HelloSent, id, port, LocalPort(id), true, [], |w.hist|))
    && |w1.hist| == |w.hist| + 1 && |w1.net.sent| == k + 1 && |w1.wires| == k + 1
    && FromPeer(w1, q, k) && w1.net.sent[k].hdr.ctype == Hello && w1.net.sent[k].hdr.sessionId == id
    && w1.wires[k].sport == LocalPort(id) && w1.wires[k].dport == port && w1.At(q) == w.At(q)
    && w1.net.Keys(q).blocks <= |supply| && InWindow(supply, w1.net, q, w1.net.sent[k].hdr)
    && w1.net.Keys(r).blocks == w1.net.Keys(q).blocks && HasKey(w1, q)
  }

  lemma Asking(supply: seq<seq<byte>>, w: World, r: Role, port: U16, i: nat, j: nat)
    requires WorldInv(supply, w) && Seated(supply, w.net) && Fits(supply) && CanMeet(w, r, port, i, j)
    ensures var w1 := Connect(supply, w, r, port, true, true);
            WorldInv(supply, w1) && Seated(supply, w1.net) && Asked(supply, w, w1, r, port, i, j)
  {
    hide WorldInv, Seated, Fits, Connect, InWindow, OnlySlot, Link.Next, FirstFree, ForSlot;
    var id, v := w.At(r).nextSession, Wire(LocalPort(w.At(r).nextSession), port, |w.hist|, true);
    RolesKept(supply, w, r);
    assert Peer(Peer(r)) == r;
    ConnectOpens(supply, w, r, port, i);
    ConnectKeeps(supply, w, r, port, true, true);
    ConnectSeated(supply, w, r, port, true, true);
    FreshInWindow(supply, w, Connect(supply, w, r, port, true, true), Peer(r), Hello, id, v);
    SealKeepsBlocks(supply, w.net, r, Hello, id);
  }

  /** After the Hello: the server is Established, its acknowledgement is on the channel and can be opened. */
  ghost predicate Answered(supply: seq<seq<byte>>, w: World, w2: World, r: Role, port: U16, i: nat, j: nat)
  {
    var q, id, k := Peer(r), w.At(r).nextSession, |w.net.sent| + 1;
    && i < MAX_SESSIONS && j < MAX_SESSIONS
    && (forall l :: 0 <= l < MAX_SESSIONS ==>
          w2.Slot(r, l) ==
            if l == i then Session(HelloSent, id, port, LocalPort(id), true, [], |w.hist|) else w.Slot(r, l))
    && (forall l :: 0 <= l < MAX_SESSIONS ==>
          w2.Slot(q, l) ==
            if l == j then Session(Established, id, LocalPort(id), port, false, [], |w.hist| + 1) else w.Slot(q, l))
    && FromPeer(w2, r, k) && w2.net.sent[k].hdr.ctype == HelloAck && w2.net.sent[k].hdr.sessionId == id
    && w2.wires[k].sport == port && w2.wires[k].dport == LocalPort(id)
    && w2.net.Keys(r).blocks <= |supply| && InWindow(supply, w2.net, r, w2.net.sent[k].hdr)
  }

  lemma Answering(supply: seq<seq<byte>>, w: World, w1: World, r: Role, port: U16, i: nat, j: nat)
    requires WorldInv(supply, w1) && Seated(supply, w1.net) && Fits(supply)
    requires CanMeet(w, r, port, i, j) && Asked(supply, w, w1, r, port, i, j)
    ensures var w2 := Handle(supply, w1, Peer(r), |w.net.sent|, true, true);
            WorldInv(supply, w2) && Seated(supply, w2.net) && Answered(supply, w, w2, r, port, i, j)
  {
    hide WorldInv, Seated, Fits, Handle, InWindow, Link.Next, FirstFree;
    var q, id, k := Peer(r), w.At(r).nextSession, |w.net.sent|;
    assert Peer(q) == r;
    forall l | 0 <= l < MAX_SESSIONS ensures !IsFor(w1, q, l, k) { assert w1.Slot(q, l) == w.Slot(q, l); }
    HelloAdmits(supply, w1, q, k, true, true, j);
    HandleKeeps(supply, w1, q, k, true, true);
    HandleSeated(supply, w1, q, k, true, true);
    RolesKept(supply, w1, q);
    DeliverKeepsTx(supply, w1.net, q, k);
    EventSeated(supply, w1.net, DeliverTo(q, k));
    var w1' := w1.(net := Link.Next(supply, w1.net, DeliverTo(q, k)));
    var v := Wire(port, LocalPort(id), |w1.hist|, true);
    FreshInWindow(supply, w1', Handle(supply, w1, q, k, true, true), r, HelloAck, id, v);
  }

  lemma Acknowledging(supply: seq<seq<byte>>, w: World, w2: World, r: Role, port: U16, i: nat, j: nat)
    requires WorldInv(supply, w2) && Seated(supply, w2.net) && Fits(supply)
    requires CanMeet(w, r, port, i, j) && Answered(supply, w, w2, r, port, i, j)
    ensures Met(w, Handle(supply, w2, r, |w.net.sent| + 1, true, true), r, port, i, j)
  {
    hide WorldInv, Seated, Fits, Handle, InWindow, Link.Next, FirstFree, Arrive;
    var k := |w.net.sent| + 1;
    forall l | 0 <= l < i ensures !ForSlot(w2.Slot(r, l), w2.wires[k], w2.net.sent[k].hdr.sessionId) {
      assert w2.Slot(r, l) == w.Slot(r, l);
    }
    assert IsFor(w2, r, i, k);
    ArrivalIs(supply, w2, r, k, true, true, i);
    ArriveAck(w2, supply, r, i, k);
  }

  // ---------- a first meeting ----------

  /** Both ends get the first two key blocks, B listens, A connects, and the two records are delivered. */
  ghost predicate FirstMeeting(cs: seq<Call>, port: U16)
  {
    && |cs| == 8
    && cs[0] == DoDeposit(A) && cs[1] == DoDeposit(A) && cs[2] == DoDeposit(B) && cs[3] == DoDeposit(B)
    && cs[4] == DoListen(B, port) && cs[5] == DoConnect(A, port, true, true)
    && cs[6] == DoDeliver(B, 0, true, true) && cs[7] == DoDeliver(A, 1, true, true)
  }

  ghost predicate BothEstablished(supply: seq<seq<byte>>, w: World, cs: seq<Call>)
  {
    Play(supply, w, cs).Slot(A, 0).state == Established && Play(supply, w, cs).Slot(B, 0).state == Established
  }

  /** For any port and any first two blocks with key for a record each, that run ends with both ends
      Established. */
  lemma FirstMeetingSucceeds(supply: seq<seq<byte>>, cs: seq<Call>, port: U16)
    requires FirstMeeting(cs, port) && Fits(supply) && |supply| >= 2
    requires Accepts(supply[0]) && Accepts(supply[1]) && |supply[0]| >= 32 && |supply[1]| >= 32
    ensures BothEstablished(supply, START, cs)
  {
    hide Play, CanMeet, Fits, NoWipes, Connect, Handle, Met;
    Prepared(supply, cs[..5], port);
    HandshakeCompletes(supply, cs[..5], A, port, 0, 0);
    LastThree(supply, cs, port);
    NothingSentYet(supply, cs[..5], port);
    MetEstablished(Play(supply, START, cs[..5]), Play(supply, START, cs), port);
  }

  lemma MetEstablished(w: World, w': World, port: U16)
    requires Met(w, w', A, port, 0, 0)
    ensures w'.Slot(A, 0).state == Established && w'.Slot(B, 0).state == Established
  {}

  /** Two blocks for each node, and B listens. */
  ghost predicate Preparation(cs: seq<Call>, port: U16)
  {
    |cs| == 5 && cs[0] == cs[1] == DoDeposit(A) && cs[2] == cs[3] == DoDeposit(B) && cs[4] == DoListen(B, port)
  }

  lemma NothingSentYet(supply: seq<seq<byte>>, cs: seq<Call>, port: U16)
    requires Preparation(cs, port)
    ensures Play(supply, START, cs).net.sent == []
  {
    hide DepositBlock, Listen;
    FiveCalls(supply, cs, port);
    QuietNet(START.(net := FourDeposits(supply)), DoListen(B, port), supply);
  }

  ghost function FourDeposits(supply: seq<seq<byte>>): Sys
  {
    var a := Link.Next(supply, Link.Next(supply, INIT, DepositAt(A)), DepositAt(A));
    Link.Next(supply, Link.Next(supply, a, DepositAt(B)), DepositAt(B))
  }

  lemma FiveCalls(supply: seq<seq<byte>>, cs: seq<Call>, port: U16)
    requires Preparation(cs, port)
    ensures Play(supply, START, cs) == Listen(START.(net := FourDeposits(supply)), B, port)
  {
    hide Link.Next, Listen, Connect, Accept, Send, Recv, Sessions.Close, Handle, WipeStack;
    OneMore(supply, cs, 5); OneMore(supply, cs, 4); OneMore(supply, cs, 3);
    OneMore(supply, cs, 2); OneMore(supply, cs, 1);
    assert cs[..5] == cs && cs[..0] == [];
  }

  lemma OneMore(supply: seq<seq<byte>>, cs: seq<Call>, n: nat)
    requires 0 < n <= |cs|
    ensures Play(supply, START, cs[..n]) == Step(supply, Play(supply, START, cs[..n - 1]), cs[n - 1])
  {
    hide Step;
    assert cs[..n][..n - 1] == cs[..n - 1];
  }

  lemma LastThree(supply: seq<seq<byte>>, cs: seq<Call>, port: U16)
    requires FirstMeeting(cs, port)
    ensures var w := Play(supply, START, cs[..5]);
            var asked := Connect(supply, w, A, port, true, true);
            Play(supply, START, cs) == Handle(supply, Handle(supply, asked, B, 0, true, true), A, 1, true, true)
  {
    hide Handle, Connect, Play, Listen, Accept, Send, Recv, Sessions.Close, WipeStack, Link.Next;
    OneMore(supply, cs, 8); OneMore(supply, cs, 7); OneMore(supply, cs, 6);
    assert cs[..8] == cs;
  }

  lemma Prepared(supply: seq<seq<byte>>, cs: seq<Call>, port: U16)
    requires Preparation(cs, port) && |supply| >= 2
    requires Accepts(supply[0]) && Accepts(supply[1]) && |supply[0]| >= 32 && |supply[1]| >= 32
    ensures NoWipes(cs) && CanMeet(Play(supply, START, cs), A, port, 0, 0)
  {
    hide Play, Link.Next;
    FiveCalls(supply, cs, port);
    DepositedTwice(supply);
    ListenedAtStart(START.(net := FourDeposits(supply)), port);
  }

  lemma DepositedTwice(supply: seq<seq<byte>>)
    requires |supply| >= 2 && Accepts(supply[0]) && Accepts(supply[1]) && |supply[0]| >= 32 && |supply[1]| >= 32
    ensures var net := FourDeposits(supply);
            && net.sent == [] && net.a.blocks == net.b.blocks && net.a.role == A && net.b.role == B
            && |net.a.Tx().window| >= 32 && |net.b.Tx().window| >= 32
  {}

  lemma ListenedAtStart(w: World, port: U16)
    requires w.a == EMPTY_STACK && w.b == EMPTY_STACK
    ensures var w' := Listen(w, B, port);
            && port in w'.b.listen && w'.a == w.a && w'.net == w.net
            && (forall l :: 0 <= l < MAX_SESSIONS ==> w'.Slot(A, l).state == Free && w'.Slot(B, l).state == Free)
  {
    assert w.b.listen[0] == 0;
    if port != 0 {
      var k := FirstZero(w.b.listen, 0);
      assert Listen(w, B, port).b.listen[k] == port;
    }
  }
}