/** Handing sessions out: `accept` gives each server session to one caller only. */
module Accepting {
  import opened Bytes
  import opened Qtls
  import opened Link
  import opened Sessions
  import opened SessionInvariant
  import opened SessionRuns
  import opened Delivery

  /** An Established server session on the port that nobody has been given yet. */
  predicate Pending(x: Session, port: U16) { x.state == Established && !x.accepted && x.localPort == port }

  ghost predicate FirstPending(t: Table, port: U16, i: nat)
    requires i < MAX_SESSIONS
  {
    Pending(t[i], port) && forall j :: 0 <= j < i ==> !Pending(t[j], port)
  }

  lemma {:induction false} PendingFound(t: Table, port: U16, k: nat)
    requires k <= MAX_SESSIONS
    ensures var i := FindPending(t, port, k);
            (i < MAX_SESSIONS ==> Pending(t[i], port)) && forall j :: k <= j < i ==> !Pending(t[j], port)
    decreases MAX_SESSIONS - k
  {
    if k < MAX_SESSIONS { PendingFound(t, port, k + 1); }
  }

  /** `accept` hands out the first pending slot of the port, marking it and nothing else; when none is
      pending it answers None and changes nothing. */
  lemma AcceptIs(w: World, r: Role, port: U16)
    ensures forall i :: 0 <= i < MAX_SESSIONS && FirstPending(w.At(r).sessions, port, i) ==>
              && FindPending(w.At(r).sessions, port, 0) == i
              && OnlySlot(w, Accept(w, r, port), r, i, w.Slot(r, i).(accepted := true))
    ensures (forall i :: 0 <= i < MAX_SESSIONS ==> !Pending(w.Slot(r, i), port)) ==>
              FindPending(w.At(r).sessions, port, 0) == MAX_SESSIONS && Accept(w, r, port) == w
  {
    PendingFound(w.At(r).sessions, port, 0);
    hide FindPending, Pending;
    forall i | 0 <= i < MAX_SESSIONS ensures w.Slot(r, i) == w.At(r).sessions[i] {}
    var i := FindPending(w.At(r).sessions, port, 0);
    assert i < MAX_SESSIONS ==> Pending(w.Slot(r, i), port);
  }

  // ---------- messages ----------

  /** `recv` hands over the oldest message and nothing else; without one, or with too little room for it, it
      changes nothing. */
  lemma RecvIs(supply: seq<seq<byte>>, w: World, r: Role, i: nat, room: nat)
    requires WorldInv(supply, w) && i < MAX_SESSIONS
    ensures var x := w.Slot(r, i); var w' := Recv(w, r, i, room);
            if x.state != Free && x.rx != [] && |x.rx[0]| <= room
            then OnlySlot(w, w', r, i, x.(rx := x.rx[1..])) && x.inst < |w.hist| == |w'.hist|
                 && (forall n :: 0 <= n < |w.hist| ==>
                       w'.hist[n].popped == w.hist[n].popped + if n == x.inst then [x.rx[0]] else [])
            else w' == w
  {
    hide WorldInv;
    InstanceKnown(supply, w, r, i);
    FreeIsEmpty(supply, w, r, i);
  }

  lemma FreeIsEmpty(supply: seq<seq<byte>>, w: World, r: Role, i: nat)
    requires WorldInv(supply, w) && i < MAX_SESSIONS
    ensures w.Slot(r, i).state == Free ==> w.Slot(r, i).rx == []
  {
  }

  // ---------- no session is handed out twice ----------

  /** Instance `n` of node `r` has been handed out. */
  ghost predicate Claimed(w: World, r: Role, n: nat)
  {
    n < |w.hist| && forall i :: 0 <= i < MAX_SESSIONS && w.Slot(r, i).state != Free && w.Slot(r, i).inst == n ==>
                      w.Slot(r, i).accepted
  }

  /** A slot keeps its instance and its mark, is emptied, or starts a new instance. */
  ghost predicate Moves(w: World, w': World)
  {
    && |w.hist| <= |w'.hist|
    && forall r: Role, i :: 0 <= i < MAX_SESSIONS ==> SlotMoves(w.Slot(r, i), w'.Slot(r, i), |w.hist|)
  }

  predicate SlotMoves(x: Session, x': Session, instances: nat)
  {
    x'.state == Free || x'.inst >= instances || (x.state != Free && x'.inst == x.inst && (x.accepted ==> x'.accepted))
  }

  lemma SendMoves(supply: seq<seq<byte>>, w: World, r: Role, i: nat, t: ContentType, data: seq<byte>, arp: bool,
                  dev: bool)
    requires i < MAX_SESSIONS
    ensures var w' := SendRecord(supply, w, r, i, t, data, arp, dev); w'.a == w.a && w'.b == w.b && w'.hist == w.hist
  {
    hide Link.Next;
  }

  lemma OneMoves(w: World, w': World, r: Role, i: nat, x: Session)
    requires OnlySlot(w, w', r, i, x) && |w.hist| <= |w'.hist|
    requires i < MAX_SESSIONS ==> SlotMoves(w.Slot(r, i), x, |w.hist|)
    ensures Moves(w, w')
  {}

  lemma ConnectMoves(supply: seq<seq<byte>>, w: World, r: Role, port: U16, arp: bool, dev: bool)
    ensures Moves(w, Connect(supply, w, r, port, arp, dev))
  {
    hide SendRecord;
    var st, id := w.At(r), w.At(r).nextSession;
    var i := FindFree(st.sessions, 0);
    if arp && i < MAX_SESSIONS {
      var local: U16 := EPHEMERAL_BASE + id % 16384;
      var x := Session(HelloSent, id, port, local, true, [], |w.hist|);
      var w1 := w.With(r, st.(sessions := st.sessions[i := x], nextSession := NextId(id)))
                 .(hist := w.hist + [Hist(r, local, port, id, true, 0, [], [])]);
      SendMoves(supply, w1, r, i, Hello, [], arp, dev);
    }
  }

  lemma CloseMoves(supply: seq<seq<byte>>, w: World, r: Role, i: nat, arp: bool, dev: bool)
    ensures Moves(w, Sessions.Close(supply, w, r, i, arp, dev))
  {
    hide SendRecord;
    if i < MAX_SESSIONS { SendMoves(supply, w, r, i, ContentType.Close, [], arp, dev); }
  }

  lemma SendCallMoves(supply: seq<seq<byte>>, w: World, r: Role, i: nat, data: seq<byte>, arp: bool, dev: bool)
    ensures Moves(w, Send(supply, w, r, i, data, arp, dev))
  {
    hide SendRecord, Clip;
    if i < MAX_SESSIONS { SendMoves(supply, w, r, i, Data, Clip(data), arp, dev); }
  }

  lemma AdmitMoves(supply: seq<seq<byte>>, w: World, r: Role, k: nat, sport: U16, dport: U16, id: U16, arp: bool,
                   dev: bool)
    ensures Moves(w, Admit(supply, w, r, k, sport, dport, id, arp, dev))
  {
    hide SendRecord;
    var i := FindFree(w.At(r).sessions, 0);
    if i < MAX_SESSIONS {
      var x := Session(Established, id, sport, dport, false, [], |w.hist|);
      var w1 := w.WithSlot(r, i, x).(hist := w.hist + [Hist(r, dport, sport, id, false, k, [], [])]);
      SendMoves(supply, w1, r, i, HelloAck, [], arp, dev);
    }
  }

  lemma ArriveMoves(w: World, r: Role, i: nat, k: nat, t: ContentType, pt: seq<byte>)
    requires i < MAX_SESSIONS && w.Slot(r, i).state != Free
    ensures Moves(w, Arrive(w, r, i, k, t, pt))
  {}

  lemma HandleMoves(supply: seq<seq<byte>>, w: World, r: Role, k: nat, arp: bool, dev: bool)
    requires WorldInv(supply, w) && Fits(supply)
    ensures Moves(w, Handle(supply, w, r, k, arp, dev))
  {
    if FromPeer(w, r, k) {
      HandleIs(supply, w, r, k, arp, dev);
      hide WorldInv, Link.Next, Handle, Admit, Arrive, Moves;
      Still(w);
      var w1 := w.(net := Link.Next(supply, w.net, DeliverTo(r, k)));
      var h := w.net.sent[k].hdr;
      var i := FindSession(w.At(r).sessions, w.wires[k].sport, w.wires[k].dport, h.sessionId, 0);
      AdmitMoves(supply, w1, r, k, w.wires[k].sport, w.wires[k].dport, h.sessionId, arp, dev);
      AfterNet(w, w1, Admit(supply, w1, r, k, w.wires[k].sport, w.wires[k].dport, h.sessionId, arp, dev));
      if i < MAX_SESSIONS {
        ArriveMoves(w1, r, i, k, h.ctype, w.net.sent[k].pt);
        AfterNet(w, w1, Arrive(w1, r, i, k, h.ctype, w.net.sent[k].pt));
      }
    } else {
      hide WorldInv, Link.Next, Admit, Arrive, ParseHeader, FindSession;
    }
  }

  lemma Still(w: World)
    ensures Moves(w, w)
  {}

  lemma AfterNet(w: World, w1: World, w': World)
    requires w1 == w.(net := w1.net) && Moves(w1, w')
    ensures Moves(w, w')
  {
    forall r: Role, i | 0 <= i < MAX_SESSIONS ensures SlotMoves(w.Slot(r, i), w'.Slot(r, i), |w.hist|) {
      assert w1.Slot(r, i) == w.Slot(r, i);
    }
  }

  lemma {:induction false} WipeMoves(w: World, r: Role, n: nat)
    requires n <= MAX_SESSIONS
    ensures Moves(w, WipeQueues(w, r, n)) && |WipeQueues(w, r, n).hist| == |w.hist|
    decreases n
  {
    if n > 0 { WipeMoves(w, r, n - 1); }
  }

  lemma StepMoves(supply: seq<seq<byte>>, w: World, c: Call)
    requires WorldInv(supply, w) && Fits(supply)
    ensures Moves(w, Step(supply, w, c))
  {
    hide WorldInv, Link.Next, Listen, Connect, Accept, Send, Recv, Sessions.Close, Handle, WipeQueues, Moves;
    match c
    case DoListen(r, port) => QuietMoves(w, r, port, 0, 0);
    case DoConnect(r, port, arp, dev) => ConnectMoves(supply, w, r, port, arp, dev);
    case DoAccept(r, port) => QuietMoves(w, r, port, 0, 0);
    case DoSend(r, i, data, arp, dev) => SendCallMoves(supply, w, r, i, data, arp, dev);
    case DoRecv(r, i, room) => QuietMoves(w, r, 0, i, room);
    case DoClose(r, i, arp, dev) => CloseMoves(supply, w, r, i, arp, dev);
    case DoDeliver(r, k, arp, dev) => HandleMoves(supply, w, r, k, arp, dev);
    case DoDeposit(r) =>
      Still(w.(net := Link.Next(supply, w.net, DepositAt(r))));
      AfterNet(w, w.(net := Link.Next(supply, w.net, DepositAt(r))), w.(net := Link.Next(supply, w.net, DepositAt(r))));
    case DoWipe(r) =>
      var w1 := w.(net := Link.Next(supply, w.net, WipeAt(r)));
      WipeMoves(w1, r, MAX_SESSIONS);
      AfterNet(w, w1, WipeStack(supply, w, r));
  }

  lemma QuietMoves(w: World, r: Role, port: U16, i: nat, room: nat)
    ensures Moves(w, Listen(w, r, port)) && Moves(w, Accept(w, r, port)) && Moves(w, Recv(w, r, i, room))
  {
    hide FirstZero, FindPending;
    PendingFound(w.At(r).sessions, port, 0);
  }

  lemma StaysClaimed(w: World, w': World, r: Role, n: nat)
    requires Moves(w, w') && Claimed(w, r, n)
    ensures Claimed(w', r, n)
  {
    forall i | 0 <= i < MAX_SESSIONS && w'.Slot(r, i).state != Free && w'.Slot(r, i).inst == n
      ensures w'.Slot(r, i).accepted
    {
      assert SlotMoves(w.Slot(r, i), w'.Slot(r, i), |w.hist|);
    }
  }

  /** The call hands out slot `i` of its node. */
  ghost predicate HandsOut(w: World, c: Call, i: nat)
  {
    c.DoAccept? && i < MAX_SESSIONS && FirstPending(w.At(c.r).sessions, c.port, i)
  }

  lemma HandedOutClaimed(supply: seq<seq<byte>>, w: World, c: Call, i: nat)
    requires WorldInv(supply, w) && HandsOut(w, c, i)
    ensures Claimed(Step(supply, w, c), c.r, w.Slot(c.r, i).inst)
  {
    hide WorldInv, Accept, FindPending;
    ConnOf(supply, w, c.r, i);
    AcceptIs(w, c.r, c.port);
    SlotFacts(supply, w, c.r, i);
    AcceptKeepsHist(w, c.r, c.port);
  }

  lemma AcceptKeepsHist(w: World, r: Role, port: U16)
    ensures Accept(w, r, port).hist == w.hist
  {
    hide FindPending;
  }

  lemma {:induction false} ClaimedFrom(supply: seq<seq<byte>>, cs: seq<Call>, m: nat, n: nat, r: Role, inst: nat)
    requires Fits(supply) && m <= n <= |cs| && Claimed(Play(supply, START, cs[..m]), r, inst)
    ensures Claimed(Play(supply, START, cs[..n]), r, inst)
    decreases n
  {
    hide Claimed, Step, WorldInv, Fits;
    if m < n {
      ClaimedFrom(supply, cs, m, n - 1, r, inst);
      assert cs[..n][..n - 1] == cs[..n - 1];
      StartInv(supply);
      PlayKeeps(supply, START, cs[..n - 1]);
      StepMoves(supply, Play(supply, START, cs[..n - 1]), cs[n - 1]);
      StaysClaimed(Play(supply, START, cs[..n - 1]), Play(supply, START, cs[..n]), r, inst);
    }
  }

  /** In every run, two calls of `accept` at a node never hand out the same session. */
  lemma AcceptedOnce(supply: seq<seq<byte>>, cs: seq<Call>, m: nat, n: nat, i: nat, j: nat)
    requires Fits(supply) && m < n < |cs| && cs[m].r == cs[n].r
    requires HandsOut(Play(supply, START, cs[..m]), cs[m], i) && HandsOut(Play(supply, START, cs[..n]), cs[n], j)
    ensures i < MAX_SESSIONS && j < MAX_SESSIONS
    ensures Play(supply, START, cs[..m]).Slot(cs[m].r, i).inst != Play(supply, START, cs[..n]).Slot(cs[n].r, j).inst
  {
    hide Play, WorldInv, Step, Fits;
    StartInv(supply);
    var w := Play(supply, START, cs[..m]);
    PlayKeeps(supply, START, cs[..m]);
    HandedOutClaimed(supply, w, cs[m], i);
    PlayOne(supply, cs, m);
    ClaimedFrom(supply, cs, m + 1, n, cs[m].r, w.Slot(cs[m].r, i).inst);
  }

  lemma PlayOne(supply: seq<seq<byte>>, cs: seq<Call>, m: nat)
    requires m < |cs|
    ensures Play(supply, START, cs[..m + 1]) == Step(supply, Play(supply, START, cs[..m]), cs[m])
  {
    hide Step;
    assert cs[..m + 1][..m] == cs[..m];
  }
}
