/** What an emergency wipe takes away: queued messages, and every key octet until the next block. */
module Wiping {
  import opened Wrappers
  import opened Bytes
  import opened KeyLane
  import opened Qtls
  import opened Link
  import opened Sessions
  import opened SessionInvariant
  import opened Delivery
  import opened Accepting
  import opened Handshake

  /** After a wipe every session of the node is as before, its queue empty; the peer keeps its own. */
  lemma WipeIs(supply: seq<seq<byte>>, w: World, r: Role)
    requires WorldInv(supply, w)
    ensures var w' := WipeStack(supply, w, r);
            && w'.At(Peer(r)) == w.At(Peer(r)) && w'.At(r).listen == w.At(r).listen
            && w'.At(r).nextSession == w.At(r).nextSession
            && forall i :: 0 <= i < MAX_SESSIONS ==> w'.Slot(r, i) == w.Slot(r, i).(rx := [])
  {
    hide WorldInv, Link.Next, WipeQueues;
    var w1 := w.(net := Link.Next(supply, w.net, WipeAt(r)));
    forall i | 0 <= i < MAX_SESSIONS ensures w1.Slot(r, i).rx == [] || w1.Slot(r, i).inst < |w1.hist| {
      QueueKnown(supply, w, r, i);
      assert w1.Slot(r, i) == w.Slot(r, i);
    }
    QueuesEmptied(w1, r, MAX_SESSIONS);
  }

  lemma QueueKnown(supply: seq<seq<byte>>, w: World, r: Role, i: nat)
    requires WorldInv(supply, w) && i < MAX_SESSIONS
    ensures w.Slot(r, i).rx == [] || w.Slot(r, i).inst < |w.hist|
  {
    hide WorldInv;
    InstanceKnown(supply, w, r, i);
    FreeIsEmpty(supply, w, r, i);
  }

  lemma {:induction false} QueuesEmptied(w: World, r: Role, n: nat)
    requires n <= MAX_SESSIONS
    requires forall i :: 0 <= i < MAX_SESSIONS ==> w.Slot(r, i).rx == [] || w.Slot(r, i).inst < |w.hist|
    ensures var w' := WipeQueues(w, r, n);
            && w'.At(Peer(r)) == w.At(Peer(r)) && w'.net == w.net && |w'.hist| == |w.hist|
            && w'.At(r) == w.At(r).(sessions := w'.At(r).sessions)
            && forall i :: 0 <= i < MAX_SESSIONS ==>
                 w'.Slot(r, i) == if i < n then w.Slot(r, i).(rx := []) else w.Slot(r, i)
    decreases n
  {
    if n > 0 { QueuesEmptied(w, r, n - 1); }
  }

  // ---------- no keys, no records ----------

  predicate Drained(k: PeerKeys) { k.lane0.window == [] && k.lane1.window == [] }

  /** Nothing that `r` sealed or opened has been added. */
  ghost predicate Silent(s: Sys, s': Sys, r: Role)
  {
    && s.sent <= s'.sent && s.got <= s'.got
    && (forall k :: |s.sent| <= k < |s'.sent| ==> s'.sent[k].from != r)
    && (forall k :: |s.got| <= k < |s'.got| ==> s'.got[k].node != r)
  }

  ghost predicate Mute(s: Sys, s': Sys, r: Role)
  {
    Drained(s.Keys(r)) ==> Drained(s'.Keys(r)) && Silent(s, s', r)
  }

  lemma EventMute(supply: seq<seq<byte>>, s: Sys, e: Link.Event, r: Role)
    requires e != DepositAt(r)
    ensures Mute(s, Link.Next(supply, s, e), r)
  {
    hide SealLane, OpenLane, DepositBlock;
    match e
    case DepositAt(_) =>
    case SealAt(q, t, sid, pt) => if Drained(s.Keys(r)) { NothingSealed(s.Keys(r).Tx(), t, sid, pt); }
    case DeliverTo(q, k) =>
      if Drained(s.Keys(r)) && k < |s.sent| { NothingOpened(s.Keys(r).Rx(), s.sent[k].rec); }
    case WipeAt(_) =>
  }

  lemma NothingSealed(l: Lane, t: ContentType, sid: U16, pt: seq<byte>)
    requires l.window == []
    ensures SealLane(l, t, sid, pt, MAX_RECORD_LEN).Err?
  {
    hide RecordBytes;
  }

  lemma NothingOpened(l: Lane, rec: seq<byte>)
    requires l.window == []
    ensures OpenLane(l, rec, MAX_PAYLOAD).Err?
  {
    hide ParseHeader, PolyField.Mac, XorBytes, LaneConsume;
  }

  lemma SendMute(supply: seq<seq<byte>>, w: World, q: Role, i: nat, t: ContentType, data: seq<byte>, arp: bool,
                 dev: bool, r: Role)
    requires i < MAX_SESSIONS
    ensures Mute(w.net, SendRecord(supply, w, q, i, t, data, arp, dev).net, r)
  {
    EventMute(supply, w.net, SealAt(q, t, w.Slot(q, i).id, data), r);
    hide Link.Next, Drained;
  }

  lemma MuteTwice(s: Sys, s': Sys, s'': Sys, r: Role)
    requires Mute(s, s', r) && Mute(s', s'', r)
    ensures Mute(s, s'', r)
  {
    hide Drained;
    if Drained(s.Keys(r)) {
      forall k | |s.sent| <= k < |s''.sent| ensures s''.sent[k].from != r {
        if k < |s'.sent| { assert s''.sent[k] == s'.sent[k]; }
      }
      forall k | |s.got| <= k < |s''.got| ensures s''.got[k].node != r {
        if k < |s'.got| { assert s''.got[k] == s'.got[k]; }
      }
    }
  }

  lemma MuteSame(s: Sys, r: Role)
    ensures Mute(s, s, r)
  {}

  lemma SendCallMute(supply: seq<seq<byte>>, w: World, q: Role, i: nat, data: seq<byte>, arp: bool, dev: bool, r: Role)
    ensures Mute(w.net, Send(supply, w, q, i, data, arp, dev).net, r)
    ensures Mute(w.net, Sessions.Close(supply, w, q, i, arp, dev).net, r)
  {
    hide SendRecord, Mute, Clip;
    MuteSame(w.net, r);
    if i < MAX_SESSIONS {
      SendMute(supply, w, q, i, Data, Clip(data), arp, dev, r);
      SendMute(supply, w, q, i, ContentType.Close, [], arp, dev, r);
    }
  }

  lemma HandleMute(supply: seq<seq<byte>>, w: World, q: Role, k: nat, arp: bool, dev: bool, r: Role)
    ensures Mute(w.net, Handle(supply, w, q, k, arp, dev).net, r)
  {
    hide Link.Next, Mute, SendRecord, Arrive, ParseHeader, FindSession;
    MuteSame(w.net, r);
    var net' := Link.Next(supply, w.net, DeliverTo(q, k));
    var w1 := w.(net := net');
    EventMute(supply, w.net, DeliverTo(q, k), r);
    GotGrows(supply, w.net, DeliverTo(q, k));
    if k < |w.net.sent| && k < |w.wires| && ParseHeader(w.net.sent[k].rec).Ok? && |net'.got| > |w.net.got| {
      var hdr, got := ParseHeader(w.net.sent[k].rec).value, net'.got[|net'.got| - 1];
      var sport, dport := w.wires[k].sport, w.wires[k].dport;
      var i, j := FindSession(w.At(q).sessions, sport, dport, hdr.sessionId, 0), FindFree(w.At(q).sessions, 0);
      if i < MAX_SESSIONS {
        ArriveNet(w1, q, i, k, got.hdr.ctype, got.pt);
      } else if j < MAX_SESSIONS {
        var x := Session(Established, hdr.sessionId, sport, dport, false, [], |w1.hist|);
        var w2 := w1.WithSlot(q, j, x).(hist := w1.hist + [Hist(q, dport, sport, hdr.sessionId, false, k, [], [])]);
        SendMute(supply, w2, q, j, HelloAck, [], arp, dev, r);
        MuteTwice(w.net, net', SendRecord(supply, w2, q, j, HelloAck, [], arp, dev).net, r);
      }
    }
  }

  lemma GotGrows(supply: seq<seq<byte>>, s: Sys, e: Link.Event)
    ensures |Link.Next(supply, s, e).got| >= |s.got|
  {}

  lemma StepMute(supply: seq<seq<byte>>, w: World, c: Call, r: Role)
    requires c != DoDeposit(r)
    ensures Mute(w.net, Step(supply, w, c).net, r)
  {
    hide Link.Next, Listen, Connect, Accept, Send, Recv, Sessions.Close, Handle, WipeQueues, Mute, FindFree,
         SendRecord;
    match c
    case DoListen(_, _) => MuteSame(w.net, r); QuietNet(w, c, supply);
    case DoConnect(q, port, arp, dev) =>
      MuteSame(w.net, r);
      ConnectUnfolds(supply, w, q, port, arp, dev);
      var i := FindFree(w.At(q).sessions, 0);
      if i < MAX_SESSIONS { SendMute(supply, WithClient(w, q, i, port), q, i, Hello, [], true, dev, r); }
    case DoAccept(_, _) => MuteSame(w.net, r); QuietNet(w, c, supply);
    case DoSend(q, i, data, arp, dev) => SendCallMute(supply, w, q, i, data, arp, dev, r);
    case DoRecv(_, _, _) => MuteSame(w.net, r); QuietNet(w, c, supply);
    case DoClose(q, i, arp, dev) => SendCallMute(supply, w, q, i, [], arp, dev, r);
    case DoDeliver(q, k, arp, dev) => HandleMute(supply, w, q, k, arp, dev, r);
    case DoDeposit(q) => EventMute(supply, w.net, DepositAt(q), r);
    case DoWipe(q) =>
      EventMute(supply, w.net, WipeAt(q), r);
      QueuesNet(w.(net := Link.Next(supply, w.net, WipeAt(q))), q, MAX_SESSIONS);
  }

  lemma {:induction false} QueuesNet(w: World, r: Role, n: nat)
    requires n <= MAX_SESSIONS
    ensures WipeQueues(w, r, n).net == w.net
    decreases n
  {
    if n > 0 { QueuesNet(w, r, n - 1); }
  }

  lemma {:induction false} PlayMute(supply: seq<seq<byte>>, w: World, cs: seq<Call>, r: Role)
    requires forall i :: 0 <= i < |cs| ==> cs[i] != DoDeposit(r)
    ensures Mute(w.net, Play(supply, w, cs).net, r)
    decreases |cs|
  {
    hide Step, Mute;
    if cs == [] {
      MuteSame(w.net, r);
    } else {
      var cs' := cs[..|cs| - 1];
      PlayMute(supply, w, cs', r);
      StepMute(supply, Play(supply, w, cs'), cs[|cs| - 1], r);
      MuteTwice(w.net, Play(supply, w, cs').net, Play(supply, w, cs).net, r);
    }
  }

  /** From a wipe until its next key block a node neither seals nor opens any record, whatever both sides
      do. */
  lemma WipedIsSilent(supply: seq<seq<byte>>, w: World, r: Role, cs: seq<Call>)
    requires forall i :: 0 <= i < |cs| ==> cs[i] != DoDeposit(r)
    ensures Silent(w.net, Play(supply, WipeStack(supply, w, r), cs).net, r)
  {
    hide Play, WipeQueues;
    var w1 := WipeStack(supply, w, r);
    QueuesNet(w.(net := Link.Next(supply, w.net, WipeAt(r))), r, MAX_SESSIONS);
    PlayMute(supply, w1, cs, r);
  }
}
