/** One node's network stack, updated in place: the object whose calls `Sessions` describes.

    Every method takes, as ghosts, the key supply and a world `w` that the object mirrors at its own
    role; it leaves the object mirroring the world after that call.  What `SessionRuns` proves of
    all worlds therefore holds of the objects. */
module NetStack {
  import opened Wrappers
  import opened Bytes
  import opened KeyLane
  import opened Qtls
  import opened Frames
  import opened Link
  import opened Sessions
  import opened SessionInvariant

  /** A session slot; the instance number of `Sessions` is specification only. */
  datatype Entry = Entry(state: State, id: U16, peerPort: U16, localPort: U16, accepted: bool, rx: seq<seq<byte>>)

  const EMPTY_ENTRY := Entry(Free, 0, 0, 0, true, [])

  function View(e: Entry, inst: nat): Session
  {
    Session(e.state, e.id, e.peerPort, e.localPort, e.accepted, e.rx, inst)
  }

  ghost function Views(es: seq<Entry>, insts: seq<nat>): (t: Table)
    requires |es| == MAX_SESSIONS && |insts| == MAX_SESSIONS
    ensures forall i :: 0 <= i < MAX_SESSIONS ==> t[i] == View(es[i], insts[i])
  {
    seq(MAX_SESSIONS, i requires 0 <= i < MAX_SESSIONS => View(es[i], insts[i]))
  }

  lemma ViewsUpdate(es: seq<Entry>, insts: seq<nat>, i: nat, e: Entry, n: nat)
    requires |es| == MAX_SESSIONS && |insts| == MAX_SESSIONS && i < MAX_SESSIONS
    ensures Views(es[i := e], insts[i := n]) == Views(es, insts)[i := View(e, n)]
  {}

  /** What sealing for a slot does to the sender's keys and to the channel. */
  lemma SendRecordIs(supply: seq<seq<byte>>, w: World, r: Role, i: nat, ctype: ContentType, data: seq<byte>,
                     arp: bool, dev: bool)
    requires i < MAX_SESSIONS && |w.wires| == |w.net.sent| && w.net.Keys(r).role == r
    ensures var w' := Sessions.SendRecord(supply, w, r, i, ctype, data, arp, dev); var x := w.Slot(r, i);
            && w'.a == w.a && w'.b == w.b && w'.hist == w.hist && |w'.wires| == |w'.net.sent| && (!arp ==> w' == w)
            && match SealLane(w.net.Keys(r).Tx(), ctype, x.id, data, MAX_RECORD_LEN)
               case Err(_) => w' == w
               case Ok(s) => arp ==>
                 && w'.net.Keys(r).role == r && w'.net.Keys(r).Tx() == s.lane
                 && w'.net.Keys(r).Rx() == w.net.Keys(r).Rx()
                 && |w'.net.sent| == |w.net.sent| + 1 && w'.net.sent[|w.net.sent|].rec == s.rec
                 && w'.wires == w.wires + [Wire(x.localPort, x.peerPort, x.inst, dev)]
  {
    hide SealLane;
  }

  /** The world with a client opened in slot `i`, its Hello not yet sealed. */
  ghost function ClientWorld(w: World, r: Role, i: nat, port: U16): (w': World)
    requires i < MAX_SESSIONS
    ensures w'.net == w.net && w'.wires == w.wires && w'.Slot(r, i).state == HelloSent && w'.Slot(r, i).peerPort == port
  {
    var st := w.At(r);
    var local: U16 := EPHEMERAL_BASE + st.nextSession % 16384;
    var x := Session(HelloSent, st.nextSession, port, local, true, [], |w.hist|);
    w.With(r, st.(sessions := st.sessions[i := x], nextSession := NextId(st.nextSession)))
     .(hist := w.hist + [Hist(r, local, port, st.nextSession, true, 0, [], [])])
  }

  lemma ConnectIs(supply: seq<seq<byte>>, w: World, r: Role, port: U16, arp: bool, dev: bool)
    ensures var i := FindFree(w.At(r).sessions, 0); var w' := Sessions.Connect(supply, w, r, port, arp, dev);
            if !arp || i == MAX_SESSIONS then w' == w && !Grew(w, w')
            else
              var w1 := ClientWorld(w, r, i, port);
              var w2 := Sessions.SendRecord(supply, w1, r, i, Hello, [], true, dev);
              && (Grew(w, w') <==> Grew(w1, w2)) && w'.net == w2.net && w'.wires == w2.wires && w1.wires == w.wires
              && w2.Slot(r, i).state == HelloSent && w2.Slot(r, i).peerPort == port
              && w' == if Grew(w1, w2) && dev then w2 else w2.WithSlot(r, i, w2.Slot(r, i).(state := Free))
  {
    hide Link.Next;
  }

  /** Delivering record `k` to its addressee, in terms of the receive lane. */
  lemma DeliverIs(supply: seq<seq<byte>>, net: Sys, r: Role, k: nat)
    requires k < |net.sent| && net.sent[k].from == Peer(r) && net.Keys(r).role == r
    ensures var net' := Link.Next(supply, net, DeliverTo(r, k));
            match OpenLane(net.Keys(r).Rx(), net.sent[k].rec, MAX_PAYLOAD)
            case Err(_) => net' == net
            case Ok(o) =>
              && net'.sent == net.sent && net'.got == net.got + [Got(r, k, o.hdr, o.pt)]
              && net'.Keys(r).role == r && net'.Keys(r).Rx() == o.lane && net'.Keys(r).Tx() == net.Keys(r).Tx()
  {
    hide OpenLane;
  }

  /** Record `k` as it comes out of the peer's frame. */
  ghost predicate Genuine(w: World, r: Role, k: nat, sport: U16, dport: U16, rec: seq<byte>)
  {
    FromPeer(w, r, k) && w.net.sent[k].rec == rec && w.wires[k].sport == sport && w.wires[k].dport == dport
  }

  /** A frame that carries record `k` reaches the other node as that record, with its ports,
      whatever padding the link adds. */
  lemma FrameIsGenuine(w: World, k: nat, dstMac: Mac, srcMac: Mac, src: Ip, dst: Ip, id: U16, trailer: seq<byte>)
    requires k < |w.net.sent| && k < |w.wires| && w.wires[k].shipped && OVERHEAD + |w.net.sent[k].rec| <= MAX_FRAME
    ensures var udp := UdpHeader(w.wires[k].sport, w.wires[k].dport); var rec := w.net.sent[k].rec;
            && Frames.Receive(FrameBytes(dstMac, srcMac, src, dst, udp, id, rec) + trailer, dstMac, dst) ==
                 Some((src, udp, rec))
            && Genuine(w, Peer(w.net.sent[k].from), k, udp.srcPort, udp.dstPort, rec)
  {
    hide Frames.Receive, FrameBytes;
    FrameRoundTrip(dstMac, srcMac, src, dst, UdpHeader(w.wires[k].sport, w.wires[k].dport), id, w.net.sent[k].rec,
                   trailer, dstMac, dst);
  }

  /** The network after node `r` has opened a record: accepted as record `k` when it is that record,
      the lane alone moved on when it is not. */
  ghost function AfterOpen(supply: seq<seq<byte>>, w: World, r: Role, k: nat, sport: U16, dport: U16,
                           rec: seq<byte>): Sys
  {
    var o := OpenLane(w.net.Keys(r).Rx(), rec, MAX_PAYLOAD);
    if Genuine(w, r, k, sport, dport, rec) then Link.Next(supply, w.net, DeliverTo(r, k))
    else if o.Ok? then w.net.WithKeys(r, w.net.Keys(r).With(RxLane(r), o.value.lane))
    else w.net
  }

  lemma AfterOpenIs(supply: seq<seq<byte>>, w: World, r: Role, k: nat, sport: U16, dport: U16, rec: seq<byte>)
    requires w.net.Keys(r).role == r
    ensures var n := AfterOpen(supply, w, r, k, sport, dport, rec);
            && n.sent == w.net.sent
            && match OpenLane(w.net.Keys(r).Rx(), rec, MAX_PAYLOAD)
               case Err(_) => n == w.net
               case Ok(o) => n.Keys(r).role == r && n.Keys(r).Rx() == o.lane && n.Keys(r).Tx() == w.net.Keys(r).Tx()
  {
    hide OpenLane;
    if Genuine(w, r, k, sport, dport, rec) { DeliverIs(supply, w.net, r, k); }
  }

  /** What `handle_qtls` does with any octets at all, in terms of the receive lane. */
  ghost function Handled(supply: seq<seq<byte>>, w: World, r: Role, k: nat, sport: U16, dport: U16, rec: seq<byte>,
                         arp: bool, dev: bool): World
  {
    if ParseHeader(rec).Err? then w
    else
      var hdr := ParseHeader(rec).value;
      var i := FindSession(w.At(r).sessions, sport, dport, hdr.sessionId, 0);
      var o := OpenLane(w.net.Keys(r).Rx(), rec, MAX_PAYLOAD);
      if (i == MAX_SESSIONS && !(hdr.ctype == Hello && dport in w.At(r).listen)) || o.Err? then w
      else
        var w1 := w.(net := AfterOpen(supply, w, r, k, sport, dport, rec));
        if i == MAX_SESSIONS then Sessions.Admit(supply, w1, r, k, sport, dport, hdr.sessionId, arp, dev)
        else Sessions.Arrive(w1, r, i, k, o.value.hdr.ctype, o.value.pt)
  }

  lemma HandleIsOpen(supply: seq<seq<byte>>, w: World, r: Role, k: nat, sport: U16, dport: U16, rec: seq<byte>,
                     arp: bool, dev: bool)
    requires Genuine(w, r, k, sport, dport, rec) && w.net.Keys(r).role == r
    ensures Handle(supply, w, r, k, arp, dev) == Handled(supply, w, r, k, sport, dport, rec, arp, dev)
  {
    hide OpenLane, ParseHeader, Link.Next, Sessions.Admit, Sessions.Arrive;
    DeliverIs(supply, w.net, r, k);
  }

  lemma ArriveIsLocal(w: World, r: Role, i: nat, k: nat, ctype: ContentType, pt: seq<byte>)
    requires i < MAX_SESSIONS
    ensures var w' := Sessions.Arrive(w, r, i, k, ctype, pt); w'.net == w.net && w'.wires == w.wires
  {}

  lemma DepositIs(supply: seq<seq<byte>>, net: Sys, r: Role)
    requires net.Keys(r).role == r && net.Keys(r).blocks < |supply|
    ensures var k := net.Keys(r); var k' := Link.Next(supply, net, DepositAt(r)).Keys(r); var key := supply[k.blocks];
            && Link.Next(supply, net, DepositAt(r)).sent == net.sent && k'.role == r
            && if k.blocks % 2 == TxLane(r)
               then k'.Rx() == k.Rx()
                    && k'.Tx() == (if LaneDeposit(k.Tx(), key).Ok? then LaneDeposit(k.Tx(), key).value else k.Tx())
               else k'.Tx() == k.Tx()
                    && k'.Rx() == (if LaneDeposit(k.Rx(), key).Ok? then LaneDeposit(k.Rx(), key).value else k.Rx())
  {
    hide LaneDeposit;
  }

  /** A block put on a lane, or refused and the lane as it was. */
  ghost predicate Deposited(l: Lane, key: seq<byte>, r: Result<(), KeyError>, l': Lane)
  {
    match LaneDeposit(l, key)
    case Ok(d) => r == Ok(()) && l' == d
    case Err(e) => r == Err(e) && l' == l
  }

  /** One step of `WipeQueues`. */
  ghost function QueueWiped(w: World, r: Role, i: nat): World
    requires i < MAX_SESSIONS
  {
    var x := w.Slot(r, i);
    if x.rx == [] || x.inst >= |w.hist| then w
    else
      var h := w.hist[x.inst];
      w.WithSlot(r, i, x.(rx := [])).(hist := w.hist[x.inst := h.(line := HandedOverOnly(h))])
  }

  lemma NoQueue(w: World, r: Role)
    ensures WipeQueues(w, r, 0) == w
  {}

  lemma NextQueue(w: World, r: Role, i: nat)
    requires i < MAX_SESSIONS
    ensures WipeQueues(w, r, i + 1) == QueueWiped(WipeQueues(w, r, i), r, i)
  {}

  class NetStack {
    const role: Role
    const mac: Mac
    const ip: Ip
    const peerIp: Ip
    const lane0: KeyLane
    const lane1: KeyLane
    const sessions: array<Entry>
    const listen: array<U16>
    var ipId: U16
    var nextSession: U16
    ghost var insts: seq<nat>

    function Tx(): KeyLane { if role == A then lane0 else lane1 }
    function Rx(): KeyLane { if role == A then lane1 else lane0 }

    /** Everything a call may change. */
    ghost function Footprint(): set<object> { {this, Tx(), Tx().buf, Rx(), Rx().buf, sessions, listen} }

    ghost predicate Valid()
      reads this, Tx(), Tx().buf, Rx(), Rx().buf
    {
      && Tx() != Rx() && Tx().buf != Rx().buf && Tx().Valid() && Rx().Valid()
      && sessions.Length == MAX_SESSIONS && listen.Length == MAX_LISTEN && |insts| == MAX_SESSIONS
      && listen as object !in {Tx().buf as object, Rx().buf}
      && sessions as object !in {Tx().buf as object, Rx().buf, listen}
    }

    ghost function Front(): Stack
      reads this, sessions, listen
      requires sessions.Length == MAX_SESSIONS && listen.Length == MAX_LISTEN && |insts| == MAX_SESSIONS
    {
      Stack(Views(sessions[..], insts), listen[..], nextSession)
    }

    ghost predicate KeysMirror(k: PeerKeys)
      reads this, Tx(), Tx().buf, Rx(), Rx().buf
      requires Valid()
    {
      k.role == role && k.Tx() == Tx().Abs() && k.Rx() == Rx().Abs()
    }

    /** The object is node `role` of the world. */
    ghost predicate Mirrors(w: World)
      reads this, Tx(), Tx().buf, Rx(), Rx().buf, sessions, listen
    {
      Valid() && KeysMirror(w.net.Keys(role)) && Front() == w.At(role) && |w.wires| == |w.net.sent|
    }

    lemma Sized()
      requires Valid()
      ensures sessions.Length == MAX_SESSIONS && listen.Length == MAX_LISTEN && |insts| == MAX_SESSIONS
    {}

    lemma MirrorFacts(w: World)
      requires Mirrors(w)
      ensures Valid() && Front() == w.At(role) && |w.wires| == |w.net.sent|
      ensures var k := w.net.Keys(role); k.role == role && k.Tx() == Tx().Abs() && k.Rx() == Rx().Abs()
      ensures sessions.Length == MAX_SESSIONS && listen.Length == MAX_LISTEN && |insts| == MAX_SESSIONS
      ensures nextSession == w.At(role).nextSession && listen[..] == w.At(role).listen
      ensures forall i :: 0 <= i < MAX_SESSIONS ==> w.Slot(role, i) == View(sessions[i], insts[i])
    {}

    lemma Mirrored(w: World)
      requires Valid() && Front() == w.At(role) && |w.wires| == |w.net.sent|
      requires var k := w.net.Keys(role); k.role == role && k.Tx() == Tx().Abs() && k.Rx() == Rx().Abs()
      ensures Mirrors(w)
    {}

    constructor (role: Role, mac: Mac, ip: Ip, peerIp: Ip)
      ensures Mirrors(START) && fresh(lane0) && fresh(lane0.buf) && fresh(lane1) && fresh(lane1.buf)
      ensures fresh(sessions) && fresh(listen)
      ensures this.role == role && this.mac == mac && this.ip == ip && this.peerIp == peerIp
    {
      this.role, this.mac, this.ip, this.peerIp := role, mac, ip, peerIp;
      lane0 := new KeyLane();
      lane1 := new KeyLane();
      sessions := new Entry[MAX_SESSIONS](_ => EMPTY_ENTRY);
      listen := new U16[MAX_LISTEN](_ => 0);
      ipId, nextSession := 1, 1;
      insts := seq(MAX_SESSIONS, _ => 0);
      new;
      assert Front().sessions == EMPTY_STACK.sessions;
      assert Front().listen == EMPTY_STACK.listen;
    }

    /** Stores a slot. */
    method Put(i: nat, e: Entry, ghost n: nat)
      requires Valid() && i < MAX_SESSIONS
      modifies sessions, this`insts
      ensures Valid() && Tx().Abs() == old(Tx().Abs()) && Rx().Abs() == old(Rx().Abs())
      ensures Front() == old(Front()).(sessions := old(Front()).sessions[i := View(e, n)])
      ensures sessions[..] == old(sessions[..])[i := e] && insts == old(insts)[i := n]
    {
      hide KeyLane.Valid, KeyLane.Shape, KeyLane.Cells, KeyLane.Abs, Views, View;
      ViewsUpdate(sessions[..], insts, i, e, n);
      ghost var es := sessions[..];
      sessions[i] := e;
      insts := insts[i := n];
      assert sessions[..] == es[i := e];
    }

    /** The id counter runs from 1 to 65535 and wraps to 1. */
    method Advance()
      requires Valid()
      modifies this`nextSession
      ensures Valid() && Tx().Abs() == old(Tx().Abs()) && Rx().Abs() == old(Rx().Abs())
      ensures Front() == old(Front()).(nextSession := NextId(old(nextSession)))
    {
      hide KeyLane.Valid, KeyLane.Shape, KeyLane.Cells, KeyLane.Abs, Views, View;
      var next: U16 := (nextSession + 1) % 0x1_0000;
      nextSession := if next < 1 then 1 else next;
    }

    // ---------- searching the table ----------

    method FreeSlot() returns (i: nat)
      requires sessions.Length == MAX_SESSIONS && listen.Length == MAX_LISTEN && |insts| == MAX_SESSIONS
      ensures i == FindFree(Front().sessions, 0)
    {
      i := 0;
      while i < MAX_SESSIONS && sessions[i].state != Free
        invariant i <= MAX_SESSIONS && FindFree(Front().sessions, 0) == FindFree(Front().sessions, i)
      {
        i := i + 1;
      }
    }

    method MatchingSlot(peerPort: U16, localPort: U16, id: U16) returns (i: nat)
      requires sessions.Length == MAX_SESSIONS && listen.Length == MAX_LISTEN && |insts| == MAX_SESSIONS
      ensures i == FindSession(Front().sessions, peerPort, localPort, id, 0)
    {
      i := 0;
      while i < MAX_SESSIONS
        invariant i <= MAX_SESSIONS
        invariant FindSession(Front().sessions, peerPort, localPort, id, 0) ==
                    FindSession(Front().sessions, peerPort, localPort, id, i)
      {
        var e := sessions[i];
        if e.state != Free && e.peerPort == peerPort && e.localPort == localPort && e.id == id { return; }
        i := i + 1;
      }
    }

    method Listens(port: U16) returns (yes: bool)
      ensures yes == (port in listen[..])
    {
      for k := 0 to listen.Length
        invariant port !in listen[..k]
      {
        if listen[k] == port { return true; }
        assert listen[..k + 1] == listen[..k] + [listen[k]];
      }
      assert listen[..listen.Length] == listen[..];
      return false;
    }

    // ---------- the socket calls ----------

    /** Stores a listening port in a free entry. */
    method AddPort(k: nat, port: U16)
      requires Valid() && k < MAX_LISTEN
      modifies listen
      ensures Valid() && Tx().Abs() == old(Tx().Abs()) && Rx().Abs() == old(Rx().Abs())
      ensures Front() == old(Front()).(listen := old(Front()).listen[k := port])
      ensures listen[..] == old(listen[..])[k := port]
    {
      hide KeyLane.Valid, KeyLane.Shape, KeyLane.Cells, KeyLane.Abs, Views;
      ghost var ports := listen[..];
      listen[k] := port;
      assert listen[..] == ports[k := port];
    }

    /** The first free entry, if any. */
    method FreePort() returns (k: nat)
      requires listen.Length == MAX_LISTEN
      ensures k <= MAX_LISTEN && (k == MAX_LISTEN <==> 0 !in listen[..])
      ensures k < MAX_LISTEN ==> k == FirstZero(listen[..], 0)
    {
      ghost var ports: Ports := listen[..];
      k := 0;
      while k < MAX_LISTEN && listen[k] != 0
        invariant k <= MAX_LISTEN && forall j :: 0 <= j < k ==> ports[j] != 0
        invariant forall z: nat :: k <= z < MAX_LISTEN && ports[z] == 0 ==> FirstZero(ports, 0) == FirstZero(ports, k)
      {
        k := k + 1;
      }
      if k < MAX_LISTEN { assert ports[k] == 0; }
    }

    method Listen(port: U16, ghost w: World) returns (r: Result<(), NetError>)
      requires Mirrors(w)
      modifies listen
      ensures Mirrors(Sessions.Listen(w, role, port))
      ensures r == if port in listen[..] then Ok(()) else Err(TableFull)
    {
      hide Mirrors, Valid, Front, FirstZero;
      MirrorFacts(w);
      var known := Listens(port);
      if known { return Ok(()); }
      var k := FreePort();
      if k == MAX_LISTEN { return Err(TableFull); }
      AddPort(k, port);
      assert listen[..][k] == port;
      Mirrored(Sessions.Listen(w, role, port));
      return Ok(());
    }

    method Accept(port: U16, ghost w: World) returns (r: Option<nat>)
      requires Mirrors(w)
      modifies sessions, this`insts
      ensures Mirrors(Sessions.Accept(w, role, port))
      ensures var i := FindPending(w.At(role).sessions, port, 0); r == if i == MAX_SESSIONS then None else Some(i)
    {
      hide Mirrors, Valid, Front;
      MirrorFacts(w);
      Sized();
      var i := 0;
      while i < MAX_SESSIONS
            && !(sessions[i].state == Established && !sessions[i].accepted && sessions[i].localPort == port)
        invariant i <= MAX_SESSIONS
        invariant FindPending(w.At(role).sessions, port, 0) == FindPending(w.At(role).sessions, port, i)
      {
        i := i + 1;
      }
      if i == MAX_SESSIONS { return None; }
      Put(i, sessions[i].(accepted := true), insts[i]);
      Mirrored(Sessions.Accept(w, role, port));
      return Some(i);
    }

    // ---------- sending ----------

    /** Frame `f` carries record `k` of the world to the peer. */
    ghost predicate Carries(f: seq<byte>, dst: Mac, id: U16, w: World, k: nat)
    {
      && k < |w.net.sent| && k < |w.wires| && OVERHEAD + |w.net.sent[k].rec| <= MAX_FRAME
      && f == FrameBytes(dst, mac, ip, peerIp, UdpHeader(w.wires[k].sport, w.wires[k].dport), id, w.net.sent[k].rec)
    }

    lemma CarriesSame(f: seq<byte>, dst: Mac, id: U16, w: World, w': World, k: nat)
      requires Carries(f, dst, id, w, k) && w'.net == w.net && w'.wires == w.wires
      ensures Carries(f, dst, id, w', k)
    {}

    /** Seals a record for the slot. */
    method SealSlot(i: nat, ctype: ContentType, data: seq<byte>) returns (r: Result<seq<byte>, NetError>)
      requires Valid() && i < MAX_SESSIONS
      modifies Tx(), Tx().buf
      ensures Valid() && Front() == old(Front()) && Rx().Abs() == old(Rx().Abs())
      ensures match SealLane(old(Tx().Abs()), ctype, sessions[i].id, data, MAX_RECORD_LEN)
              case Ok(s) => r == Ok(s.rec) && Tx().Abs() == s.lane && |s.rec| <= MAX_RECORD_LEN
              case Err(e) => r == Err(e) && Tx().Abs() == old(Tx().Abs())
    {
      hide SealLane, KeyLane.Valid, KeyLane.Shape, KeyLane.Cells, KeyLane.Abs;
      var rec := new byte[MAX_RECORD_LEN](_ => 0);
      var n := Qtls.Seal(Tx(), ctype, sessions[i].id, data, rec);
      if n.Err? { return Err(n.error); }
      return Ok(rec[..n.value]);
    }

    /** Seals a record for the slot and offers it to the device in a frame; `dev` says whether the
        device takes it, `frame` is what it took.  Nothing is spent while the peer's hardware address is unknown. */
    method Ship(i: nat, ctype: ContentType, data: seq<byte>, arp: Option<Mac>, dev: bool)
      returns (r: Result<(), NetError>, frame: Option<seq<byte>>)
      requires Valid() && i < MAX_SESSIONS
      modifies this`ipId, Tx(), Tx().buf
      ensures Valid() && Front() == old(Front()) && Rx().Abs() == old(Rx().Abs())
      ensures arp.None? ==> r == Err(Unresolved(dev)) && Tx().Abs() == old(Tx().Abs()) && ipId == old(ipId)
      ensures arp.Some? ==>
                match SealLane(old(Tx().Abs()), ctype, sessions[i].id, data, MAX_RECORD_LEN)
                case Ok(s) =>
                  && OVERHEAD + |s.rec| <= MAX_FRAME && Tx().Abs() == s.lane
                  && r == (if dev then Ok(()) else Err(DeviceFull))
                  && ipId == (old(ipId) + 1) % 0x1_0000
                  && var udp := UdpHeader(sessions[i].localPort, sessions[i].peerPort);
                     dev ==> frame == Some(FrameBytes(arp.value, mac, ip, peerIp, udp, old(ipId), s.rec))
                case Err(e) => r == Err(e) && Tx().Abs() == old(Tx().Abs()) && ipId == old(ipId)
      ensures frame.Some? <==> r.Ok?
    {
      hide SealLane, FrameBytes, KeyLane.Valid, KeyLane.Shape, KeyLane.Cells, KeyLane.Abs;
      if arp.None? { return Err(Unresolved(dev)), None; }
      var rec := SealSlot(i, ctype, data);
      if rec.Err? { return Err(rec.error), None; }
      RecordsFit(rec.value);
      var sent := Frames.SendUdp(arp.value, mac, ip, peerIp, UdpHeader(sessions[i].localPort, sessions[i].peerPort),
                                 ipId, rec.value);
      ipId := (ipId + 1) % 0x1_0000;
      if !dev { return Err(DeviceFull), None; }
      return Ok(()), Some(sent.value);
    }

    method SendRecord(i: nat, ctype: ContentType, data: seq<byte>, arp: Option<Mac>, dev: bool,
                      ghost supply: seq<seq<byte>>, ghost w: World)
      returns (r: Result<(), NetError>, frame: Option<seq<byte>>)
      requires Mirrors(w) && i < MAX_SESSIONS
      modifies this`ipId, Tx(), Tx().buf
      ensures r == SendResult(w, role, i, ctype, data, arp.Some?, dev)
      ensures var w' := Sessions.SendRecord(supply, w, role, i, ctype, data, arp.Some?, dev);
              && Mirrors(w') && w'.hist == w.hist && w'.a == w.a && w'.b == w.b
              && (frame.Some? <==> Shipped(w, w')) && (Grew(w, w') && dev <==> Shipped(w, w'))
              && (frame.Some? ==> arp.Some? && Carries(frame.value, arp.value, old(ipId), w', |w.wires|))
      ensures frame.Some? <==> r.Ok?
    {
      hide Mirrors, Valid, Front, SealLane, Sessions.SendRecord, FrameBytes, PeerKeys.Tx, PeerKeys.Rx;
      MirrorFacts(w);
      SendRecordIs(supply, w, role, i, ctype, data, arp.Some?, dev);
      assert w.Slot(role, i) == View(sessions[i], insts[i]);
      r, frame := Ship(i, ctype, data, arp, dev);
      Mirrored(Sessions.SendRecord(supply, w, role, i, ctype, data, arp.Some?, dev));
    }

    // ---------- sessions ----------

    /** The slot of a new client, and the id it uses up. */
    method StartClient(i: nat, port: U16, ghost w: World)
      requires Mirrors(w) && i < MAX_SESSIONS
      modifies this`nextSession, this`insts, sessions
      ensures Mirrors(ClientWorld(w, role, i, port))
    {
      hide Mirrors, Valid, Front;
      MirrorFacts(w);
      var id := nextSession;
      Put(i, Entry(HelloSent, id, port, EPHEMERAL_BASE + id % 16384, true, []), |w.hist|);
      Advance();
      Mirrored(ClientWorld(w, role, i, port));
    }

    /** Gives a slot up again. */
    method FreeAgain(i: nat, ghost w: World)
      requires Mirrors(w) && i < MAX_SESSIONS
      modifies this`insts, sessions
      ensures Mirrors(w.WithSlot(role, i, w.Slot(role, i).(state := Free)))
    {
      hide Mirrors, Valid, Front;
      MirrorFacts(w);
      Put(i, sessions[i].(state := Free), insts[i]);
      Mirrored(w.WithSlot(role, i, w.Slot(role, i).(state := Free)));
    }

    /** `dev` says whether the device took the frame. */
    method Connect(port: U16, arp: Option<Mac>, dev: bool, ghost supply: seq<seq<byte>>, ghost w: World)
      returns (r: Result<nat, NetError>, frame: Option<seq<byte>>)
      requires Mirrors(w)
      modifies this`ipId, this`nextSession, this`insts, sessions, Tx(), Tx().buf
      ensures var i := FindFree(w.At(role).sessions, 0);
              if arp.None? then r == Err(Unresolved(dev))
              else if i == MAX_SESSIONS then r == Err(TableFull)
              else
                var sent := SendResult(ClientWorld(w, role, i, port), role, i, Hello, [], true, dev);
                r == if sent.Ok? then Ok(i) else Err(sent.error)
      ensures var w' := Sessions.Connect(supply, w, role, port, arp.Some?, dev);
              && Mirrors(w') && (r.Ok? <==> Shipped(w, w'))
              && (r.Ok? ==>
                    && r.value < MAX_SESSIONS && w'.Slot(role, r.value).state == HelloSent
                    && w'.Slot(role, r.value).peerPort == port)
              && (frame.Some? <==> Shipped(w, w'))
              && (frame.Some? ==> arp.Some? && Carries(frame.value, arp.value, old(ipId), w', |w.wires|))
    {
      hide Mirrors, Valid, Front, Carries, ClientWorld, Sessions.Connect, Sessions.SendRecord, FindFree, Grew,
           SendResult;
      MirrorFacts(w);
      ConnectIs(supply, w, role, port, arp.Some?, dev);
      if arp.None? { return Err(Unresolved(dev)), None; }
      var i := FreeSlot();
      if i == MAX_SESSIONS { return Err(TableFull), None; }
      StartClient(i, port, w);
      ghost var w1 := ClientWorld(w, role, i, port);
      var sent;
      sent, frame := SendRecord(i, Hello, [], arp, dev, supply, w1);
      ghost var w2 := Sessions.SendRecord(supply, w1, role, i, Hello, [], true, dev);
      if frame.Some? {
        CarriesSame(frame.value, arp.value, old(ipId), w2, Sessions.Connect(supply, w, role, port, true, dev),
                    |w.wires|);
      }
      if sent.Err? {
        FreeAgain(i, w2);
        return Err(sent.error), frame;
      }
      return Ok(i), frame;
    }

    /** Sends on an Established session, cutting the data to what one record carries. */
    method Send(h: nat, data: seq<byte>, arp: Option<Mac>, dev: bool, ghost supply: seq<seq<byte>>, ghost w: World)
      returns (r: Result<nat, NetError>, frame: Option<seq<byte>>)
      requires Mirrors(w)
      modifies this`ipId, Tx(), Tx().buf
      ensures r == SendAnswer(w, role, h, data, arp.Some?, dev)
      ensures var w' := Sessions.Send(supply, w, role, h, data, arp.Some?, dev);
              && Mirrors(w') && (frame.Some? <==> Shipped(w, w'))
              && (frame.Some? ==> arp.Some? && Carries(frame.value, arp.value, old(ipId), w', |w.wires|))
    {
      hide Mirrors, Valid, Front, Carries, Sessions.SendRecord, SendResult;
      MirrorFacts(w);
      if h >= MAX_SESSIONS { return Err(NoSession), None; }
      if sessions[h].state != Established { return Err(NotEstablished), None; }
      var n := if |data| < MAX_PAYLOAD then |data| else MAX_PAYLOAD;
      assert data[..n] == Clip(data);
      var sent;
      sent, frame := SendRecord(h, Data, data[..n], arp, dev, supply, w);
      return if sent.Ok? then Ok(n) else Err(sent.error), frame;
    }

    /** Hands over the oldest queued message if the caller's buffer can take it. */
    method Recv(h: nat, out: array<byte>, ghost supply: seq<seq<byte>>, ghost w: World)
      returns (r: Result<nat, NetError>)
      requires Mirrors(w) && WorldInv(supply, w)
      requires out != Tx().buf && out != Rx().buf && out as object != listen && out as object != sessions
      modifies sessions, this`insts, out
      ensures Mirrors(Sessions.Recv(w, role, h, out.Length))
      ensures match r
              case Ok(n) =>
                h < MAX_SESSIONS && var x := w.Slot(role, h);
                if x.rx != [] && |x.rx[0]| <= out.Length
                then n == |x.rx[0]| && out[..n] == x.rx[0] && out[n..] == old(out[n..])
                else x.state == Closed && n == 0 && out[..] == old(out[..])
              case Err(e) =>
                && out[..] == old(out[..]) && Sessions.Recv(w, role, h, out.Length) == w
                && !(h < MAX_SESSIONS && w.Slot(role, h).rx != [] && |w.Slot(role, h).rx[0]| <= out.Length)
                && e == if h >= MAX_SESSIONS || w.Slot(role, h).state == Free then NoSession else WouldBlock
    {
      hide Mirrors, Valid, Front, WorldInv;
      MirrorFacts(w);
      if h >= MAX_SESSIONS { return Err(NoSession); }
      var e := sessions[h];
      if e.rx != [] && |e.rx[0]| <= out.Length {
        InUse(supply, w, h);
        Put(h, e.(rx := e.rx[1..]), insts[h]);
        Mirrored(Sessions.Recv(w, role, h, out.Length));
        CopyOut(out, e.rx[0], Sessions.Recv(w, role, h, out.Length));
        return Ok(|e.rx[0]|);
      }
      match e.state
      case Closed => return Ok(0);
      case Free => return Err(NoSession);
      case _ => return Err(WouldBlock);
    }

    lemma InUse(supply: seq<seq<byte>>, w: World, h: nat)
      requires WorldInv(supply, w) && h < MAX_SESSIONS && w.Slot(role, h).rx != []
      ensures w.Slot(role, h).state != Free && w.Slot(role, h).inst < |w.hist|
    {
      hide WorldInv;
      QueueInUse(supply, w, role, h);
      QueuedFacts(supply, w, role, h);
    }

    method CopyOut(out: array<byte>, msg: seq<byte>, ghost w: World)
      requires Mirrors(w) && |msg| <= out.Length
      requires out != Tx().buf && out != Rx().buf && out as object != listen && out as object != sessions
      modifies out
      ensures Mirrors(w) && out[..|msg|] == msg && out[|msg|..] == old(out[|msg|..])
    {
      hide KeyLane.Valid, KeyLane.Shape, KeyLane.Cells, KeyLane.Abs, Views;
      CopyInto(out, 0, msg);
    }

    /** An Established session says goodbye; the slot is emptied in any case. */
    method Close(h: nat, arp: Option<Mac>, dev: bool, ghost supply: seq<seq<byte>>, ghost w: World)
      returns (r: Result<(), NetError>, frame: Option<seq<byte>>)
      requires Mirrors(w)
      modifies this`ipId, this`insts, sessions, Tx(), Tx().buf
      ensures var w' := Sessions.Close(supply, w, role, h, arp.Some?, dev);
              && Mirrors(w') && (frame.Some? <==> Shipped(w, w'))
              && (frame.Some? ==> arp.Some? && Carries(frame.value, arp.value, old(ipId), w', |w.wires|))
      ensures r == if h < MAX_SESSIONS then Ok(()) else Err(NoSession)
    {
      hide Mirrors, Valid, Front, Carries, Sessions.SendRecord, SendResult;
      MirrorFacts(w);
      if h >= MAX_SESSIONS { return Err(NoSession), None; }
      frame := None;
      ghost var w1 := w;
      if sessions[h].state == Established {
        var sent;
        sent, frame := SendRecord(h, ContentType.Close, [], arp, dev, supply, w);
        w1 := Sessions.SendRecord(supply, w, role, h, ContentType.Close, [], arp.Some?, dev);
        if frame.Some? {
          CarriesSame(frame.value, arp.value, old(ipId), w1, Sessions.Close(supply, w, role, h, arp.Some?, dev),
                      |w.wires|);
        }
        MirrorFacts(w1);
      }
      Put(h, EMPTY_ENTRY, 0);
      Mirrored(w1.WithSlot(role, h, EMPTY_SESSION));
      r := Ok(());
    }

    // ---------- arrivals ----------

    /** A Hello for a listening port has been opened: a new server session, acknowledged at once. */
    method Admit(ghost k: nat, sport: U16, dport: U16, id: U16, arp: Option<Mac>, dev: bool,
                 ghost supply: seq<seq<byte>>, ghost w: World)
      returns (frame: Option<seq<byte>>)
      requires Mirrors(w)
      modifies this`ipId, this`insts, sessions, Tx(), Tx().buf
      ensures var w' := Sessions.Admit(supply, w, role, k, sport, dport, id, arp.Some?, dev);
              && Mirrors(w') && (frame.Some? <==> Shipped(w, w'))
              && (frame.Some? ==> arp.Some? && Carries(frame.value, arp.value, old(ipId), w', |w.wires|))
    {
      hide Mirrors, Valid, Front, Carries, Sessions.SendRecord, SendResult;
      MirrorFacts(w);
      var i := FreeSlot();
      if i == MAX_SESSIONS { return None; }
      Put(i, Entry(Established, id, sport, dport, false, []), |w.hist|);
      ghost var x := Session(Established, id, sport, dport, false, [], |w.hist|);
      ghost var w1 := w.WithSlot(role, i, x).(hist := w.hist + [Hist(role, dport, sport, id, false, k, [], [])]);
      Mirrored(w1);
      var sent;
      sent, frame := SendRecord(i, HelloAck, [], arp, dev, supply, w1);
    }

    /** A record for the session in slot `i` has been opened. */
    method Arrive(i: nat, ctype: ContentType, pt: seq<byte>, ghost k: nat, ghost w: World)
      requires Mirrors(w) && i < MAX_SESSIONS
      requires w.Slot(role, i).state == Established ==> w.Slot(role, i).inst < |w.hist|
      modifies this`insts, sessions
      ensures Mirrors(Sessions.Arrive(w, role, i, k, ctype, pt))
    {
      hide Mirrors, Valid, Front;
      MirrorFacts(w);
      var e := sessions[i];
      if ctype == HelloAck && e.state == HelloSent {
        Put(i, e.(state := Established), insts[i]);
      } else if ctype == Data && e.state == Established {
        if |e.rx| != RX_SLOTS { Put(i, e.(rx := e.rx + [pt]), insts[i]); }
      } else if ctype == ContentType.Close {
        Put(i, e.(state := Closed), insts[i]);
      }
      Mirrored(Sessions.Arrive(w, role, i, k, ctype, pt));
    }

    /** Verifies and decrypts with the receive lane. */
    method OpenRecord(rec: seq<byte>, pt: array<byte>, ghost k: nat, ghost sport: U16, ghost dport: U16,
                      ghost supply: seq<seq<byte>>, ghost w: World)
      returns (r: Result<(Header, nat), NetError>)
      requires Mirrors(w) && pt.Length == MAX_PAYLOAD && pt !in {Tx().buf, Rx().buf}
      requires pt as object !in {sessions as object, listen}
      modifies Rx(), Rx().buf, pt
      ensures Mirrors(w.(net := AfterOpen(supply, w, role, k, sport, dport, rec)))
      ensures match OpenLane(w.net.Keys(role).Rx(), rec, MAX_PAYLOAD)
              case Err(e) => r == Err(e) && Mirrors(w)
              case Ok(o) => r == Ok((o.hdr, |o.pt|)) && |o.pt| <= MAX_PAYLOAD && pt[..|o.pt|] == o.pt
    {
      hide Mirrors, Valid, Front, AfterOpen, OpenLane;
      MirrorFacts(w);
      AfterOpenIs(supply, w, role, k, sport, dport, rec);
      r := OpenWith(rec, pt);
      Mirrored(w.(net := AfterOpen(supply, w, role, k, sport, dport, rec)));
    }

    method OpenWith(rec: seq<byte>, pt: array<byte>) returns (r: Result<(Header, nat), NetError>)
      requires Valid() && pt.Length == MAX_PAYLOAD && pt !in {Tx().buf, Rx().buf}
      requires pt as object !in {sessions as object, listen}
      modifies Rx(), Rx().buf, pt
      ensures Valid() && Front() == old(Front()) && Tx().Abs() == old(Tx().Abs())
      ensures match OpenLane(old(Rx().Abs()), rec, MAX_PAYLOAD)
              case Err(e) => r == Err(e) && Rx().Abs() == old(Rx().Abs())
              case Ok(o) =>
                r == Ok((o.hdr, |o.pt|)) && |o.pt| <= MAX_PAYLOAD && pt[..|o.pt|] == o.pt && Rx().Abs() == o.lane
    {
      hide OpenLane, KeyLane.Valid, KeyLane.Shape, KeyLane.Cells, KeyLane.Abs, Views;
      r := Qtls.Open(Rx(), rec, pt);
    }

    ghost predicate Known(w: World)
    {
      forall i :: 0 <= i < MAX_SESSIONS && w.Slot(role, i).state == Established ==> w.Slot(role, i).inst < |w.hist|
    }

    lemma SlotsKnown(supply: seq<seq<byte>>, w: World, net: Sys)
      requires WorldInv(supply, w)
      ensures Known(w.(net := net))
    {
      hide WorldInv;
      var w1 := w.(net := net);
      forall i | 0 <= i < MAX_SESSIONS && w1.Slot(role, i).state == Established
        ensures w1.Slot(role, i).inst < |w1.hist|
      {
        assert w1.Slot(role, i) == w.Slot(role, i);
        ConnOf(supply, w, role, i);
      }
    }

    /** `handle_qtls`, on any octets: refused ones leave the node as it was, opened ones act on the
        matching session or create one.  A genuine record has the effect `Handle` describes. */
    method HandleQtls(sport: U16, dport: U16, rec: seq<byte>, arp: Option<Mac>, dev: bool, ghost k: nat,
                      ghost supply: seq<seq<byte>>, ghost w: World)
      returns (frame: Option<seq<byte>>)
      requires Mirrors(w) && WorldInv(supply, w)
      modifies this`ipId, this`insts, sessions, Tx(), Tx().buf, Rx(), Rx().buf
      ensures var w' := Handled(supply, w, role, k, sport, dport, rec, arp.Some?, dev);
              && Mirrors(w') && (frame.Some? <==> Shipped(w, w'))
              && (frame.Some? ==> arp.Some? && Carries(frame.value, arp.value, old(ipId), w', |w.wires|))
      ensures Genuine(w, role, k, sport, dport, rec) ==>
                Handle(supply, w, role, k, arp.Some?, dev) ==
                  Handled(supply, w, role, k, sport, dport, rec, arp.Some?, dev)
    {
      hide Mirrors, Valid, Front, Carries, Sessions.Admit, Sessions.Arrive, AfterOpen, WorldInv, Handle, OpenLane,
           ParseHeader, Known, FindSession;
      MirrorFacts(w);
      if Genuine(w, role, k, sport, dport, rec) { HandleIsOpen(supply, w, role, k, sport, dport, rec, arp.Some?, dev); }
      AfterOpenIs(supply, w, role, k, sport, dport, rec);
      var parsed := ParseHeader(rec);
      if parsed.Err? { return None; }
      var i := MatchingSlot(sport, dport, parsed.value.sessionId);
      var listening := Listens(dport);
      if i == MAX_SESSIONS && !(parsed.value.ctype == Hello && listening) { return None; }
      var pt := new byte[MAX_PAYLOAD](_ => 0);
      var o := OpenRecord(rec, pt, k, sport, dport, supply, w);
      if o.Err? { return None; }
      ghost var w1 := w.(net := AfterOpen(supply, w, role, k, sport, dport, rec));
      SlotsKnown(supply, w, w1.net);
      frame := ActOn(i, sport, dport, parsed.value.sessionId, o.value.0.ctype, pt[..o.value.1], arp, dev, k, supply,
                     w1);
    }

    /** An opened record: a new server session when no slot matched, else a step of the matching one. */
    method ActOn(i: nat, sport: U16, dport: U16, id: U16, ctype: ContentType, pt: seq<byte>, arp: Option<Mac>,
                 dev: bool, ghost k: nat, ghost supply: seq<seq<byte>>, ghost w: World)
      returns (frame: Option<seq<byte>>)
      requires Mirrors(w) && i <= MAX_SESSIONS && Known(w)
      modifies this`ipId, this`insts, sessions, Tx(), Tx().buf
      ensures var w' := if i == MAX_SESSIONS then Sessions.Admit(supply, w, role, k, sport, dport, id, arp.Some?, dev)
                        else Sessions.Arrive(w, role, i, k, ctype, pt);
              && Mirrors(w') && (frame.Some? <==> Shipped(w, w'))
              && (frame.Some? ==> arp.Some? && Carries(frame.value, arp.value, old(ipId), w', |w.wires|))
    {
      hide Mirrors, Valid, Front, Carries, Sessions.Admit, Sessions.Arrive;
      if i == MAX_SESSIONS {
        frame := Admit(k, sport, dport, id, arp, dev, supply, w);
      } else {
        ArriveIsLocal(w, role, i, k, ctype, pt);
        Arrive(i, ctype, pt, k, w);
        frame := None;
      }
    }

    /** `handle_frame`: Ethernet, IPv4 and UDP are undone, other senders than the peer ignored. */
    method HandleFrame(f: seq<byte>, arp: Option<Mac>, dev: bool, ghost k: nat, ghost supply: seq<seq<byte>>,
                       ghost w: World)
      returns (frame: Option<seq<byte>>)
      requires Mirrors(w) && WorldInv(supply, w)
      modifies this`ipId, this`insts, sessions, Tx(), Tx().buf, Rx(), Rx().buf
      ensures match Frames.Receive(f, mac, ip)
              case None => frame == None && Mirrors(w)
              case Some((src, udp, rec)) =>
                if src != peerIp then frame == None && Mirrors(w)
                else
                  var w' := Handled(supply, w, role, k, udp.srcPort, udp.dstPort, rec, arp.Some?, dev);
                  && Mirrors(w') && (frame.Some? <==> Shipped(w, w'))
                  && (frame.Some? ==> arp.Some? && Carries(frame.value, arp.value, old(ipId), w', |w.wires|))
                  && (Genuine(w, role, k, udp.srcPort, udp.dstPort, rec) ==>
                        w' == Handle(supply, w, role, k, arp.Some?, dev))
    {
      hide Mirrors, Valid, Front, Carries, WorldInv, OpenLane, Handle, Handled, Frames.Receive, Genuine;
      var got := Frames.Receive(f, mac, ip);
      if got.None? { return None; }
      var (src, udp, rec) := got.value;
      if src != peerIp { return None; }
      frame := HandleQtls(udp.srcPort, udp.dstPort, rec, arp, dev, k, supply, w);
    }

    // ---------- key supply ----------

    /** Block number `n` goes to the lane of its parity, whatever was deposited before.  Numbered in
        order, the blocks keep the object mirroring the run. */
    method DepositKeyBlock(n: nat, key: seq<byte>, ghost supply: seq<seq<byte>>, ghost w: World)
      returns (r: Result<(), KeyError>)
      requires Valid()
      requires |(if n % 2 == TxLane(role) then Tx() else Rx()).stream| + |key| < TWO64
      modifies Tx(), Tx().buf, Rx(), Rx().buf
      ensures Valid() && Front() == old(Front())
      ensures n % 2 == TxLane(role) ==> Rx().Abs() == old(Rx().Abs()) && Deposited(old(Tx().Abs()), key, r, Tx().Abs())
      ensures n % 2 != TxLane(role) ==> Tx().Abs() == old(Tx().Abs()) && Deposited(old(Rx().Abs()), key, r, Rx().Abs())
      ensures old(Mirrors(w)) && n == w.net.Keys(role).blocks < |supply| && key == supply[n] ==>
                Mirrors(w.(net := Link.Next(supply, w.net, DepositAt(role))))
    {
      hide Mirrors, Valid, Front, LaneDeposit;
      ghost var mirrored := Mirrors(w);
      if mirrored { MirrorFacts(w); }
      if n % 2 == TxLane(role) { r := DepositTx(key); } else { r := DepositRx(key); }
      if mirrored && n == w.net.Keys(role).blocks < |supply| && key == supply[n] {
        DepositIs(supply, w.net, role);
        Mirrored(w.(net := Link.Next(supply, w.net, DepositAt(role))));
      }
    }

    method DepositTx(key: seq<byte>) returns (r: Result<(), KeyError>)
      requires Valid() && |Tx().stream| + |key| < TWO64
      modifies Tx(), Tx().buf
      ensures Valid() && Front() == old(Front()) && Rx().Abs() == old(Rx().Abs())
      ensures Deposited(old(Tx().Abs()), key, r, Tx().Abs())
    {
      hide LaneDeposit, KeyLane.Valid, KeyLane.Shape, KeyLane.Cells, KeyLane.Abs, Views;
      r := Tx().Deposit(key);
    }

    method DepositRx(key: seq<byte>) returns (r: Result<(), KeyError>)
      requires Valid() && |Rx().stream| + |key| < TWO64
      modifies Rx(), Rx().buf
      ensures Valid() && Front() == old(Front()) && Tx().Abs() == old(Tx().Abs())
      ensures Deposited(old(Rx().Abs()), key, r, Rx().Abs())
    {
      hide LaneDeposit, KeyLane.Valid, KeyLane.Shape, KeyLane.Cells, KeyLane.Abs, Views;
      r := Rx().Deposit(key);
    }

    /** Emergency wipe: both lanes, then every receive queue. */
    method WipeKeys(ghost supply: seq<seq<byte>>, ghost w: World)
      requires Mirrors(w) && WorldInv(supply, w) && Fits(supply)
      modifies this`insts, sessions, Tx(), Tx().buf, Rx(), Rx().buf
      ensures Mirrors(WipeStack(supply, w, role))
      ensures forall i :: 0 <= i < MAX_SESSIONS ==> sessions[i].rx == []
    {
      hide Mirrors, Valid, Front, WorldInv, WipeQueues, Link.Next;
      WipeLanes(supply, w);
      ghost var w1 := w.(net := Link.Next(supply, w.net, WipeAt(role)));
      NetKeeps(supply, w, WipeAt(role));
      MirrorFacts(w1);
      NoQueue(w1, role);
      for i := 0 to MAX_SESSIONS
        invariant Mirrors(WipeQueues(w1, role, i))
        invariant sessions.Length == MAX_SESSIONS && forall j :: 0 <= j < i ==> sessions[j].rx == []
      {
        WipeQueuesKeeps(supply, w1, role, i);
        WipeSlot(i, supply, WipeQueues(w1, role, i));
        NextQueue(w1, role, i);
      }
    }

    method WipeLanes(ghost supply: seq<seq<byte>>, ghost w: World)
      requires Mirrors(w)
      modifies Tx(), Tx().buf, Rx(), Rx().buf
      ensures Mirrors(w.(net := Link.Next(supply, w.net, WipeAt(role))))
    {
      hide KeyLane.Valid, KeyLane.Shape, KeyLane.Cells, KeyLane.Abs, Views, Wipe;
      Tx().WipeAll();
      Rx().WipeAll();
    }

    method WipeSlot(i: nat, ghost supply: seq<seq<byte>>, ghost w: World)
      requires Mirrors(w) && WorldInv(supply, w) && i < MAX_SESSIONS
      modifies this`insts, sessions
      ensures Mirrors(QueueWiped(w, role, i))
      ensures sessions[..] == old(sessions[..])[i := old(sessions[i]).(rx := [])]
    {
      hide Mirrors, Valid, Front, WorldInv;
      MirrorFacts(w);
      if w.Slot(role, i).rx != [] { InUse(supply, w, i); }
      Put(i, sessions[i].(rx := []), insts[i]);
      Mirrored(QueueWiped(w, role, i));
    }
  }
}
