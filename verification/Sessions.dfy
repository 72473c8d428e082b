/** Sessions over the link: the socket operations of two stacks, each registered as the other's peer.

    `World` extends the two-node system of `Link` with both session tables, the ports each record
    travelled with, and a history of every session instance ever created.  The address resolver and
    the network device are inputs: `arp` says whether the peer's hardware address is known, `dev`
    whether the device took the frame.  A record whose frame it refused has used up its key and never
    reaches the channel. */
module Sessions {
  import opened Wrappers
  import opened Bytes
  import opened Qtls
  import opened Link

  const MAX_SESSIONS: nat := 4
  const MAX_LISTEN: nat := 4
  const RX_SLOTS: nat := 4
  const EPHEMERAL_BASE: nat := 49152

  datatype State = Free | HelloSent | Established | Closed

  /** `inst` is the number of the session instance in the history; the code has no such field. */
  datatype Session = Session(state: State, id: U16, peerPort: U16, localPort: U16, accepted: bool,
                             rx: seq<seq<byte>>, inst: nat)

  const EMPTY_SESSION := Session(Free, 0, 0, 0, true, [], 0)

  type Table = t: seq<Session> | |t| == MAX_SESSIONS witness seq(MAX_SESSIONS, _ => EMPTY_SESSION)
  type Ports = p: seq<U16> | |p| == MAX_LISTEN witness seq(MAX_LISTEN, _ => 0)

  datatype Stack = Stack(sessions: Table, listen: Ports, nextSession: U16)

  const EMPTY_STACK := Stack(seq(MAX_SESSIONS, _ => EMPTY_SESSION), seq(MAX_LISTEN, _ => 0), 1)

  /** One session instance: who, which ports and id, the record that opened it, the indices of the
      records whose payloads it has queued or handed over, and what has been handed over. */
  datatype Hist = Hist(node: Role, local: U16, peerPort: U16, id: U16, client: bool, hello: nat,
                       line: seq<nat>, popped: seq<seq<byte>>)

  /** `shipped` says whether the device took the record's frame. */
  datatype Wire = Wire(sport: U16, dport: U16, inst: nat, shipped: bool)

  datatype World = World(net: Sys, a: Stack, b: Stack, wires: seq<Wire>, hist: seq<Hist>)
  {
    function At(r: Role): Stack { if r == A then a else b }
    function With(r: Role, st: Stack): World { if r == A then this.(a := st) else this.(b := st) }
    function Slot(r: Role, i: nat): Session requires i < MAX_SESSIONS { At(r).sessions[i] }
    function WithSlot(r: Role, i: nat, x: Session): World
      requires i < MAX_SESSIONS
    {
      With(r, At(r).(sessions := At(r).sessions[i := x]))
    }
  }

  const START := World(INIT, EMPTY_STACK, EMPTY_STACK, [], [])

  // ---------- the operations ----------

  /** First slot at or after `k` in the given state, or MAX_SESSIONS. */
  function FindFree(t: Table, k: nat): (i: nat)
    requires k <= MAX_SESSIONS
    ensures k <= i <= MAX_SESSIONS && (i < MAX_SESSIONS ==> t[i].state == Free)
    decreases MAX_SESSIONS - k
  {
    if k == MAX_SESSIONS || t[k].state == Free then k else FindFree(t, k + 1)
  }

  predicate Matches(x: Session, peerPort: U16, localPort: U16, id: U16)
  {
    x.state != Free && x.peerPort == peerPort && x.localPort == localPort && x.id == id
  }

  function FindSession(t: Table, peerPort: U16, localPort: U16, id: U16, k: nat): (i: nat)
    requires k <= MAX_SESSIONS
    ensures k <= i <= MAX_SESSIONS && (i < MAX_SESSIONS ==> Matches(t[i], peerPort, localPort, id))
    decreases MAX_SESSIONS - k
  {
    if k == MAX_SESSIONS || Matches(t[k], peerPort, localPort, id) then k
    else FindSession(t, peerPort, localPort, id, k + 1)
  }

  /** Resolve, seal, and offer the frame to the device. */
  function SendRecord(supply: seq<seq<byte>>, w: World, r: Role, i: nat, ctype: ContentType, data: seq<byte>,
                      arp: bool, dev: bool): World
    requires i < MAX_SESSIONS
  {
    var x := w.Slot(r, i);
    var net' := Link.Next(supply, w.net, SealAt(r, ctype, x.id, data));
    if !arp || |net'.sent| == |w.net.sent| then w
    else w.(net := net', wires := w.wires + [Wire(x.localPort, x.peerPort, x.inst, dev)])
  }

  predicate Grew(w: World, w': World) { |w'.net.sent| > |w.net.sent| }

  /** A record was sealed and its frame taken by the device. */
  predicate Shipped(w: World, w': World) { Grew(w, w') && |w'.wires| > |w.wires| && w'.wires[|w.wires|].shipped }

  /** With the peer's hardware address unknown a request for it is offered to the device instead. */
  function Unresolved(dev: bool): NetError { if dev then ArpPending else DeviceFull }

  /** What `send_record` answers: the address is resolved first, then the record sealed, then the
      frame offered to the device. */
  function SendResult(w: World, r: Role, i: nat, ctype: ContentType, data: seq<byte>,
                      arp: bool, dev: bool): Result<(), NetError>
    requires i < MAX_SESSIONS
  {
    var sealed := SealLane(w.net.Keys(r).Tx(), ctype, w.Slot(r, i).id, data, MAX_RECORD_LEN);
    if !arp then Err(Unresolved(dev))
    else if sealed.Err? then Err(sealed.error)
    else if dev then Ok(()) else Err(DeviceFull)
  }

  /** Ids run from 1 to 65535 and wrap to 1. */
  function NextId(id: U16): U16 { if id == 65535 then 1 else id + 1 }

  function Connect(supply: seq<seq<byte>>, w: World, r: Role, port: U16, arp: bool, dev: bool): World
  {
    var st := w.At(r);
    var i := FindFree(st.sessions, 0);
    if !arp || i == MAX_SESSIONS then w
    else
      var id := st.nextSession;
      var local: U16 := EPHEMERAL_BASE + id % 16384;
      var x := Session(HelloSent, id, port, local, true, [], |w.hist|);
      var w1 := w.With(r, st.(sessions := st.sessions[i := x], nextSession := NextId(id)))
                 .(hist := w.hist + [Hist(r, local, port, id, true, 0, [], [])]);
      var w2 := SendRecord(supply, w1, r, i, Hello, [], arp, dev);
      if Grew(w1, w2) && dev then w2 else w2.WithSlot(r, i, x.(state := Free))
  }

  /** Data cut to what one record carries. */
  function Clip(data: seq<byte>): (c: seq<byte>)
    ensures c <= data && |c| == if |data| < MAX_PAYLOAD then |data| else MAX_PAYLOAD
  {
    if |data| < MAX_PAYLOAD then data else data[..MAX_PAYLOAD]
  }

  function Send(supply: seq<seq<byte>>, w: World, r: Role, i: nat, data: seq<byte>, arp: bool, dev: bool): World
  {
    if i >= MAX_SESSIONS || w.Slot(r, i).state != Established then w
    else SendRecord(supply, w, r, i, Data, Clip(data), arp, dev)
  }

  /** What `send` answers: how many octets were taken, or why none were. */
  function SendAnswer(w: World, r: Role, i: nat, data: seq<byte>, arp: bool, dev: bool): (a: Result<nat, NetError>)
    ensures a.Ok? ==> a.value == if |data| < MAX_PAYLOAD then |data| else MAX_PAYLOAD
  {
    if i >= MAX_SESSIONS then Err(NoSession)
    else if w.Slot(r, i).state != Established then Err(NotEstablished)
    else
      var sent := SendResult(w, r, i, Data, Clip(data), arp, dev);
      if sent.Ok? then Ok(|Clip(data)|) else Err(sent.error)
  }

  /** Hands over the oldest queued message if there is one and it fits. */
  function Recv(w: World, r: Role, i: nat, room: nat): World
  {
    if i >= MAX_SESSIONS || w.Slot(r, i).rx == [] || room < |w.Slot(r, i).rx[0]| || w.Slot(r, i).inst >= |w.hist| then w
    else
      var x := w.Slot(r, i);
      var h := w.hist[x.inst];
      w.WithSlot(r, i, x.(rx := x.rx[1..])).(hist := w.hist[x.inst := h.(popped := h.popped + [x.rx[0]])])
  }

  function Close(supply: seq<seq<byte>>, w: World, r: Role, i: nat, arp: bool, dev: bool): World
  {
    if i >= MAX_SESSIONS then w
    else
      var w1 := if w.Slot(r, i).state == Established
                then SendRecord(supply, w, r, i, ContentType.Close, [], arp, dev)
                else w;
      w1.WithSlot(r, i, EMPTY_SESSION)
  }

  /** Slot that `accept` on `port` hands out. */
  function FindPending(t: Table, port: U16, k: nat): (i: nat)
    requires k <= MAX_SESSIONS
    ensures k <= i <= MAX_SESSIONS
    decreases MAX_SESSIONS - k
  {
    if k == MAX_SESSIONS || (t[k].state == Established && !t[k].accepted && t[k].localPort == port) then k
    else FindPending(t, port, k + 1)
  }

  function Accept(w: World, r: Role, port: U16): World
  {
    var i := FindPending(w.At(r).sessions, port, 0);
    if i == MAX_SESSIONS then w else w.WithSlot(r, i, w.Slot(r, i).(accepted := true))
  }

  /** A table with a zero entry already "contains" port 0. */
  function Listen(w: World, r: Role, port: U16): World
  {
    var st := w.At(r);
    if port in st.listen || 0 !in st.listen then w
    else
      var k := FirstZero(st.listen, 0);
      w.With(r, st.(listen := st.listen[k := port]))
  }

  function FirstZero(p: Ports, k: nat): (i: nat)
    requires k <= MAX_LISTEN && exists j :: k <= j < MAX_LISTEN && p[j] == 0
    ensures i < MAX_LISTEN && p[i] == 0
    decreases MAX_LISTEN - k
  {
    if p[k] == 0 then k else FirstZero(p, k + 1)
  }

  /** `handle_qtls` on record `k`, if it reached the channel: match a session or a listening port, open,
      act on the type. */
  function Handle(supply: seq<seq<byte>>, w: World, r: Role, k: nat, arp: bool, dev: bool): World
  {
    if k >= |w.net.sent| || k >= |w.wires| || !w.wires[k].shipped || w.net.sent[k].from == r then w
    else match ParseHeader(w.net.sent[k].rec)
      case Err(_) => w
      case Ok(hdr) =>
        var sport, dport := w.wires[k].sport, w.wires[k].dport;
        var i := FindSession(w.At(r).sessions, sport, dport, hdr.sessionId, 0);
        if i == MAX_SESSIONS && !(hdr.ctype == Hello && dport in w.At(r).listen) then w
        else
          var net' := Link.Next(supply, w.net, DeliverTo(r, k));
          if |net'.got| == |w.net.got| then w
          else
            var w1 := w.(net := net');
            var got := net'.got[|net'.got| - 1];
            if i == MAX_SESSIONS then Admit(supply, w1, r, k, sport, dport, hdr.sessionId, arp, dev)
            else Arrive(w1, r, i, k, got.hdr.ctype, got.pt)
  }

  /** A Hello on a listening port: a new server session, acknowledged at once. */
  function Admit(supply: seq<seq<byte>>, w: World, r: Role, k: nat, sport: U16, dport: U16, id: U16,
                 arp: bool, dev: bool): World
  {
    var st := w.At(r);
    var i := FindFree(st.sessions, 0);
    if i == MAX_SESSIONS then w
    else
      var x := Session(Established, id, sport, dport, false, [], |w.hist|);
      var w1 := w.WithSlot(r, i, x).(hist := w.hist + [Hist(r, dport, sport, id, false, k, [], [])]);
      SendRecord(supply, w1, r, i, HelloAck, [], arp, dev)
  }

  /** A record for an existing session. */
  function Arrive(w: World, r: Role, i: nat, k: nat, ctype: ContentType, pt: seq<byte>): World
    requires i < MAX_SESSIONS
  {
    var x := w.Slot(r, i);
    if ctype == HelloAck && x.state == HelloSent then w.WithSlot(r, i, x.(state := Established))
    else if ctype == Data && x.state == Established then
      if |x.rx| == RX_SLOTS || x.inst >= |w.hist| then w
      else
        var h := w.hist[x.inst];
        w.WithSlot(r, i, x.(rx := x.rx + [pt])).(hist := w.hist[x.inst := h.(line := h.line + [k])])
    else if ctype == ContentType.Close then w.WithSlot(r, i, x.(state := Closed))
    else w
  }

  /** Emergency wipe of one node: its lanes and every receive queue. */
  function WipeStack(supply: seq<seq<byte>>, w: World, r: Role): World
  {
    WipeQueues(w.(net := Link.Next(supply, w.net, WipeAt(r))), r, MAX_SESSIONS)
  }

  /** The entries of the line that have been handed over. */
  function HandedOverOnly(h: Hist): seq<nat> { if |h.popped| <= |h.line| then h.line[..|h.popped|] else h.line }

  function WipeQueues(w: World, r: Role, n: nat): World
    requires n <= MAX_SESSIONS
    decreases n
  {
    if n == 0 then w
    else
      var w1 := WipeQueues(w, r, n - 1);
      var x := w1.Slot(r, n - 1);
      if x.rx == [] || x.inst >= |w1.hist| then w1
      else
        var h := w1.hist[x.inst];
        w1.WithSlot(r, n - 1, x.(rx := [])).(hist := w1.hist[x.inst := h.(line := HandedOverOnly(h))])
  }

  datatype Call =
    | DoListen(r: Role, port: U16)
    | DoConnect(r: Role, port: U16, arp: bool, dev: bool)
    | DoAccept(r: Role, port: U16)
    | DoSend(r: Role, i: nat, data: seq<byte>, arp: bool, dev: bool)
    | DoRecv(r: Role, i: nat, room: nat)
    | DoClose(r: Role, i: nat, arp: bool, dev: bool)
    | DoDeliver(r: Role, k: nat, arp: bool, dev: bool)
    | DoDeposit(r: Role)
    | DoWipe(r: Role)

  function Step(supply: seq<seq<byte>>, w: World, c: Call): World
  {
    match c
    case DoListen(r, port) => Listen(w, r, port)
    case DoConnect(r, port, arp, dev) => Connect(supply, w, r, port, arp, dev)
    case DoAccept(r, port) => Accept(w, r, port)
    case DoSend(r, i, data, arp, dev) => Send(supply, w, r, i, data, arp, dev)
    case DoRecv(r, i, room) => Recv(w, r, i, room)
    case DoClose(r, i, arp, dev) => Close(supply, w, r, i, arp, dev)
    case DoDeliver(r, k, arp, dev) => Handle(supply, w, r, k, arp, dev)
    case DoDeposit(r) => w.(net := Link.Next(supply, w.net, DepositAt(r)))
    case DoWipe(r) => WipeStack(supply, w, r)
  }

  function Play(supply: seq<seq<byte>>, w: World, cs: seq<Call>): World
  {
    if cs == [] then w else Step(supply, Play(supply, w, cs[..|cs| - 1]), cs[|cs| - 1])
  }
}
