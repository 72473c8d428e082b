/** Two stacks and the channel between them: whatever is called on the two objects, in any order, and
    whichever frames the channel delivers, together they are in the state that `Sessions` reaches by
    the same calls.  What is proved of all runs is therefore proved of the objects. */
module Network {
  import opened Wrappers
  import opened Bytes
  import opened KeyLane
  import opened Qtls
  import opened Frames
  import opened Link
  import opened Sessions
  import opened SessionInvariant
  import opened SessionRuns
  import opened Locality
  import opened NetStack

  class Network {
    const a: NetStack
    const b: NetStack
    /** Every frame a device has taken so far; the channel may deliver any of them at any time. */
    var frames: seq<seq<byte>>
    /** The records the frames carry. */
    ghost var recs: seq<nat>
    ghost const supply: seq<seq<byte>>
    ghost const start: World
    ghost var calls: seq<Call>

    function Node(r: Role): NetStack { if r == A then a else b }

    ghost predicate Wired()
    {
      && Fits(supply) && a.role == A && b.role == B
      && a.peerIp == b.ip && b.peerIp == a.ip && a.ip != b.ip
      && a.Footprint() !! b.Footprint() && this !in a.Footprint() + b.Footprint()
    }

    /** The state reached by the calls made so far. */
    ghost function State(): World
      reads this
    {
      Play(supply, start, calls)
    }

    /** Frame `f` is what the device took from the sender of record `k`. */
    ghost predicate Framed(f: seq<byte>, w: World, k: nat)
    {
      k < |w.net.sent| && k < |w.wires| && w.wires[k].shipped && exists id: U16 :: FramedAs(f, w, k, id)
    }

    ghost predicate FramedAs(f: seq<byte>, w: World, k: nat, id: U16)
      requires k < |w.net.sent|
    {
      Node(w.net.sent[k].from).Carries(f, Node(Peer(w.net.sent[k].from)).mac, id, w, k)
    }

    /** What the device of node `r` took in the step from `w`: the frame of the record sealed, if any. */
    ghost predicate Took(f: Option<seq<byte>>, r: Role, id: U16, w: World, w': World)
    {
      && (f.Some? <==> Shipped(w, w'))
      && (f.Some? ==> Node(r).Carries(f.value, Node(Peer(r)).mac, id, w', |w.wires|))
    }

    /** The frames are those of the records that reached the channel, all of them. */
    ghost predicate AllFramed(fs: seq<seq<byte>>, rs: seq<nat>, w: World)
    {
      && |fs| == |rs| && (forall j :: 0 <= j < |fs| ==> Framed(fs[j], w, rs[j]))
      && forall k :: 0 <= k < |w.wires| && w.wires[k].shipped ==> k in rs
    }

    ghost predicate Valid()
      reads this, a.Footprint(), b.Footprint()
    {
      Wired() && WorldInv(supply, State()) && a.Mirrors(State()) && b.Mirrors(State())
      && AllFramed(frames, recs, State())
    }

    /** Two freshly configured stacks, each other's peers. */
    constructor (a: NetStack, b: NetStack, ghost supply: seq<seq<byte>>)
      requires Fits(supply) && a.Mirrors(Sessions.START) && b.Mirrors(Sessions.START)
      requires a.role == A && b.role == B && a.peerIp == b.ip && b.peerIp == a.ip && a.ip != b.ip
      requires a.Footprint() !! b.Footprint()
      ensures Valid() && calls == [] && frames == [] && recs == [] && start == Sessions.START
      ensures this.a == a && this.b == b && this.supply == supply
    {
      this.a, this.b, frames := a, b, [];
      this.supply, start, calls, recs := supply, Sessions.START, [], [];
      new;
      hide NetStack.Mirrors, WorldInv, Play;
      StartInv(supply);
      NothingPlayed(supply, Sessions.START);
      EmptyStart();
    }

    // ---------- what keeps the two together ----------

    lemma StillFramed(f: seq<byte>, w: World, w': World, k: nat)
      requires Extends(w, w') && Framed(f, w, k)
      ensures Framed(f, w', k)
    {
      hide FrameBytes;
      var id: U16 :| FramedAs(f, w, k, id);
      assert w'.net.sent[k] == w.net.sent[k];
      assert FramedAs(f, w', k, id);
    }

    /** A call that brought nothing onto the channel. */
    lemma QuietFrames(w: World, w': World)
      requires AllFramed(frames, recs, w) && Extends(w, w')
      requires forall k :: |w.wires| <= k < |w'.wires| ==> !w'.wires[k].shipped
      ensures AllFramed(frames, recs, w')
    {
      hide Framed, Extends;
      ExtendsFacts(w, w');
      forall j | 0 <= j < |frames| ensures Framed(frames[j], w', recs[j]) { StillFramed(frames[j], w, w', recs[j]); }
      forall k | 0 <= k < |w'.wires| && w'.wires[k].shipped ensures k in recs { assert w'.wires[k] == w.wires[k]; }
    }

    /** A call that sealed one record whose frame the device took. */
    lemma OneMoreFrame(r: Role, w: World, w': World, f: seq<byte>, id: U16)
      requires AllFramed(frames, recs, w) && Extends(w, w') && |w'.wires| == |w.wires| + 1
      requires w'.wires[|w.wires|].shipped
      requires |w.wires| < |w'.net.sent| && w'.net.sent[|w.wires|].from == r
      requires Node(r).Carries(f, Node(Peer(r)).mac, id, w', |w.wires|)
      ensures AllFramed(frames + [f], recs + [|w.wires|], w')
    {
      hide Framed, Extends, NetStack.Carries;
      ExtendsFacts(w, w');
      var fs, rs := frames + [f], recs + [|w.wires|];
      forall j | 0 <= j < |fs| ensures Framed(fs[j], w', rs[j]) {
        if j < |frames| { StillFramed(frames[j], w, w', recs[j]); } else { NewlyFramed(f, w', |w.wires|, id); }
      }
      forall k | 0 <= k < |w'.wires| && w'.wires[k].shipped ensures k in rs {
        if k < |w.wires| { assert w'.wires[k] == w.wires[k]; assert k in recs; } else { assert rs[|recs|] == k; }
      }
    }

    lemma NewlyFramed(f: seq<byte>, w: World, k: nat, id: U16)
      requires k < |w.net.sent| && k < |w.wires| && w.wires[k].shipped && FramedAs(f, w, k, id)
      ensures Framed(f, w, k)
    {
      hide FramedAs;
    }

    /** The node that was not called mirrors the new state as it did the old. */
    lemma PeerStillMirrors(c: Call, w: World, w': World)
      requires Wired() && WorldInv(supply, w) && w' == Step(supply, w, c)
      requires Node(Peer(c.r)).Mirrors(w)
      ensures Node(Peer(c.r)).Mirrors(w')
    {
      var p := Node(Peer(c.r));
      hide NetStack.Mirrors, NetStack.Valid, NetStack.Front, Step, WorldInv;
      p.MirrorFacts(w);
      PeerUntouched(supply, w, c);
      StepKeeps(supply, w, c);
      InvNet(supply, Step(supply, w, c));
      p.Mirrored(w');
    }

    /** The run is one call longer. */
    lemma NextCall(c: Call)
      ensures Play(supply, start, calls + [c]) == Step(supply, State(), c)
    {
      hide Step;
      assert (calls + [c])[..|calls|] == calls;
    }

    /** Books a call that node `c.r` has just carried out, and the frame its device took, if any. */
    method Book(ghost c: Call, f: Option<seq<byte>>, ghost id: U16, ghost w: World)
      requires Wired() && WorldInv(supply, w) && w == State() && AllFramed(frames, recs, w)
      requires Node(c.r).Mirrors(Step(supply, w, c)) && Node(Peer(c.r)).Mirrors(w)
      requires Took(f, c.r, id, w, Step(supply, w, c))
      modifies this`frames, this`recs, this`calls
      ensures Valid() && calls == old(calls) + [c]
      ensures frames == old(frames) + if f.Some? then [f.value] else []
    {
      hide NetStack.Mirrors, NetStack.Carries, WorldInv, Step, Play, Extends, AllFramed, Grew, Shipped;
      StepKeeps(supply, w, c);
      PeerStillMirrors(c, w, Step(supply, w, c));
      NextCall(c);
      SealedHere(supply, w, c);
      if f.Some? {
        OneMoreFrame(c.r, w, Step(supply, w, c), f.value, id);
        frames, recs := frames + [f.value], recs + [|w.wires|];
      } else {
        QuietFrames(w, Step(supply, w, c));
      }
      calls := calls + [c];
    }

    // ---------- the calls ----------

    method Listen(r: Role, port: U16) returns (res: Result<(), NetError>)
      requires Valid()
      modifies this, Node(r).Footprint()
      ensures Valid() && calls == old(calls) + [DoListen(r, port)]
    {
      hide NetStack.Mirrors, NetStack.Carries, WorldInv, Play, AllFramed, Sessions.Listen;
      ghost var c, w := DoListen(r, port), State();
      res := Node(r).Listen(port, w);
      Silent(c, w);
      Book(c, None, 0, w);
    }

    method Connect(r: Role, port: U16, arp: bool, dev: bool) returns (res: Result<nat, NetError>)
      requires Valid()
      modifies this, Node(r).Footprint()
      ensures Valid() && calls == old(calls) + [DoConnect(r, port, arp, dev)]
    {
      hide NetStack.Mirrors, NetStack.Carries, WorldInv, Play, AllFramed, Shipped, Sessions.Connect, SendResult,
           Wired, Valid;
      Both(r);
      ghost var w, id := State(), Node(r).ipId;
      var f;
      res, f := Node(r).Connect(port, if arp then Some(Node(Peer(r)).mac) else None, dev, supply, w);
      Book(DoConnect(r, port, arp, dev), f, id, w);
    }

    method Accept(r: Role, port: U16) returns (h: Option<nat>)
      requires Valid()
      modifies this, Node(r).Footprint()
      ensures Valid() && calls == old(calls) + [DoAccept(r, port)]
    {
      hide NetStack.Mirrors, NetStack.Carries, WorldInv, Play, AllFramed, Sessions.Accept;
      ghost var c, w := DoAccept(r, port), State();
      h := Node(r).Accept(port, w);
      Silent(c, w);
      Book(c, None, 0, w);
    }

    method Send(r: Role, h: nat, data: seq<byte>, arp: bool, dev: bool) returns (res: Result<nat, NetError>)
      requires Valid()
      modifies this, Node(r).Footprint()
      ensures Valid() && calls == old(calls) + [DoSend(r, h, data, arp, dev)]
      ensures res == SendAnswer(old(State()), r, h, data, arp, dev)
    {
      hide NetStack.Mirrors, NetStack.Carries, WorldInv, Play, AllFramed, Shipped, Sessions.Send, SendAnswer, Wired,
           Valid;
      Both(r);
      ghost var w, id := State(), Node(r).ipId;
      var f;
      res, f := Node(r).Send(h, data, if arp then Some(Node(Peer(r)).mac) else None, dev, supply, w);
      Book(DoSend(r, h, data, arp, dev), f, id, w);
    }

    method Recv(r: Role, h: nat, out: array<byte>) returns (res: Result<nat, NetError>)
      requires Valid() && out !in a.Footprint() && out !in b.Footprint()
      modifies this, Node(r).Footprint(), out
      ensures Valid() && calls == old(calls) + [DoRecv(r, h, out.Length)]
      ensures HandsOver(old(State()), State(), r, h, res, out[..])
    {
      hide NetStack.Mirrors, NetStack.Carries, WorldInv, Play, AllFramed, Sessions.Recv, HandsOver;
      ghost var c, w := DoRecv(r, h, out.Length), State();
      RecvPops(supply, w, r, h, out.Length);
      res := Node(r).Recv(h, out, supply, w);
      HandedOver(w, r, h, res, out[..]);
      Silent(c, w);
      NextCall(c);
      Book(c, None, 0, w);
    }

    method Close(r: Role, h: nat, arp: bool, dev: bool) returns (res: Result<(), NetError>)
      requires Valid()
      modifies this, Node(r).Footprint()
      ensures Valid() && calls == old(calls) + [DoClose(r, h, arp, dev)]
    {
      hide NetStack.Mirrors, NetStack.Carries, WorldInv, Play, AllFramed, Sessions.Close;
      ghost var w, id := State(), Node(r).ipId;
      var f;
      res, f := Node(r).Close(h, if arp then Some(Node(Peer(r)).mac) else None, dev, supply, w);
      Book(DoClose(r, h, arp, dev), f, id, w);
    }

    /** The channel delivers frame `j`, with whatever padding the link adds, to node `r`. */
    method Deliver(r: Role, j: nat, trailer: seq<byte>, arp: bool, dev: bool)
      requires Valid() && j < |frames|
      modifies this, Node(r).Footprint()
      ensures Valid() && j < |old(recs)| && calls == old(calls) + [DoDeliver(r, old(recs)[j], arp, dev)]
    {
      hide NetStack.Mirrors, NetStack.Carries, WorldInv, Play, AllFramed, Handle, Shipped;
      ghost var w, id := State(), Node(r).ipId;
      FramesMatch(w);
      ghost var k := recs[j];
      var f := Receive(r, j, trailer, arp, dev, k, w);
      Book(DoDeliver(r, k, arp, dev), f, id, w);
    }

    lemma FramesMatch(w: World)
      requires AllFramed(frames, recs, w)
      ensures |frames| == |recs|
    {}

    method Receive(r: Role, j: nat, trailer: seq<byte>, arp: bool, dev: bool, ghost k: nat, ghost w: World)
      returns (f: Option<seq<byte>>)
      requires Wired() && WorldInv(supply, w) && Node(r).Mirrors(w)
      requires AllFramed(frames, recs, w) && j < |frames| && j < |recs| && k == recs[j]
      modifies Node(r).Footprint()
      ensures var w' := Handle(supply, w, r, k, arp, dev); Node(r).Mirrors(w') && Took(f, r, old(Node(r).ipId), w, w')
    {
      hide NetStack.Mirrors, NetStack.Carries, WorldInv, AllFramed, Handle, Handled, Frames.Receive, Genuine,
           Shipped, Node, Wired;
      RoleOf(r);
      InvNet(supply, w);
      FramesMatch(w);
      FrameAt(w, r, j, trailer);
      NotForItself(supply, w, r, k, arp, dev);
      NothingGrew(w);
      var n, p := Node(r), Node(Peer(r));
      f := n.HandleFrame(frames[j] + trailer, if arp then Some(p.mac) else None, dev, k, supply, w);
    }

    /** The called node and the other one. */
    lemma Both(r: Role)
      requires Valid()
      ensures Wired() && WorldInv(supply, State()) && AllFramed(frames, recs, State())
      ensures Node(r).role == r && Node(r).Mirrors(State()) && Node(Peer(r)).Mirrors(State())
      ensures a.Footprint() !! b.Footprint() && this !in a.Footprint() + b.Footprint()
    {
      hide NetStack.Mirrors, WorldInv, Play, AllFramed;
    }

    lemma RoleOf(r: Role)
      requires Wired()
      ensures Node(r).role == r
    {}

    /** The next key block reaches node `r`. */
    method Deposit(r: Role, n: nat, key: seq<byte>) returns (res: Result<(), KeyError>)
      requires Valid() && n == State().net.Keys(r).blocks < |supply| && key == supply[n]
      requires |Node(r).Tx().stream| + |key| < TWO64 && |Node(r).Rx().stream| + |key| < TWO64
      modifies this, Node(r).Footprint()
      ensures Valid() && calls == old(calls) + [DoDeposit(r)]
    {
      hide NetStack.Mirrors, NetStack.Valid, NetStack.Carries, WorldInv, Play, AllFramed, Link.Next, Deposited;
      ghost var c, w := DoDeposit(r), State();
      Node(r).MirrorFacts(w);
      res := Node(r).DepositKeyBlock(n, key, supply, w);
      Silent(c, w);
      Book(c, None, 0, w);
    }

    method WipeKeys(r: Role)
      requires Valid()
      modifies this, Node(r).Footprint()
      ensures Valid() && calls == old(calls) + [DoWipe(r)]
    {
      hide NetStack.Mirrors, NetStack.Carries, WorldInv, Play, AllFramed, WipeStack;
      ghost var c, w := DoWipe(r), State();
      Node(r).WipeKeys(supply, w);
      Silent(c, w);
      Book(c, None, 0, w);
    }

    /** What is proved of every run holds of the two objects: for one, what `Recv` has put into the
        caller's buffers on a session is, in order and without repeats, a subsequence of what `Send` has
        answered Ok for on the one matching session at the other node. */
    lemma ReceivedInOrder(n: nat)
      requires Valid() && start == Sessions.START && Bounded(calls)
      requires n < |State().hist| && State().hist[n].popped != []
      ensures var w := State();
              exists g ::
                0 <= g < |w.hist| && Twin(w.hist[n], w.hist[g])
                && Subsequence(w.hist[n].popped, SentOk(supply, start, calls, g))
                        && forall g' :: 0 <= g' < |w.hist| && Twin(w.hist[n], w.hist[g']) ==> g' == g
    {
      hide Play, WorldInv, NetStack.Mirrors, AllFramed, Bounded;
      MessagesInOrder(supply, calls, n);
    }

    /** Calls that seal nothing. */
    lemma Silent(c: Call, w: World)
      requires Fits(supply) && WorldInv(supply, w)
      requires c.DoListen? || c.DoAccept? || c.DoRecv? || c.DoDeposit? || c.DoWipe?
      ensures !Shipped(w, Step(supply, w, c))
    {
      hide WorldInv, Step;
      StepShape(supply, w, c);
    }

    /** What comes out of frame `j` at node `r`: the record, if it is for that node, and nothing if not. */
    lemma FrameAt(w: World, r: Role, j: nat, trailer: seq<byte>)
      requires Wired() && AllFramed(frames, recs, w) && |w.wires| == |w.net.sent| && j < |frames| && |frames| == |recs|
      ensures recs[j] < |w.net.sent| && recs[j] < |w.wires|
      ensures var k := recs[j]; var udp := UdpHeader(w.wires[k].sport, w.wires[k].dport);
              var got := Frames.Receive(frames[j] + trailer, Node(r).mac, Node(r).ip);
              if w.net.sent[k].from == Peer(r)
              then got == Some((Node(r).peerIp, udp, w.net.sent[k].rec))
                   && Genuine(w, r, k, udp.srcPort, udp.dstPort, w.net.sent[k].rec)
              else got == None
    {
      hide Frames.Receive, FrameBytes;
      var k := recs[j];
      assert Framed(frames[j], w, k);
      var id: U16 :| FramedAs(frames[j], w, k, id);
      var s, d := Node(w.net.sent[k].from), Node(Peer(w.net.sent[k].from));
      FrameRoundTrip(d.mac, s.mac, s.ip, s.peerIp, UdpHeader(w.wires[k].sport, w.wires[k].dport), id,
                     w.net.sent[k].rec, trailer, Node(r).mac, Node(r).ip);
    }
  }

  /** A message that `recv` puts into the caller's buffer is the next one handed over on the session. */
  ghost predicate HandsOver(w: World, w': World, r: Role, h: nat, res: Result<nat, NetError>, out: seq<byte>)
  {
    if h < MAX_SESSIONS && w.Slot(r, h).rx != [] && |w.Slot(r, h).rx[0]| <= |out|
    then
      && res.Ok? && res.value <= |out| && w.Slot(r, h).inst < |w.hist| && w.Slot(r, h).inst < |w'.hist|
      && w'.hist[w.Slot(r, h).inst].popped == w.hist[w.Slot(r, h).inst].popped + [out[..res.value]]
    else w' == w
  }

  lemma RecvPops(supply: seq<seq<byte>>, w: World, r: Role, h: nat, room: nat)
    requires WorldInv(supply, w)
    ensures h < MAX_SESSIONS && w.Slot(r, h).rx != [] ==> w.Slot(r, h).inst < |w.hist|
  {
    hide WorldInv;
    if h < MAX_SESSIONS && w.Slot(r, h).rx != [] {
      QueueInUse(supply, w, r, h);
      QueuedFacts(supply, w, r, h);
    }
  }

  lemma HandedOver(w: World, r: Role, h: nat, res: Result<nat, NetError>, out: seq<byte>)
    requires h < MAX_SESSIONS && w.Slot(r, h).rx != [] ==> w.Slot(r, h).inst < |w.hist|
    requires h < MAX_SESSIONS && w.Slot(r, h).rx != [] && |w.Slot(r, h).rx[0]| <= |out| ==>
               res == Ok(|w.Slot(r, h).rx[0]|) && out[..|w.Slot(r, h).rx[0]|] == w.Slot(r, h).rx[0]
    ensures HandsOver(w, Recv(w, r, h, |out|), r, h, res, out)
  {}

  lemma NothingGrew(w: World)
    ensures !Shipped(w, w)
  {}

  /** A node ignores its own frames. */
  lemma NotForItself(supply: seq<seq<byte>>, w: World, r: Role, k: nat, arp: bool, dev: bool)
    requires k < |w.net.sent|
    ensures w.net.sent[k].from != Peer(r) ==> Handle(supply, w, r, k, arp, dev) == w
  {}

  lemma NothingPlayed(supply: seq<seq<byte>>, w: World)
    ensures Play(supply, w, []) == w
  {}

  lemma EmptyStart()
    ensures Sessions.START.net.sent == [] && Sessions.START.wires == []
  {}

  lemma ExtendsFacts(w: World, w': World)
    requires Extends(w, w')
    ensures |w.wires| == |w.net.sent| <= |w'.net.sent| == |w'.wires| && w.wires <= w'.wires
  {}

  lemma SealedHere(supply: seq<seq<byte>>, w: World, c: Call)
    requires WorldInv(supply, w) && Fits(supply)
    ensures var w' := Step(supply, w, c); var n := |w.wires|;
            && |w.net.sent| == n && |w'.wires| == |w'.net.sent| && n <= |w'.wires| <= n + 1
            && (|w'.wires| > n ==> w'.net.sent[n].from == c.r)
            && (Shipped(w, w') <==> |w'.wires| > n && w'.wires[n].shipped)
  {
    hide WorldInv, Step;
    InvNet(supply, w);
    StepShape(supply, w, c);
    ShapeSeals(w, Step(supply, w, c), c);
  }

  lemma ShapeSeals(w: World, w': World, c: Call)
    requires Shape(w, w', c) && |w.wires| == |w.net.sent|
    ensures |w'.wires| == |w'.net.sent| && |w.wires| <= |w'.wires| <= |w.wires| + 1
    ensures |w'.wires| > |w.wires| ==> w'.net.sent[|w.net.sent|].from == c.r
  {
    hide NewServer, NewClient, Fronts, Clip;
  }
}
