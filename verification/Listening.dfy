/** When a server session is created: ports that were listened on, and port 0. */
module Listening {
  import opened Bytes
  import opened KeyLane
  import opened Qtls
  import opened Link
  import opened Sessions
  import opened SessionInvariant
  import opened SessionRuns

  ghost predicate InTable(w: World, r: Role, p: U16) { p in w.At(r).listen }

  /** In the run of `cs` from `w` some call of `listen` for the port succeeded: the port was in the
      table afterwards. */
  ghost predicate ListenedOn(supply: seq<seq<byte>>, w: World, cs: seq<Call>, r: Role, p: U16)
  {
    exists i :: ListenSucceeded(supply, w, cs, r, p, i)
  }

  ghost predicate ListenSucceeded(supply: seq<seq<byte>>, w: World, cs: seq<Call>, r: Role, p: U16, i: int)
  {
    0 <= i < |cs| && cs[i] == DoListen(r, p) && InTable(Play(supply, w, cs[..i + 1]), r, p)
  }

  /** Entries are only ever filled: a listening port stays. */
  lemma ListenPersists(supply: seq<seq<byte>>, w: World, c: Call, r: Role, p: U16)
    requires WorldInv(supply, w) && Fits(supply) && p != 0 && p in w.At(r).listen
    ensures p in Step(supply, w, c).At(r).listen
  {
    hide WorldInv, Link.Next;
    if c.DoListen? {
      hide FirstZero;
      EntryStays(w, c.r, c.port, r, p);
    } else {
      StepShape(supply, w, c);
      FrontsStay(w, Step(supply, w, c), c);
    }
  }

  lemma EntryStays(w: World, q: Role, port: U16, r: Role, p: U16)
    requires p != 0 && p in w.At(r).listen
    ensures p in Listen(w, q, port).At(r).listen
  {
    hide FirstZero;
    var k :| 0 <= k < MAX_LISTEN && w.At(r).listen[k] == p;
    assert Listen(w, q, port).At(r).listen[k] == p;
  }

  lemma FrontsStay(w: World, w': World, c: Call)
    requires Shape(w, w', c) && !c.DoListen?
    ensures forall r: Role :: w'.At(r).listen == w.At(r).listen
  {
    hide Seals, NewServer;
    forall r: Role ensures w'.At(r).listen == w.At(r).listen {
      if c.DoConnect? && w' != w { assert r == c.r || r == Peer(c.r); }
    }
  }

  lemma NewEntry(w: World, w': World, c: Call, r: Role, p: U16)
    requires Shape(w, w', c) && p in w'.At(r).listen && p !in w.At(r).listen
    ensures c == DoListen(r, p)
  {
    if !c.DoListen? { FrontsStay(w, w', c); }
    hide Seals, NewServer, NewClient;
  }

  /** The non-zero entries of a table are exactly the ports some `listen` has succeeded for. */
  lemma {:induction false} InTableIff(supply: seq<seq<byte>>, cs: seq<Call>, r: Role, p: U16)
    requires Fits(supply) && p != 0
    ensures InTable(Play(supply, START, cs), r, p) <==> ListenedOn(supply, START, cs, r, p)
    decreases |cs|
  {
    hide WorldInv, Step, Shape, Fits;
    if cs != [] {
      var cs', c := cs[..|cs| - 1], cs[|cs| - 1];
      var w := Play(supply, START, cs');
      StartInv(supply);
      PlayKeeps(supply, START, cs');
      InTableIff(supply, cs', r, p);
      StepShape(supply, w, c);
      if p in w.At(r).listen {
        ListenPersists(supply, w, c, r, p);
        ShorterListened(supply, cs, r, p);
      } else if p in Step(supply, w, c).At(r).listen {
        NewEntry(w, Step(supply, w, c), c, r, p);
        assert cs[..|cs|] == cs;
        assert ListenSucceeded(supply, START, cs, r, p, |cs| - 1);
      } else if ListenedOn(supply, START, cs, r, p) {
        LongerListened(supply, cs, r, p);
      }
    }
  }

  lemma ShorterListened(supply: seq<seq<byte>>, cs: seq<Call>, r: Role, p: U16)
    requires cs != [] && ListenedOn(supply, START, cs[..|cs| - 1], r, p)
    ensures ListenedOn(supply, START, cs, r, p)
  {
    hide Play;
    var cs' := cs[..|cs| - 1];
    var i :| ListenSucceeded(supply, START, cs', r, p, i);
    assert cs'[..i + 1] == cs[..i + 1];
    assert ListenSucceeded(supply, START, cs, r, p, i);
  }

  lemma LongerListened(supply: seq<seq<byte>>, cs: seq<Call>, r: Role, p: U16)
    requires cs != [] && ListenedOn(supply, START, cs, r, p) && !InTable(Play(supply, START, cs), r, p)
    ensures ListenedOn(supply, START, cs[..|cs| - 1], r, p)
  {
    hide Play;
    var cs' := cs[..|cs| - 1];
    var i :| ListenSucceeded(supply, START, cs, r, p, i);
    assert cs[..|cs|] == cs;
    assert cs'[..i + 1] == cs[..i + 1];
    assert ListenSucceeded(supply, START, cs', r, p, i);
  }

  /** Every server answers on a port of its node's table, or on port 0. */
  ghost predicate PortsAsked(w: World)
  {
    forall n :: 0 <= n < |w.hist| ==> PortAsked(w, w.hist[n])
  }

  ghost predicate PortAsked(w: World, h: Hist) { h.client || h.local == 0 || InTable(w, h.node, h.local) }

  lemma StepKeepsPorts(supply: seq<seq<byte>>, w: World, c: Call)
    requires WorldInv(supply, w) && Fits(supply) && PortsAsked(w)
    ensures PortsAsked(Step(supply, w, c))
  {
    hide WorldInv, Step, Fits, Shape;
    StepShape(supply, w, c);
    StepKeeps(supply, w, c);
    var w' := Step(supply, w, c);
    forall n | 0 <= n < |w'.hist| ensures PortAsked(w', w'.hist[n]) {
      if n < |w.hist| {
        assert SameConn(w.hist[n], w'.hist[n]) && PortAsked(w, w.hist[n]);
        if !w.hist[n].client && w.hist[n].local != 0 { ListenPersists(supply, w, c, w.hist[n].node, w.hist[n].local); }
      } else {
        NewInstancePort(w, w', c, n);
      }
    }
  }

  lemma NewInstancePort(w: World, w': World, c: Call, n: nat)
    requires Shape(w, w', c) && |w.hist| <= n < |w'.hist|
    ensures PortAsked(w', w'.hist[n])
  {
    hide Seals;
    if !c.DoListen? { FrontsStay(w, w', c); }
  }

  lemma {:induction false} RunKeepsPorts(supply: seq<seq<byte>>, cs: seq<Call>)
    requires Fits(supply)
    ensures PortsAsked(Play(supply, START, cs))
    decreases |cs|
  {
    hide WorldInv, Step, Fits;
    if cs != [] {
      hide PortsAsked;
      StartInv(supply);
      PlayKeeps(supply, START, cs[..|cs| - 1]);
      RunKeepsPorts(supply, cs[..|cs| - 1]);
      StepKeepsPorts(supply, Play(supply, START, cs[..|cs| - 1]), cs[|cs| - 1]);
    }
  }

  /** In every run a server session exists only on a port its node has listened on, or on port 0. */
  lemma ServerPortListenedOrZero(supply: seq<seq<byte>>, cs: seq<Call>, n: nat)
    requires Fits(supply)
    requires n < |Play(supply, START, cs).hist| && !Play(supply, START, cs).hist[n].client
    ensures var h := Play(supply, START, cs).hist[n]; h.local == 0 || ListenedOn(supply, START, cs, h.node, h.local)
  {
    RunKeepsPorts(supply, cs);
    hide Play, ListenedOn, Fits;
    var h := Play(supply, START, cs).hist[n];
    assert PortAsked(Play(supply, START, cs), h);
    if h.local != 0 { InTableIff(supply, cs, h.node, h.local); }
  }

  // ---------- the exact condition ----------

  /** Record `k` is a Hello that matches no session, opens, and finds a free slot. */
  ghost predicate FreshHello(supply: seq<seq<byte>>, w: World, r: Role, k: nat)
  {
    && FromPeer(w, r, k) && w.net.sent[k].hdr.ctype == Hello
    && FindSession(w.At(r).sessions, w.wires[k].sport, w.wires[k].dport, w.net.sent[k].hdr.sessionId, 0) == MAX_SESSIONS
    && FindFree(w.At(r).sessions, 0) < MAX_SESSIONS
    && Link.Next(supply, w.net, DeliverTo(r, k)) != w.net
  }

  lemma AdmittedIff(supply: seq<seq<byte>>, w: World, r: Role, k: nat, arp: bool, dev: bool)
    requires WorldInv(supply, w) && Fits(supply) && FreshHello(supply, w, r, k)
    ensures var w' := Handle(supply, w, r, k, arp, dev);
            if w.wires[k].dport in w.At(r).listen
            then
              var id := w.net.sent[k].hdr.sessionId;
              w'.hist == w.hist + [Hist(r, w.wires[k].dport, w.wires[k].sport, id, false, k, [], [])]
            else w' == w
  {
    HandleIs(supply, w, r, k, arp, dev);
    hide WorldInv, Link.Next, Handle, FindSession, FindFree, SendRecord;
    if w.wires[k].dport in w.At(r).listen {
      AdmitOpens(supply, w.(net := Link.Next(supply, w.net, DeliverTo(r, k))), r, k, w.wires[k].sport,
                 w.wires[k].dport, w.net.sent[k].hdr.sessionId, arp, dev);
    }
  }

  lemma AdmitOpens(supply: seq<seq<byte>>, w: World, r: Role, k: nat, sport: U16, dport: U16, id: U16, arp: bool,
                   dev: bool)
    requires FindFree(w.At(r).sessions, 0) < MAX_SESSIONS
    ensures Admit(supply, w, r, k, sport, dport, id, arp, dev).hist ==
              w.hist + [Hist(r, dport, sport, id, false, k, [], [])]
  {
    hide Link.Next;
  }

  /** In every run such a Hello creates a session exactly when its port was listened on, or it is
      port 0 and an entry of the table is still free. */
  lemma HelloCreatesSessionIff(supply: seq<seq<byte>>, cs: seq<Call>, r: Role, k: nat, arp: bool, dev: bool)
    requires Fits(supply) && FreshHello(supply, Play(supply, START, cs), r, k)
    ensures var w := Play(supply, START, cs); var w' := Handle(supply, w, r, k, arp, dev);
            var dport, n := w.wires[k].dport, |w.hist|;
            && (|w'.hist| > n <==> if dport == 0 then InTable(w, r, 0) else ListenedOn(supply, START, cs, r, dport))
            && (|w'.hist| > n ==> w'.hist[n].local == dport && w'.hist[n].node == r && !w'.hist[n].client)
            && (|w'.hist| <= |w.hist| ==> w' == w)
  {
    hide WorldInv, Play, Handle, FreshHello, ListenedOn, Link.Next, Fits;
    StartInv(supply);
    PlayKeeps(supply, START, cs);
    var w := Play(supply, START, cs);
    HelloRecord(supply, w, r, k);
    AdmittedIff(supply, w, r, k, arp, dev);
    if w.wires[k].dport != 0 { InTableIff(supply, cs, r, w.wires[k].dport); }
  }

  lemma HelloRecord(supply: seq<seq<byte>>, w: World, r: Role, k: nat)
    requires FreshHello(supply, w, r, k)
    ensures k < |w.wires| && k < |w.net.sent|
  {}

  // ---------- port 0 ----------

  /** A run in which nobody listens: both ends get the first key block, A connects to port 0 and B
      receives the Hello. */
  ghost predicate PortZeroRun(cs: seq<Call>)
  {
    |cs| == 4 && cs[0] == DoDeposit(A) && cs[1] == DoDeposit(B) && cs[2] == DoConnect(A, 0, true, true)
    && cs[3] == DoDeliver(B, 0, true, true)
  }

  lemma DepositedOnce(supply: seq<seq<byte>>)
    requires |supply| > 0 && Accepts(supply[0])
    ensures var net := Link.Next(supply, Link.Next(supply, INIT, DepositAt(A)), DepositAt(B));
            && net.sent == [] && net.got == []
            && net.a.role == A && net.b.role == B && net.a.blocks == 1 && net.b.blocks == 1
            && net.a.lane0 == Lane(0, supply[0]) && net.b.lane0 == Lane(0, supply[0])
  {
    assert supply[0][0..] == supply[0];
    assert [] + supply[0] == supply[0];
  }

  lemma ClientHello(supply: seq<seq<byte>>, w: World)
    requires w.a == EMPTY_STACK && w.net.sent == [] && w.wires == [] && w.hist == []
    requires w.net.a.role == A && w.net.a.lane0.base == 0 && |w.net.a.lane0.window| >= MAC_KEY_LEN
    ensures var w' := Connect(supply, w, A, 0, true, true);
            && |w'.net.sent| == 1 && |w'.wires| == 1 && |w'.hist| == 1 && w'.b == w.b && w'.net.b == w.net.b
            && w'.net.sent[0].from == A && w'.net.sent[0].hdr == Header(Hello, 1, 0, 0) && w'.wires[0].dport == 0
            && w'.wires[0].shipped
  {
    hide RecordBytes;
    var t: Table := EMPTY_STACK.sessions;
    assert t[0].state == Free && FindFree(t, 0) == 0;
    assert KeyCost(0) == MAC_KEY_LEN;
  }

  lemma NothingMatches(t: Table, k: nat, sport: U16, dport: U16, id: U16)
    requires k <= MAX_SESSIONS && forall i :: 0 <= i < MAX_SESSIONS ==> t[i].state == Free
    ensures FindSession(t, sport, dport, id, k) == MAX_SESSIONS
    decreases MAX_SESSIONS - k
  {
    if k < MAX_SESSIONS { NothingMatches(t, k + 1, sport, dport, id); }
  }

  lemma HelloOpens(supply: seq<seq<byte>>, net: Sys)
    requires Link.Inv(supply, net) && Fits(supply) && |supply| > 0 && Accepts(supply[0]) && |supply[0]| >= MAC_KEY_LEN
    requires |net.sent| == 1 && net.sent[0].from == A && net.sent[0].hdr == Header(Hello, 1, 0, 0)
    requires net.b.lane0.base == 0 && net.b.blocks == 1
    ensures Link.Next(supply, net, DeliverTo(B, 0)) != net
  {
    hide Link.Inv, Fits, Stream, OpenLane;
    FirstBlock(supply);
    DeliverOutcome(supply, net, B, 0);
  }

  lemma FirstBlock(supply: seq<seq<byte>>)
    requires |supply| > 0 && Accepts(supply[0])
    ensures Stream(supply, 1, 0) == supply[0]
  {
    assert [] + supply[0] == supply[0];
  }

  lemma FirstThree(supply: seq<seq<byte>>, cs: seq<Call>)
    requires PortZeroRun(cs)
    ensures Play(supply, START, cs[..3]) ==
              Connect(supply, START.(net := Link.Next(supply, Link.Next(supply, INIT, DepositAt(A)), DepositAt(B))),
                      A, 0, true, true)
  {
    hide Connect, Link.Next;
    assert cs[..3][..2][..1][..0] == [] && cs[..3][..2][..1] == [cs[0]] && cs[..3][..2][1] == cs[1]
           && cs[..3][2] == cs[2];
    var w1 := START.(net := Link.Next(supply, INIT, DepositAt(A)));
    assert Play(supply, START, cs[..3][..2][..1]) == w1;
    assert Play(supply, START, cs[..3][..2]) == w1.(net := Link.Next(supply, w1.net, DepositAt(B)));
  }

  /** A run without a `listen` that ends with a server session on port 0 of B. */
  ghost predicate ServesPortZeroUnasked(supply: seq<seq<byte>>, w: World, cs: seq<Call>)
  {
    && (forall i :: 0 <= i < |cs| ==> !cs[i].DoListen?)
    && var h := Play(supply, w, cs).hist; |h| == 2 && h[1].node == B && !h[1].client && h[1].local == 0
  }

  /** Nobody has listened in this run, and yet it ends with a server session, on port 0. */
  lemma PortZeroAccepted(supply: seq<seq<byte>>, cs: seq<Call>)
    requires PortZeroRun(cs)
    requires Fits(supply) && |supply| > 0 && Accepts(supply[0]) && |supply[0]| >= MAC_KEY_LEN
    ensures ServesPortZeroUnasked(supply, START, cs)
  {
    hide WorldInv, Play, Connect, Link.Next, Handle, Fits, Link.Inv, FreshHello;
    StartInv(supply);
    PlayKeeps(supply, START, cs[..3]);
    DepositedOnce(supply);
    var deposited := Link.Next(supply, Link.Next(supply, INIT, DepositAt(A)), DepositAt(B));
    FirstThree(supply, cs);
    ClientHello(supply, START.(net := deposited));
    var w := Play(supply, START, cs[..3]);
    InvNet(supply, w);
    HelloOpens(supply, w.net);
    FreshAtEmptyStack(supply, w);
    AdmittedIff(supply, w, B, 0, true, true);
    LastCall(supply, cs);
  }

  lemma FreshAtEmptyStack(supply: seq<seq<byte>>, w: World)
    requires w.b == EMPTY_STACK && |w.net.sent| == 1 && |w.wires| == 1 && w.wires[0].shipped
    requires w.net.sent[0].from == A && w.net.sent[0].hdr.ctype == Hello
    requires Link.Next(supply, w.net, DeliverTo(B, 0)) != w.net
    ensures FreshHello(supply, w, B, 0) && 0 in w.b.listen
  {
    hide Link.Next;
    NothingMatches(w.b.sessions, 0, w.wires[0].sport, w.wires[0].dport, w.net.sent[0].hdr.sessionId);
    assert w.b.sessions[0].state == Free && w.b.listen[0] == 0;
  }

  lemma LastCall(supply: seq<seq<byte>>, cs: seq<Call>)
    requires PortZeroRun(cs)
    ensures Play(supply, START, cs) == Handle(supply, Play(supply, START, cs[..3]), B, 0, true, true)
  {
    hide Handle;
    assert cs[..|cs| - 1] == cs[..3];
  }

  /** Such a run exists: a single key block of 64 octets is enough. */
  lemma PortZeroWitness()
    ensures exists supply: seq<seq<byte>>, cs: seq<Call> :: Fits(supply) && ServesPortZeroUnasked(supply, START, cs)
  {
    hide ServesPortZeroUnasked;
    var supply := [Zeros(64)];
    assert Stream(supply, 0, 0) == [] && Stream(supply, 0, 1) == [];
    assert Whole(supply, 0) == [] + supply[0] && Whole(supply, 1) == [] + [];
    var cs := [DoDeposit(A), DoDeposit(B), DoConnect(A, 0, true, true), DoDeliver(B, 0, true, true)];
    PortZeroAccepted(supply, cs);
  }
}
