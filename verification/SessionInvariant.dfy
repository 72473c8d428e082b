/** What every run of the two stacks keeps: message order, integrity, and who established what. */
module SessionInvariant {
  import opened Wrappers
  import opened Bytes
  import opened Qtls
  import opened Link
  import opened Sessions

  // ---------- the invariant ----------

  ghost predicate SameConn(h: Hist, g: Hist)
  {
    h.node == g.node && h.local == g.local && h.peerPort == g.peerPort && h.id == g.id && h.client == g.client
    && h.hello == g.hello
  }

  /** The two ends of one connection. */
  ghost predicate Twin(h: Hist, g: Hist)
  {
    g.node == Peer(h.node) && g.local == h.peerPort && g.peerPort == h.local && g.id == h.id
  }

  ghost predicate AcceptedBy(net: Sys, r: Role, k: nat)
  {
    exists j :: 0 <= j < |net.got| && net.got[j].node == r && net.got[j].idx == k
  }

  /** Record `k` was sealed by the session instance its wire entry names. */
  ghost predicate RecordInv(w: World, k: nat)
    requires |w.wires| == |w.net.sent|
  {
    k < |w.wires| && w.wires[k].inst < |w.hist| &&
    var h := w.hist[w.wires[k].inst]; var x := w.net.sent[k];
    && x.from == h.node && w.wires[k].sport == h.local && w.wires[k].dport == h.peerPort && x.hdr.sessionId == h.id
    && (x.hdr.ctype == Hello ==> h.client) && (x.hdr.ctype == HelloAck ==> !h.client)
  }

  /** Record `k` came from the peer, addressed to instance `h`, reached the channel and was opened. */
  ghost predicate For(w: World, h: Hist, k: nat, t: ContentType)
    requires |w.wires| == |w.net.sent|
  {
    k < |w.wires| && w.wires[k].shipped && w.net.sent[k].from == Peer(h.node) && w.net.sent[k].hdr.ctype == t
    && w.wires[k].sport == h.peerPort && w.wires[k].dport == h.local && w.net.sent[k].hdr.sessionId == h.id
    && AcceptedBy(w.net, h.node, k)
  }

  ghost predicate HistInv(w: World, h: Hist)
    requires |w.wires| == |w.net.sent|
  {
    && |h.popped| <= |h.line|
    && (forall j :: 0 <= j < |h.line| ==> For(w, h, h.line[j], Data))
    && (forall i, j :: 0 <= i < j < |h.line| ==> h.line[i] < h.line[j])
    && (forall j :: 0 <= j < |h.popped| ==> h.popped[j] == w.net.sent[h.line[j]].pt)
    && (!h.client ==> For(w, h, h.hello, Hello))
  }

  ghost predicate HasServer(w: World, h: Hist)
  {
    exists g :: 0 <= g < |w.hist| && Twin(h, w.hist[g]) && !w.hist[g].client
  }

  /** The queue holds the payloads of the last entries of `line`, from the `p`-th on. */
  ghost predicate Queued(rx: seq<seq<byte>>, sent: seq<Sent>, line: seq<nat>, p: nat)
  {
    p + |rx| == |line| && |rx| <= RX_SLOTS &&
    forall j :: p <= j < |line| ==> line[j] < |sent| && rx[j - p] == sent[line[j]].pt
  }

  ghost predicate SlotInv(w: World, r: Role, x: Session)
    requires |w.wires| == |w.net.sent|
  {
    && (x.state == Free ==> x.rx == [])
    && (x.state != Free ==>
          x.inst < |w.hist| &&
          var h := w.hist[x.inst];
          && h.node == r && h.local == x.localPort && h.peerPort == x.peerPort && h.id == x.id
          && HistInv(w, h) && Queued(x.rx, w.net.sent, h.line, |h.popped|)
          && (x.state == HelloSent ==> h.client)
          && (x.state == Established && h.client ==> HasServer(w, h)))
  }

  ghost predicate WorldInv(supply: seq<seq<byte>>, w: World)
  {
    && Link.Inv(supply, w.net) && |w.wires| == |w.net.sent|
    && (forall k :: 0 <= k < |w.wires| ==> RecordInv(w, k))
    && (forall i :: 0 <= i < |w.hist| ==> HistInv(w, w.hist[i]))
    && (forall r: Role, i :: 0 <= i < MAX_SESSIONS ==> SlotInv(w, r, w.Slot(r, i)))
    && (forall r: Role, i, j ::
          0 <= i < j < MAX_SESSIONS && w.Slot(r, i).state != Free && w.Slot(r, j).state != Free ==>
          w.Slot(r, i).inst != w.Slot(r, j).inst)
  }

  // ---------- growth preserves it ----------

  /** Nothing already recorded changes, except what instances have queued and handed over. */
  ghost predicate Extends(w: World, w': World)
  {
    && |w.wires| == |w.net.sent| && |w'.wires| == |w'.net.sent|
    && w.net.sent <= w'.net.sent && w.wires <= w'.wires && w.net.got <= w'.net.got && |w.hist| <= |w'.hist|
    && (forall i :: 0 <= i < |w.hist| ==> SameConn(w.hist[i], w'.hist[i]))
  }

  lemma KeepAccepted(net: Sys, net': Sys, r: Role, k: nat)
    requires AcceptedBy(net, r, k) && net.got <= net'.got
    ensures AcceptedBy(net', r, k)
  {
    var j :| 0 <= j < |net.got| && net.got[j].node == r && net.got[j].idx == k;
    assert net'.got[j] == net.got[j];
  }

  lemma KeepFor(w: World, w': World, h: Hist, k: nat, t: ContentType)
    requires Extends(w, w') && For(w, h, k, t)
    ensures For(w', h, k, t) && k < |w.net.sent| && w'.net.sent[k] == w.net.sent[k]
  {
    hide AcceptedBy;
    KeepAccepted(w.net, w'.net, h.node, k);
  }

  lemma KeepHist(w: World, w': World, h: Hist)
    requires Extends(w, w') && HistInv(w, h)
    ensures HistInv(w', h)
  {
    hide For;
    forall j | 0 <= j < |h.line|
      ensures For(w', h, h.line[j], Data) && h.line[j] < |w.net.sent| && w'.net.sent[h.line[j]] == w.net.sent[h.line[j]]
    {
      KeepFor(w, w', h, h.line[j], Data);
    }
    if !h.client { KeepFor(w, w', h, h.hello, Hello); }
  }

  lemma KeepRecord(w: World, w': World, k: nat)
    requires Extends(w, w') && RecordInv(w, k)
    ensures RecordInv(w', k)
  {}

  lemma KeepServer(w: World, w': World, h: Hist)
    requires Extends(w, w') && HasServer(w, h)
    ensures HasServer(w', h)
  {
    var g :| 0 <= g < |w.hist| && Twin(h, w.hist[g]) && !w.hist[g].client;
    assert SameConn(w.hist[g], w'.hist[g]);
  }

  /** A slot and the history of its instance, both left alone. */
  lemma KeepSlot(w: World, w': World, r: Role, x: Session)
    requires Extends(w, w') && SlotInv(w, r, x)
    requires x.state != Free ==> w'.hist[x.inst] == w.hist[x.inst]
    ensures SlotInv(w', r, x)
  {
    hide HistInv, HasServer, SameConn, Queued;
    if x.state != Free {
      var h := w.hist[x.inst];
      KeepHist(w, w', h);
      KeepQueue(x.rx, w.net.sent, w'.net.sent, h.line, |h.popped|);
      if x.state == Established && h.client { KeepServer(w, w', h); }
    }
  }

  lemma KeepQueue(rx: seq<seq<byte>>, sent: seq<Sent>, sent': seq<Sent>, line: seq<nat>, p: nat)
    requires Queued(rx, sent, line, p) && sent <= sent'
    ensures Queued(rx, sent', line, p)
  {}

  lemma QueuePop(rx: seq<seq<byte>>, sent: seq<Sent>, line: seq<nat>, p: nat)
    requires Queued(rx, sent, line, p) && rx != []
    ensures Queued(rx[1..], sent, line, p + 1) && p < |line| && line[p] < |sent| && rx[0] == sent[line[p]].pt
  {
    assert rx[p - p] == sent[line[p]].pt;
    forall j | p + 1 <= j < |line|
      ensures rx[1..][j - (p + 1)] == sent[line[j]].pt
    {
      assert rx[j - p] == sent[line[j]].pt;
    }
  }

  lemma QueuePush(rx: seq<seq<byte>>, sent: seq<Sent>, line: seq<nat>, p: nat, k: nat)
    requires Queued(rx, sent, line, p) && |rx| < RX_SLOTS && k < |sent|
    ensures Queued(rx + [sent[k].pt], sent, line + [k], p)
  {}

  /** Slot `(r, i)` and history `n` may change; everything else is carried over. */
  ghost predicate Elsewhere(w: World, w': World, r: Role, i: nat, n: nat)
  {
    && (forall q: Role, j :: 0 <= j < MAX_SESSIONS && (q != r || j != i) ==> w'.Slot(q, j) == w.Slot(q, j))
    && |w.hist| <= |w'.hist| && (forall m :: 0 <= m < |w.hist| && m != n ==> w'.hist[m] == w.hist[m])
  }

  /** No other slot of node `r` uses instance `n`, and no slot of the other node can. */
  ghost predicate OnlyUser(w: World, r: Role, i: nat, n: nat)
  {
    && (forall j :: 0 <= j < MAX_SESSIONS && j != i && w.Slot(r, j).state != Free ==> w.Slot(r, j).inst != n)
    && (n < |w.hist| ==> w.hist[n].node == r)
  }

  lemma OthersDoNotUse(supply: seq<seq<byte>>, w: World, r: Role, i: nat, n: nat, q: Role, j: nat)
    requires WorldInv(supply, w) && OnlyUser(w, r, i, n) && j < MAX_SESSIONS && (q != r || j != i)
    ensures w.Slot(q, j).state != Free ==> w.Slot(q, j).inst != n && w.Slot(q, j).inst < |w.hist|
  {
    hide RecordInv, HistInv, HasServer;
    assert SlotInv(w, q, w.Slot(q, j));
  }

  lemma Assemble(supply: seq<seq<byte>>, w: World, w': World, r: Role, i: nat, n: nat)
    requires WorldInv(supply, w) && Link.Inv(supply, w'.net) && Extends(w, w') && i < MAX_SESSIONS
    requires |w'.wires| == |w'.net.sent|
    requires Elsewhere(w, w', r, i, n) && OnlyUser(w, r, i, n)
    requires forall k :: |w.wires| <= k < |w'.wires| ==> RecordInv(w', k)
    requires forall m :: |w.hist| <= m < |w'.hist| ==> HistInv(w', w'.hist[m])
    requires n < |w'.hist| ==> HistInv(w', w'.hist[n])
    requires SlotInv(w', r, w'.Slot(r, i)) && (w'.Slot(r, i).state != Free ==> w'.Slot(r, i).inst == n)
    ensures WorldInv(supply, w')
  {
    hide RecordInv, HistInv, SlotInv, Link.Inv, Extends;
    forall k | 0 <= k < |w'.wires| ensures RecordInv(w', k) {
      if k < |w.wires| { assert RecordInv(w, k); KeepRecord(w, w', k); }
    }
    forall m | 0 <= m < |w'.hist| ensures HistInv(w', w'.hist[m]) {
      if m < |w.hist| && m != n { assert HistInv(w, w.hist[m]); KeepHist(w, w', w.hist[m]); }
    }
    forall q: Role, j | 0 <= j < MAX_SESSIONS ensures SlotInv(w', q, w'.Slot(q, j)) {
      if q != r || j != i {
        assert SlotInv(w, q, w.Slot(q, j));
        OthersDoNotUse(supply, w, r, i, n, q, j);
        KeepSlot(w, w', q, w.Slot(q, j));
      }
    }
    forall q: Role, j, k | 0 <= j < k < MAX_SESSIONS && w'.Slot(q, j).state != Free && w'.Slot(q, k).state != Free
      ensures w'.Slot(q, j).inst != w'.Slot(q, k).inst
    {
      if q != r || j != i { OthersDoNotUse(supply, w, r, i, n, q, j); }
      if q != r || k != i { OthersDoNotUse(supply, w, r, i, n, q, k); }
    }
  }

  // ---------- sealing ----------

  lemma SealAppends(supply: seq<seq<byte>>, net: Sys, r: Role, ctype: ContentType, sid: U16, pt: seq<byte>)
    ensures var net' := Link.Next(supply, net, SealAt(r, ctype, sid, pt));
            net' == net ||
            (&& |net'.sent| == |net.sent| + 1 && net'.sent[..|net.sent|] == net.sent && net'.got == net.got
             && var x := net'.sent[|net.sent|];
                x.from == r && x.hdr.ctype == ctype && x.hdr.sessionId == sid && x.pt == pt)
  {
    hide SealLane;
  }

  /** Sealing for a session in good standing adds one record of its own. */
  lemma SendRecordKeeps(supply: seq<seq<byte>>, w: World, r: Role, i: nat, ctype: ContentType, data: seq<byte>,
                        arp: bool, dev: bool)
    requires WorldInv(supply, w) && Fits(supply) && i < MAX_SESSIONS && w.Slot(r, i).state != Free
    requires w.Slot(r, i).inst < |w.hist|
    requires ctype == Hello ==> w.hist[w.Slot(r, i).inst].client
    requires ctype == HelloAck ==> !w.hist[w.Slot(r, i).inst].client
    ensures var w' := SendRecord(supply, w, r, i, ctype, data, arp, dev);
            && WorldInv(supply, w') && Extends(w, w') && w'.hist == w.hist && w'.a == w.a && w'.b == w.b
            && (w' == w || (Grew(w, w') && |w'.net.sent| == |w.net.sent| + 1 && w'.net.got == w.net.got))
  {
    hide RecordInv, HistInv, Link.Inv, Link.Next;
    var x := w.Slot(r, i);
    assert SlotInv(w, r, x);
    SealAppends(supply, w.net, r, ctype, x.id, data);
    var w' := SendRecord(supply, w, r, i, ctype, data, arp, dev);
    if w' != w {
      StepKeepsInv(supply, w.net, SealAt(r, ctype, x.id, data));
      assert w'.net.sent[..|w.net.sent|] == w.net.sent;
      NewRecord(w', r, x, |w.wires|);
      KeepSlot(w, w', r, x);
      assert HistInv(w, w.hist[x.inst]);
      KeepHist(w, w', w.hist[x.inst]);
      Assemble(supply, w, w', r, i, x.inst);
    }
  }

  lemma NewRecord(w: World, r: Role, x: Session, k: nat)
    requires |w.wires| == |w.net.sent| && k < |w.wires| && x.inst < |w.hist|
    requires w.wires[k] == Wire(x.localPort, x.peerPort, x.inst, w.wires[k].shipped)
    requires w.net.sent[k].from == r && w.net.sent[k].hdr.sessionId == x.id
    requires var h := w.hist[x.inst]; h.node == r && h.local == x.localPort && h.peerPort == x.peerPort && h.id == x.id
    requires w.net.sent[k].hdr.ctype == Hello ==> w.hist[x.inst].client
    requires w.net.sent[k].hdr.ctype == HelloAck ==> !w.hist[x.inst].client
    ensures RecordInv(w, k)
  {}

  // ---------- one slot, one history ----------

  /** Everything an operation needs to know about the slot it works on. */
  lemma SlotFacts(supply: seq<seq<byte>>, w: World, r: Role, i: nat)
    requires WorldInv(supply, w) && i < MAX_SESSIONS
    ensures SlotInv(w, r, w.Slot(r, i))
    ensures w.Slot(r, i).state != Free ==> OnlyUser(w, r, i, w.Slot(r, i).inst)
    ensures OnlyUser(w, r, i, |w.hist|)
  {
    hide RecordInv, HistInv, HasServer;
    assert SlotInv(w, r, w.Slot(r, i));
    forall j | 0 <= j < MAX_SESSIONS && w.Slot(r, j).state != Free ensures w.Slot(r, j).inst < |w.hist| {
      assert SlotInv(w, r, w.Slot(r, j));
    }
  }

  /** The slot is emptied or marked free; histories stay. */
  lemma FreeingKeeps(supply: seq<seq<byte>>, w: World, r: Role, i: nat, x: Session)
    requires WorldInv(supply, w) && i < MAX_SESSIONS && x.state == Free && x.rx == []
    ensures WorldInv(supply, w.WithSlot(r, i, x)) && Extends(w, w.WithSlot(r, i, x))
  {
    SlotFacts(supply, w, r, i);
    hide RecordInv, HistInv, HasServer, Link.Inv;
    Assemble(supply, w, w.WithSlot(r, i, x), r, i, |w.hist|);
  }

  /** Replacing one slot, and one history or none. */
  lemma Replaced(supply: seq<seq<byte>>, w: World, r: Role, i: nat, x: Session, hist: seq<Hist>, n: nat)
    requires WorldInv(supply, w) && i < MAX_SESSIONS
    requires |w.hist| <= |hist|
    requires forall m :: 0 <= m < |w.hist| ==>
               SameConn(w.hist[m], hist[m]) && (m != n ==> hist[m] == w.hist[m])
    ensures var w' := w.WithSlot(r, i, x).(hist := hist); Extends(w, w') && Elsewhere(w, w', r, i, n)
  {
    hide RecordInv, HistInv, SlotInv, Link.Inv;
  }

  lemma SlotWithState(w: World, r: Role, y: Session, x: Session)
    requires |w.wires| == |w.net.sent| && SlotInv(w, r, y) && y.state != Free
    requires x.state != Free && x == y.(state := x.state, accepted := x.accepted)
    requires x.state == HelloSent ==> y.state == HelloSent
    requires x.state == Established && w.hist[x.inst].client ==> HasServer(w, w.hist[x.inst])
    ensures SlotInv(w, r, x) && HistInv(w, w.hist[x.inst])
  {
    hide HistInv, HasServer;
  }

  /** The slot changes its state or flag within the same instance; histories stay. */
  lemma StateChangeKeeps(supply: seq<seq<byte>>, w: World, r: Role, i: nat, x: Session)
    requires WorldInv(supply, w) && i < MAX_SESSIONS && w.Slot(r, i).state != Free
    requires x.state != Free && x == w.Slot(r, i).(state := x.state, accepted := x.accepted)
    requires x.state == HelloSent ==> w.Slot(r, i).state == HelloSent
    requires w.Slot(r, i).inst < |w.hist|
    requires x.state == Established && w.hist[x.inst].client ==> HasServer(w, w.hist[x.inst])
    ensures WorldInv(supply, w.WithSlot(r, i, x)) && Extends(w, w.WithSlot(r, i, x))
  {
    SelfExtends(supply, w);
    hide WorldInv, HistInv, SlotInv, HasServer, Extends, Elsewhere, OnlyUser, SameConn;
    var w' := w.WithSlot(r, i, x);
    SlotFacts(supply, w, r, i);
    SelfConn(w.hist);
    Replaced(supply, w, r, i, x, w.hist, x.inst);
    assert w' == w.WithSlot(r, i, x).(hist := w.hist);
    InvNet(supply, w);
    KeepSlot(w, w', r, w.Slot(r, i));
    if x.state == Established && w.hist[x.inst].client { KeepServer(w, w', w.hist[x.inst]); }
    SlotWithState(w', r, w.Slot(r, i), x);
    Assemble(supply, w, w', r, i, x.inst);
  }

  lemma SelfConn(hist: seq<Hist>)
    ensures forall m :: 0 <= m < |hist| ==> SameConn(hist[m], hist[m])
  {}

  lemma InvNet(supply: seq<seq<byte>>, w: World)
    requires WorldInv(supply, w)
    ensures Link.Inv(supply, w.net) && |w.wires| == |w.net.sent|
  {}

  lemma FreshSlot(w: World, r: Role, x: Session)
    requires |w.wires| == |w.net.sent| && x.inst < |w.hist| && (x.state == HelloSent || x.state == Established)
    requires var h := w.hist[x.inst];
             && (x.state == HelloSent <==> h.client) && x.rx == [] && h.line == [] && h.popped == []
             && h.node == r && h.local == x.localPort && h.peerPort == x.peerPort && h.id == x.id
             && (!h.client ==> For(w, h, h.hello, Hello))
    ensures SlotInv(w, r, x) && HistInv(w, w.hist[x.inst])
  {
    hide For, HasServer;
  }

  /** A free slot becomes a new instance. */
  lemma OpeningKeeps(supply: seq<seq<byte>>, w: World, r: Role, i: nat, x: Session, h: Hist)
    requires WorldInv(supply, w) && i < MAX_SESSIONS
    requires x.state == HelloSent || x.state == Established
    requires x.state == HelloSent <==> h.client
    requires x.inst == |w.hist| && x.rx == [] && h.line == [] && h.popped == []
    requires h.node == r && h.local == x.localPort && h.peerPort == x.peerPort && h.id == x.id
    requires |w.wires| == |w.net.sent|
    requires !h.client ==> For(w, h, h.hello, Hello)
    ensures var w' := w.WithSlot(r, i, x).(hist := w.hist + [h]); WorldInv(supply, w') && Extends(w, w')
  {
    hide WorldInv, HistInv, SlotInv, HasServer, Extends, Elsewhere, OnlyUser, For, SameConn;
    var w' := w.WithSlot(r, i, x).(hist := w.hist + [h]);
    SlotFacts(supply, w, r, i);
    SelfConn(w.hist);
    Replaced(supply, w, r, i, x, w.hist + [h], |w.hist|);
    InvNet(supply, w);
    if !h.client { KeepFor(w, w', h, h.hello, Hello); }
    FreshSlot(w', r, x);
    Assemble(supply, w, w', r, i, |w.hist|);
  }

  lemma QueuedSlot(w: World, w': World, r: Role, y: Session, x: Session)
    requires Extends(w, w') && SlotInv(w, r, y) && y.state != Free && y.inst < |w.hist|
    requires x == y.(rx := x.rx) && HistInv(w', w'.hist[y.inst])
    requires Queued(x.rx, w'.net.sent, w'.hist[y.inst].line, |w'.hist[y.inst].popped|)
    ensures SlotInv(w', r, x)
  {
    hide HistInv, HasServer, Queued;
    assert SameConn(w.hist[y.inst], w'.hist[y.inst]);
    if y.state == Established && w.hist[y.inst].client {
      KeepServer(w, w', w.hist[y.inst]);
      SameServer(w', w.hist[y.inst], w'.hist[y.inst]);
    }
  }

  /** The slot and the history of its instance move together. */
  lemma QueueChangeKeeps(supply: seq<seq<byte>>, w: World, r: Role, i: nat, x: Session, h: Hist)
    requires WorldInv(supply, w) && i < MAX_SESSIONS && w.Slot(r, i).state != Free && w.Slot(r, i).inst < |w.hist|
    requires var y := w.Slot(r, i); x == y.(rx := x.rx) && h == w.hist[y.inst].(line := h.line, popped := h.popped)
    requires |w.wires| == |w.net.sent| && HistInv(w, h) && Queued(x.rx, w.net.sent, h.line, |h.popped|)
    ensures var w' := w.WithSlot(r, i, x).(hist := w.hist[x.inst := h]); WorldInv(supply, w') && Extends(w, w')
  {
    hide WorldInv, HistInv, SlotInv, HasServer, Extends, Elsewhere, OnlyUser, Queued;
    var w' := w.WithSlot(r, i, x).(hist := w.hist[x.inst := h]);
    SlotFacts(supply, w, r, i);
    Replaced(supply, w, r, i, x, w.hist[x.inst := h], x.inst);
    InvNet(supply, w);
    KeepHist(w, w', h);
    QueuedSlot(w, w', r, w.Slot(r, i), x);
    Assemble(supply, w, w', r, i, x.inst);
  }

  lemma SameServer(w: World, h: Hist, g: Hist)
    requires HasServer(w, h) && SameConn(h, g)
    ensures HasServer(w, g)
  {
    var k :| 0 <= k < |w.hist| && Twin(h, w.hist[k]) && !w.hist[k].client;
    assert Twin(g, w.hist[k]);
  }

  // ---------- the socket calls ----------

  /** A new client instance, before its Hello is sealed. */
  lemma ClientOpens(supply: seq<seq<byte>>, w: World, r: Role, i: nat, port: U16, local: U16)
    requires WorldInv(supply, w) && i < MAX_SESSIONS
    ensures var st := w.At(r); var id := st.nextSession;
            var x := Session(HelloSent, id, port, local, true, [], |w.hist|);
            var w1 := w.With(r, st.(sessions := st.sessions[i := x], nextSession := NextId(id)))
                       .(hist := w.hist + [Hist(r, local, port, id, true, 0, [], [])]);
            WorldInv(supply, w1) && Extends(w, w1)
  {
    hide WorldInv, Extends;
    var st := w.At(r);
    var id := st.nextSession;
    var x := Session(HelloSent, id, port, local, true, [], |w.hist|);
    var h := Hist(r, local, port, id, true, 0, [], []);
    InvNet(supply, w);
    OpeningKeeps(supply, w, r, i, x, h);
    var w0 := w.WithSlot(r, i, x).(hist := w.hist + [h]);
    CounterKeeps(supply, w0, r, NextId(id));
    ExtendsThrough(w, w0, w0.With(r, w0.At(r).(nextSession := NextId(id))));
  }

  /** The Hello is sealed, or the slot is freed again. */
  lemma HelloKeeps(supply: seq<seq<byte>>, w: World, r: Role, i: nat, arp: bool, dev: bool, keep: bool)
    requires WorldInv(supply, w) && Fits(supply) && i < MAX_SESSIONS && w.Slot(r, i).rx == []
    requires w.Slot(r, i).state != Free && w.Slot(r, i).inst < |w.hist| && w.hist[w.Slot(r, i).inst].client
    ensures var x := w.Slot(r, i);
            var w2 := SendRecord(supply, w, r, i, Hello, [], arp, dev);
            var w3 := if keep then w2 else w2.WithSlot(r, i, x.(state := Free));
            WorldInv(supply, w3) && Extends(w, w3)
  {
    hide WorldInv, Extends, SendRecord;
    SendRecordKeeps(supply, w, r, i, Hello, [], arp, dev);
    var w2 := SendRecord(supply, w, r, i, Hello, [], arp, dev);
    if !keep {
      var y := w.Slot(r, i).(state := Free);
      FreeingKeeps(supply, w2, r, i, y);
      ExtendsThrough(w, w2, w2.WithSlot(r, i, y));
    }
  }

  lemma ConnectKeeps(supply: seq<seq<byte>>, w: World, r: Role, port: U16, arp: bool, dev: bool)
    requires WorldInv(supply, w) && Fits(supply)
    ensures WorldInv(supply, Connect(supply, w, r, port, arp, dev)) && Extends(w, Connect(supply, w, r, port, arp, dev))
  {
    hide WorldInv, Extends, SendRecord;
    SelfExtends(supply, w);
    var st := w.At(r);
    var i := FindFree(st.sessions, 0);
    if arp && i < MAX_SESSIONS {
      var id := st.nextSession;
      var local: U16 := EPHEMERAL_BASE + id % 16384;
      var x := Session(HelloSent, id, port, local, true, [], |w.hist|);
      var w1 := w.With(r, st.(sessions := st.sessions[i := x], nextSession := NextId(id)))
                 .(hist := w.hist + [Hist(r, local, port, id, true, 0, [], [])]);
      ClientOpens(supply, w, r, i, port, local);
      var w2 := SendRecord(supply, w1, r, i, Hello, [], arp, dev);
      HelloKeeps(supply, w1, r, i, arp, dev, Grew(w1, w2) && dev);
      ExtendsThrough(w, w1, Connect(supply, w, r, port, arp, dev));
    }
  }

  lemma ExtendsThrough(w: World, w1: World, w2: World)
    requires Extends(w, w1) && Extends(w1, w2)
    ensures Extends(w, w2)
  {
    forall i | 0 <= i < |w.hist| ensures SameConn(w.hist[i], w2.hist[i]) {
      assert SameConn(w.hist[i], w1.hist[i]) && SameConn(w1.hist[i], w2.hist[i]);
    }
  }

  /** The id counter and the listening ports are not part of the invariant. */
  lemma CounterKeeps(supply: seq<seq<byte>>, w: World, r: Role, next: U16)
    requires WorldInv(supply, w)
    ensures var w' := w.With(r, w.At(r).(nextSession := next)); WorldInv(supply, w') && Extends(w, w')
  {
    FrontKeeps(supply, w, w.With(r, w.At(r).(nextSession := next)));
  }

  lemma FrontKeeps(supply: seq<seq<byte>>, w: World, w': World)
    requires WorldInv(supply, w) && Link.Inv(supply, w'.net) && Extends(w, w')
    requires w'.a.sessions == w.a.sessions && w'.b.sessions == w.b.sessions && w'.hist == w.hist && w'.wires == w.wires
    ensures WorldInv(supply, w')
  {
    hide RecordInv, HistInv, SlotInv, Link.Inv;
    forall k | 0 <= k < |w'.wires| ensures RecordInv(w', k) { assert RecordInv(w, k); KeepRecord(w, w', k); }
    forall m | 0 <= m < |w'.hist|
      ensures HistInv(w', w'.hist[m])
    {
      assert HistInv(w, w.hist[m]);
      KeepHist(w, w', w.hist[m]);
    }
    forall q: Role, j | 0 <= j < MAX_SESSIONS ensures SlotInv(w', q, w'.Slot(q, j)) {
      assert w'.Slot(q, j) == w.Slot(q, j) && SlotInv(w, q, w.Slot(q, j));
      KeepSlot(w, w', q, w.Slot(q, j));
    }
    forall q: Role, j, k | 0 <= j < k < MAX_SESSIONS && w'.Slot(q, j).state != Free && w'.Slot(q, k).state != Free
      ensures w'.Slot(q, j).inst != w'.Slot(q, k).inst
    {
      assert w'.Slot(q, j) == w.Slot(q, j) && w'.Slot(q, k) == w.Slot(q, k);
    }
  }

  lemma SendKeeps(supply: seq<seq<byte>>, w: World, r: Role, i: nat, data: seq<byte>, arp: bool, dev: bool)
    requires WorldInv(supply, w) && Fits(supply)
    ensures WorldInv(supply, Send(supply, w, r, i, data, arp, dev)) && Extends(w, Send(supply, w, r, i, data, arp, dev))
  {
    hide SendRecord, WorldInv, Extends;
    SelfExtends(supply, w);
    if i < MAX_SESSIONS && w.Slot(r, i).state == Established {
      SlotFacts(supply, w, r, i);
      SendRecordKeeps(supply, w, r, i, Data, Clip(data), arp, dev);
    }
  }

  lemma SelfExtends(supply: seq<seq<byte>>, w: World)
    requires WorldInv(supply, w)
    ensures Extends(w, w)
  {}

  /** What a slot with a queued message says about its instance. */
  lemma QueuedFacts(supply: seq<seq<byte>>, w: World, r: Role, i: nat)
    requires WorldInv(supply, w) && i < MAX_SESSIONS && w.Slot(r, i).state != Free
    ensures var x := w.Slot(r, i);
            && |w.wires| == |w.net.sent| && x.inst < |w.hist|
            && HistInv(w, w.hist[x.inst]) && Queued(x.rx, w.net.sent, w.hist[x.inst].line, |w.hist[x.inst].popped|)
  {
    hide RecordInv, HistInv, HasServer, Queued, Link.Inv;
    assert SlotInv(w, r, w.Slot(r, i));
  }

  lemma QueueInUse(supply: seq<seq<byte>>, w: World, r: Role, i: nat)
    requires WorldInv(supply, w) && i < MAX_SESSIONS && w.Slot(r, i).rx != []
    ensures w.Slot(r, i).state != Free
  {
    hide RecordInv, HistInv, HasServer, Queued, Link.Inv;
    assert SlotInv(w, r, w.Slot(r, i));
  }

  lemma PopKeeps(supply: seq<seq<byte>>, w: World, r: Role, i: nat)
    requires WorldInv(supply, w) && i < MAX_SESSIONS && w.Slot(r, i).rx != [] && w.Slot(r, i).inst < |w.hist|
    ensures var x := w.Slot(r, i); var h := w.hist[x.inst];
            var hist := w.hist[x.inst := h.(popped := h.popped + [x.rx[0]])];
            var w' := w.WithSlot(r, i, x.(rx := x.rx[1..])).(hist := hist);
            WorldInv(supply, w') && Extends(w, w')
  {
    hide WorldInv, Extends, HistInv, Queued;
    QueueInUse(supply, w, r, i);
    QueuedFacts(supply, w, r, i);
    var x := w.Slot(r, i);
    var h := w.hist[x.inst];
    QueuePop(x.rx, w.net.sent, h.line, |h.popped|);
    HistPop(w, h, x.rx[0]);
    QueueChangeKeeps(supply, w, r, i, x.(rx := x.rx[1..]), h.(popped := h.popped + [x.rx[0]]));
  }

  lemma RecvKeeps(supply: seq<seq<byte>>, w: World, r: Role, i: nat, room: nat)
    requires WorldInv(supply, w)
    ensures WorldInv(supply, Recv(w, r, i, room)) && Extends(w, Recv(w, r, i, room))
  {
    hide WorldInv, Extends;
    SelfExtends(supply, w);
    if i < MAX_SESSIONS && w.Slot(r, i).rx != [] && w.Slot(r, i).inst < |w.hist| {
      PopKeeps(supply, w, r, i);
    }
  }

  lemma HistPop(w: World, h: Hist, msg: seq<byte>)
    requires |w.wires| == |w.net.sent| && HistInv(w, h) && |h.popped| < |h.line|
    requires h.line[|h.popped|] < |w.net.sent| && msg == w.net.sent[h.line[|h.popped|]].pt
    ensures HistInv(w, h.(popped := h.popped + [msg]))
  {
    hide For;
    var h' := h.(popped := h.popped + [msg]);
    forall j | 0 <= j < |h'.line| ensures For(w, h', h'.line[j], Data) { SameFor(w, h, h', h.line[j], Data); }
    if !h.client { SameFor(w, h, h', h.hello, Hello); }
  }

  lemma HistPush(w: World, h: Hist, k: nat)
    requires |w.wires| == |w.net.sent| && HistInv(w, h) && For(w, h, k, Data)
    requires forall j :: 0 <= j < |h.line| ==> h.line[j] < k
    ensures HistInv(w, h.(line := h.line + [k]))
  {
    hide For;
    var h' := h.(line := h.line + [k]);
    forall j | 0 <= j < |h'.line| ensures For(w, h', h'.line[j], Data) {
      if j < |h.line| { SameFor(w, h, h', h.line[j], Data); } else { SameFor(w, h, h', k, Data); }
    }
    if !h.client { SameFor(w, h, h', h.hello, Hello); }
  }

  lemma HistCut(w: World, h: Hist)
    requires |w.wires| == |w.net.sent| && HistInv(w, h)
    ensures HistInv(w, h.(line := h.line[..|h.popped|]))
  {
    hide For;
    var h' := h.(line := h.line[..|h.popped|]);
    forall j | 0 <= j < |h'.line| ensures For(w, h', h'.line[j], Data) { SameFor(w, h, h', h.line[j], Data); }
    if !h.client { SameFor(w, h, h', h.hello, Hello); }
  }

  /** Whom a record is for depends on the connection only. */
  lemma SameFor(w: World, h: Hist, g: Hist, k: nat, t: ContentType)
    requires |w.wires| == |w.net.sent| && For(w, h, k, t) && SameConn(h, g)
    ensures For(w, g, k, t)
  {
    hide AcceptedBy;
  }

  lemma CloseKeeps(supply: seq<seq<byte>>, w: World, r: Role, i: nat, arp: bool, dev: bool)
    requires WorldInv(supply, w) && Fits(supply)
    ensures WorldInv(supply, Sessions.Close(supply, w, r, i, arp, dev))
    ensures Extends(w, Sessions.Close(supply, w, r, i, arp, dev))
  {
    hide SendRecord, WorldInv, Extends;
    SelfExtends(supply, w);
    if i < MAX_SESSIONS {
      var w1 := w;
      if w.Slot(r, i).state == Established {
        SlotFacts(supply, w, r, i);
        SendRecordKeeps(supply, w, r, i, ContentType.Close, [], arp, dev);
        w1 := SendRecord(supply, w, r, i, ContentType.Close, [], arp, dev);
      }
      FreeingKeeps(supply, w1, r, i, EMPTY_SESSION);
      ExtendsThrough(w, w1, w1.WithSlot(r, i, EMPTY_SESSION));
    }
  }

  lemma AcceptKeeps(supply: seq<seq<byte>>, w: World, r: Role, port: U16)
    requires WorldInv(supply, w)
    ensures WorldInv(supply, Accept(w, r, port)) && Extends(w, Accept(w, r, port))
  {
    hide WorldInv, Extends;
    SelfExtends(supply, w);
    var i := FindPending(w.At(r).sessions, port, 0);
    if i < MAX_SESSIONS {
      SlotFacts(supply, w, r, i);
      PendingIs(w.At(r).sessions, port, 0);
      StateChangeKeeps(supply, w, r, i, w.Slot(r, i).(accepted := true));
    }
  }

  lemma {:induction false} PendingIs(t: Table, port: U16, k: nat)
    requires k <= MAX_SESSIONS
    ensures var i := FindPending(t, port, k);
            i < MAX_SESSIONS ==> t[i].state == Established && !t[i].accepted && t[i].localPort == port
    decreases MAX_SESSIONS - k
  {
    if k < MAX_SESSIONS { PendingIs(t, port, k + 1); }
  }

  lemma ListenKeeps(supply: seq<seq<byte>>, w: World, r: Role, port: U16)
    requires WorldInv(supply, w)
    ensures WorldInv(supply, Listen(w, r, port)) && Extends(w, Listen(w, r, port))
  {
    SelfExtends(supply, w);
    InvNet(supply, w);
    hide WorldInv, RecordInv, HistInv, SlotInv, FirstZero;
    FrontKeeps(supply, w, Listen(w, r, port));
  }

  // ---------- arrivals ----------

  /** A delivered genuine record is either refused without trace or opened as it was sealed, after
      everything opened before. */
  lemma DeliverAppends(supply: seq<seq<byte>>, net: Sys, r: Role, k: nat)
    requires Link.Inv(supply, net) && Fits(supply) && k < |net.sent| && net.sent[k].from == Peer(r)
    ensures var net' := Link.Next(supply, net, DeliverTo(r, k));
            net' == net || (net'.sent == net.sent && net'.got == net.got + [Got(r, k, net.sent[k].hdr, net.sent[k].pt)])
  {
    hide Link.Inv, OpenLane, Stream, Fits;
    DeliverOutcome(supply, net, r, k);
  }

  lemma DeliveredLast(supply: seq<seq<byte>>, net: Sys, r: Role, k: nat, got: seq<Got>, g: Got)
    requires Link.Inv(supply, net) && net.got == got + [g] && g.node == r && g.idx == k
    ensures forall j :: 0 <= j < |got| && got[j].node == r ==> got[j].idx < k
  {
    hide KeysInv, SentInv, GotInv;
    forall j | 0 <= j < |got| && got[j].node == r ensures got[j].idx < k {
      assert net.got[j] == got[j] && net.got[|got|] == g;
    }
  }

  lemma HeaderReads(supply: seq<seq<byte>>, net: Sys, k: nat)
    requires Link.Inv(supply, net) && Fits(supply) && k < |net.sent|
    ensures ParseHeader(net.sent[k].rec) == Ok(net.sent[k].hdr)
  {
    hide Link.Inv, RecordBytes, ParseHeader, Stream;
    SentFacts(supply, net, k);
    var x := net.sent[k];
    var key := Whole(supply, TxLane(x.from))[x.hdr.keyOffset..End(x.hdr)];
    RecordShape(key, x.hdr, x.pt);
    ParseHeaderIff(x.rec, x.hdr);
  }

  lemma RecordShape(key: seq<byte>, h: Header, pt: seq<byte>)
    requires |key| == KeyCost(|pt|) && h.length == |pt| && h.keyOffset < TWO64
    ensures var rec := RecordBytes(key, h, pt);
            |rec| == HDR_LEN + h.length + TAG_LEN && rec[..HDR_LEN] == HeaderBytes(h)
  {
    hide HeaderBytes, XorBytes, PolyField.Mac;
  }

  /** The net advances; sessions, wires and histories stay. */
  lemma NetKeeps(supply: seq<seq<byte>>, w: World, e: Event)
    requires WorldInv(supply, w) && Fits(supply) && !e.SealAt?
    ensures var w' := w.(net := Link.Next(supply, w.net, e)); WorldInv(supply, w') && Extends(w, w')
  {
    hide WorldInv, Link.Inv, RecordInv, HistInv, SlotInv;
    InvNet(supply, w);
    SelfExtends(supply, w);
    StepKeepsInv(supply, w.net, e);
    NotSealed(supply, w.net, e);
    FrontKeeps(supply, w, w.(net := Link.Next(supply, w.net, e)));
  }

  lemma NotSealed(supply: seq<seq<byte>>, net: Sys, e: Event)
    requires !e.SealAt?
    ensures Link.Next(supply, net, e).sent == net.sent && net.got <= Link.Next(supply, net, e).got
  {
    hide OpenLane, DepositBlock;
  }

  lemma AdmitKeeps(supply: seq<seq<byte>>, w: World, r: Role, k: nat, sport: U16, dport: U16, id: U16, arp: bool,
                   dev: bool)
    requires WorldInv(supply, w) && Fits(supply) && |w.wires| == |w.net.sent|
    requires For(w, Hist(r, dport, sport, id, false, k, [], []), k, Hello)
    ensures WorldInv(supply, Admit(supply, w, r, k, sport, dport, id, arp, dev))
    ensures Extends(w, Admit(supply, w, r, k, sport, dport, id, arp, dev))
  {
    hide WorldInv, Extends, For, SendRecord;
    SelfExtends(supply, w);
    var i := FindFree(w.At(r).sessions, 0);
    if i < MAX_SESSIONS {
      var x := Session(Established, id, sport, dport, false, [], |w.hist|);
      var h := Hist(r, dport, sport, id, false, k, [], []);
      OpeningKeeps(supply, w, r, i, x, h);
      var w1 := w.WithSlot(r, i, x).(hist := w.hist + [h]);
      SendRecordKeeps(supply, w1, r, i, HelloAck, [], arp, dev);
      ExtendsThrough(w, w1, SendRecord(supply, w1, r, i, HelloAck, [], arp, dev));
    }
  }

  /** Record `k`, found to be addressed to the session in the slot, has just been opened. */
  ghost predicate JustOpened(w: World, r: Role, i: nat, k: nat)
    requires |w.wires| == |w.net.sent| && i < MAX_SESSIONS
  {
    && k < |w.wires| && w.wires[k].shipped && w.net.sent[k].from == Peer(r) && AcceptedBy(w.net, r, k)
    && Matches(w.Slot(r, i), w.wires[k].sport, w.wires[k].dport, w.net.sent[k].hdr.sessionId)
  }

  lemma AckedServer(w: World, r: Role, x: Session, k: nat)
    requires |w.wires| == |w.net.sent| && k < |w.wires| && w.net.sent[k].from == Peer(r)
    requires w.net.sent[k].hdr.ctype == HelloAck
    requires RecordInv(w, k) && SlotInv(w, r, x) && x.state != Free
    requires Matches(x, w.wires[k].sport, w.wires[k].dport, w.net.sent[k].hdr.sessionId)
    ensures x.inst < |w.hist| && HasServer(w, w.hist[x.inst])
  {
    hide HistInv, Queued;
    assert Twin(w.hist[x.inst], w.hist[w.wires[k].inst]);
  }

  lemma AckKeeps(supply: seq<seq<byte>>, w: World, r: Role, i: nat, k: nat)
    requires WorldInv(supply, w) && i < MAX_SESSIONS && |w.wires| == |w.net.sent|
    requires JustOpened(w, r, i, k) && w.net.sent[k].hdr.ctype == HelloAck
    ensures var w' := w.WithSlot(r, i, w.Slot(r, i).(state := Established)); WorldInv(supply, w') && Extends(w, w')
  {
    SlotFacts(supply, w, r, i);
    assert RecordInv(w, k) by { hide SlotInv, HistInv, JustOpened; }
    hide WorldInv, Extends, SlotInv, HistInv, HasServer, AcceptedBy;
    AckedServer(w, r, w.Slot(r, i), k);
    StateChangeKeeps(supply, w, r, i, w.Slot(r, i).(state := Established));
  }

  /** A payload joins the queue; its record comes after everything the instance has queued. */
  lemma DataKeeps(supply: seq<seq<byte>>, w: World, r: Role, i: nat, k: nat)
    requires WorldInv(supply, w) && i < MAX_SESSIONS && |w.wires| == |w.net.sent|
    requires JustOpened(w, r, i, k) && w.net.sent[k].hdr.ctype == Data
    requires w.Slot(r, i).inst < |w.hist| && |w.Slot(r, i).rx| < RX_SLOTS
    requires var line := w.hist[w.Slot(r, i).inst].line; forall j :: 0 <= j < |line| ==> line[j] < k
    ensures var x := w.Slot(r, i); var h := w.hist[x.inst];
            var hist := w.hist[x.inst := h.(line := h.line + [k])];
            var w' := w.WithSlot(r, i, x.(rx := x.rx + [w.net.sent[k].pt])).(hist := hist);
            WorldInv(supply, w') && Extends(w, w')
  {
    hide WorldInv, Extends, HistInv, Queued, AcceptedBy;
    var x := w.Slot(r, i);
    var h := w.hist[x.inst];
    QueuedFacts(supply, w, r, i);
    ConnOf(supply, w, r, i);
    assert For(w, h, k, Data);
    HistPush(w, h, k);
    QueuePush(x.rx, w.net.sent, h.line, |h.popped|, k);
    QueueChangeKeeps(supply, w, r, i, x.(rx := x.rx + [w.net.sent[k].pt]), h.(line := h.line + [k]));
  }

  lemma ConnOf(supply: seq<seq<byte>>, w: World, r: Role, i: nat)
    requires WorldInv(supply, w) && i < MAX_SESSIONS && w.Slot(r, i).state != Free
    ensures var x := w.Slot(r, i);
            x.inst < |w.hist| && var h := w.hist[x.inst];
            h.node == r && h.local == x.localPort && h.peerPort == x.peerPort && h.id == x.id
  {
    hide RecordInv, HistInv, HasServer, Queued, Link.Inv;
    assert SlotInv(w, r, w.Slot(r, i));
  }

  lemma ArriveKeeps(supply: seq<seq<byte>>, w: World, r: Role, i: nat, k: nat)
    requires WorldInv(supply, w) && i < MAX_SESSIONS && |w.wires| == |w.net.sent| && JustOpened(w, r, i, k)
    requires var x := w.Slot(r, i);
             x.inst < |w.hist| && forall j :: 0 <= j < |w.hist[x.inst].line| ==> w.hist[x.inst].line[j] < k
    ensures var w' := Arrive(w, r, i, k, w.net.sent[k].hdr.ctype, w.net.sent[k].pt);
            WorldInv(supply, w') && Extends(w, w')
  {
    hide WorldInv, Extends, AcceptedBy;
    SelfExtends(supply, w);
    QueuedFacts(supply, w, r, i);
    var x := w.Slot(r, i);
    var t := w.net.sent[k].hdr.ctype;
    if t == HelloAck && x.state == HelloSent {
      AckKeeps(supply, w, r, i, k);
    } else if t == Data && x.state == Established {
      if |x.rx| < RX_SLOTS { DataKeeps(supply, w, r, i, k); }
    } else if t == ContentType.Close {
      StateChangeKeeps(supply, w, r, i, x.(state := Closed));
    }
  }

  /** Record `k` is one the channel can deliver to node `r`. */
  predicate FromPeer(w: World, r: Role, k: nat)
  {
    k < |w.net.sent| && k < |w.wires| && w.wires[k].shipped && w.net.sent[k].from == Peer(r)
  }

  /** A record opened for the slot: the net as it is afterwards, and what the slot knows. */
  lemma OpenedForSlot(supply: seq<seq<byte>>, w: World, r: Role, i: nat, k: nat)
    requires WorldInv(supply, w) && Fits(supply) && i < MAX_SESSIONS && FromPeer(w, r, k)
    requires Matches(w.Slot(r, i), w.wires[k].sport, w.wires[k].dport, w.net.sent[k].hdr.sessionId)
    requires Link.Next(supply, w.net, DeliverTo(r, k)) != w.net
    ensures var w1 := w.(net := Link.Next(supply, w.net, DeliverTo(r, k)));
            && |w1.wires| == |w1.net.sent| && JustOpened(w1, r, i, k)
            && w1.Slot(r, i).inst < |w1.hist|
            && forall j :: 0 <= j < |w1.hist[w1.Slot(r, i).inst].line| ==> w1.hist[w1.Slot(r, i).inst].line[j] < k
  {
    hide WorldInv, Link.Inv, Link.Next, HistInv, Queued;
    InvNet(supply, w);
    DeliverAppends(supply, w.net, r, k);
    var net' := Link.Next(supply, w.net, DeliverTo(r, k));
    var g := Got(r, k, w.net.sent[k].hdr, w.net.sent[k].pt);
    StepKeepsInv(supply, w.net, DeliverTo(r, k));
    DeliveredLast(supply, net', r, k, w.net.got, g);
    assert net'.got[|w.net.got|] == g;
    QueuedFacts(supply, w, r, i);
    ConnOf(supply, w, r, i);
    var h := w.hist[w.Slot(r, i).inst];
    forall j | 0 <= j < |h.line| ensures h.line[j] < k { LineAccepted(w, h, j); }
  }

  lemma LineAccepted(w: World, h: Hist, j: nat)
    requires |w.wires| == |w.net.sent| && HistInv(w, h) && j < |h.line|
    ensures AcceptedBy(w.net, h.node, h.line[j])
  {
    hide AcceptedBy;
    assert For(w, h, h.line[j], Data);
  }

  lemma HelloFor(supply: seq<seq<byte>>, w: World, r: Role, k: nat)
    requires WorldInv(supply, w) && Fits(supply) && FromPeer(w, r, k)
    requires w.net.sent[k].hdr.ctype == Hello && Link.Next(supply, w.net, DeliverTo(r, k)) != w.net
    ensures var w1 := w.(net := Link.Next(supply, w.net, DeliverTo(r, k)));
            && |w1.wires| == |w1.net.sent|
            && For(w1, Hist(r, w.wires[k].dport, w.wires[k].sport, w.net.sent[k].hdr.sessionId, false, k, [], []), k,
                   Hello)
  {
    hide WorldInv, Link.Inv, Link.Next, HistInv;
    InvNet(supply, w);
    DeliverAppends(supply, w.net, r, k);
    var net' := Link.Next(supply, w.net, DeliverTo(r, k));
    var g := Got(r, k, w.net.sent[k].hdr, w.net.sent[k].pt);
    assert net'.got[|w.net.got|] == g;
  }

  /** What `handle` does with a record the channel delivers, in terms of what was sealed. */
  lemma HandleIs(supply: seq<seq<byte>>, w: World, r: Role, k: nat, arp: bool, dev: bool)
    requires WorldInv(supply, w) && Fits(supply) && FromPeer(w, r, k)
    ensures var h := w.net.sent[k].hdr; var sport, dport := w.wires[k].sport, w.wires[k].dport;
            var i := FindSession(w.At(r).sessions, sport, dport, h.sessionId, 0);
            var w1 := w.(net := Link.Next(supply, w.net, DeliverTo(r, k)));
            Handle(supply, w, r, k, arp, dev) ==
              if (i == MAX_SESSIONS && !(h.ctype == Hello && dport in w.At(r).listen)) || w1.net == w.net then w
              else if i == MAX_SESSIONS then Admit(supply, w1, r, k, sport, dport, h.sessionId, arp, dev)
              else Arrive(w1, r, i, k, h.ctype, w.net.sent[k].pt)
  {
    hide WorldInv, Link.Inv, Link.Next, ParseHeader, Admit, Arrive;
    InvNet(supply, w);
    DeliverAppends(supply, w.net, r, k);
    HeaderReads(supply, w.net, k);
  }

  lemma HandleKeeps(supply: seq<seq<byte>>, w: World, r: Role, k: nat, arp: bool, dev: bool)
    requires WorldInv(supply, w) && Fits(supply)
    ensures WorldInv(supply, Handle(supply, w, r, k, arp, dev)) && Extends(w, Handle(supply, w, r, k, arp, dev))
  {
    SelfExtends(supply, w);
    if FromPeer(w, r, k) {
      HandleIs(supply, w, r, k, arp, dev);
      hide WorldInv, Extends, Link.Next, Handle, Admit, Arrive, For, JustOpened;
      NetKeeps(supply, w, DeliverTo(r, k));
      var w1 := w.(net := Link.Next(supply, w.net, DeliverTo(r, k)));
      var h := w.net.sent[k].hdr;
      var sport, dport := w.wires[k].sport, w.wires[k].dport;
      var i := FindSession(w.At(r).sessions, sport, dport, h.sessionId, 0);
      NotSealed(supply, w.net, DeliverTo(r, k));
      if w1.net != w.net {
        if i < MAX_SESSIONS {
          OpenedForSlot(supply, w, r, i, k);
          ArriveKeeps(supply, w1, r, i, k);
          ExtendsThrough(w, w1, Arrive(w1, r, i, k, h.ctype, w.net.sent[k].pt));
        } else if h.ctype == Hello {
          HelloFor(supply, w, r, k);
          AdmitKeeps(supply, w1, r, k, sport, dport, h.sessionId, arp, dev);
          ExtendsThrough(w, w1, Admit(supply, w1, r, k, sport, dport, h.sessionId, arp, dev));
        }
      }
    }
  }

  // ---------- wiping ----------

  lemma WipeSlotKeeps(supply: seq<seq<byte>>, w: World, r: Role, i: nat)
    requires WorldInv(supply, w) && i < MAX_SESSIONS && w.Slot(r, i).rx != [] && w.Slot(r, i).inst < |w.hist|
    ensures var x := w.Slot(r, i); var h := w.hist[x.inst];
            |h.popped| <= |h.line| &&
            var w' := w.WithSlot(r, i, x.(rx := [])).(hist := w.hist[x.inst := h.(line := h.line[..|h.popped|])]);
            WorldInv(supply, w') && Extends(w, w')
  {
    hide WorldInv, Extends;
    QueueInUse(supply, w, r, i);
    QueuedFacts(supply, w, r, i);
    var x := w.Slot(r, i);
    var h := w.hist[x.inst];
    HistCut(w, h);
    hide HistInv;
    QueueChangeKeeps(supply, w, r, i, x.(rx := []), h.(line := h.line[..|h.popped|]));
  }

  lemma {:induction false} WipeQueuesKeeps(supply: seq<seq<byte>>, w: World, r: Role, n: nat)
    requires WorldInv(supply, w) && n <= MAX_SESSIONS
    ensures WorldInv(supply, WipeQueues(w, r, n)) && Extends(w, WipeQueues(w, r, n))
    decreases n
  {
    hide WorldInv, Extends;
    SelfExtends(supply, w);
    if n > 0 {
      WipeQueuesKeeps(supply, w, r, n - 1);
      var w1 := WipeQueues(w, r, n - 1);
      var x := w1.Slot(r, n - 1);
      if x.rx != [] && x.inst < |w1.hist| {
        WipeSlotKeeps(supply, w1, r, n - 1);
        ExtendsThrough(w, w1, WipeQueues(w, r, n));
      }
    }
  }

  lemma WipeStackKeeps(supply: seq<seq<byte>>, w: World, r: Role)
    requires WorldInv(supply, w) && Fits(supply)
    ensures WorldInv(supply, WipeStack(supply, w, r)) && Extends(w, WipeStack(supply, w, r))
  {
    hide WorldInv, Extends, Link.Next, WipeQueues;
    NetKeeps(supply, w, WipeAt(r));
    var w1 := w.(net := Link.Next(supply, w.net, WipeAt(r)));
    WipeQueuesKeeps(supply, w1, r, MAX_SESSIONS);
    ExtendsThrough(w, w1, WipeStack(supply, w, r));
  }

  // ---------- runs ----------

  lemma StepKeeps(supply: seq<seq<byte>>, w: World, c: Call)
    requires WorldInv(supply, w) && Fits(supply)
    ensures WorldInv(supply, Step(supply, w, c)) && Extends(w, Step(supply, w, c))
  {
    hide WorldInv, Extends, Listen, Connect, Accept, Send, Recv, Sessions.Close, Handle, WipeStack, Link.Next;
    match c
    case DoListen(r, port) => ListenKeeps(supply, w, r, port);
    case DoConnect(r, port, arp, dev) => ConnectKeeps(supply, w, r, port, arp, dev);
    case DoAccept(r, port) => AcceptKeeps(supply, w, r, port);
    case DoSend(r, i, data, arp, dev) => SendKeeps(supply, w, r, i, data, arp, dev);
    case DoRecv(r, i, room) => RecvKeeps(supply, w, r, i, room);
    case DoClose(r, i, arp, dev) => CloseKeeps(supply, w, r, i, arp, dev);
    case DoDeliver(r, k, arp, dev) => HandleKeeps(supply, w, r, k, arp, dev);
    case DoDeposit(r) => NetKeeps(supply, w, DepositAt(r));
    case DoWipe(r) => WipeStackKeeps(supply, w, r);
  }

  lemma {:induction false} PlayKeeps(supply: seq<seq<byte>>, w: World, cs: seq<Call>)
    requires WorldInv(supply, w) && Fits(supply)
    ensures WorldInv(supply, Play(supply, w, cs))
    decreases |cs|
  {
    hide WorldInv, Step;
    if cs != [] {
      var w1 := Play(supply, w, cs[..|cs| - 1]);
      PlayKeeps(supply, w, cs[..|cs| - 1]);
      StepKeeps(supply, w1, cs[|cs| - 1]);
    }
  }

  lemma StartInv(supply: seq<seq<byte>>)
    ensures WorldInv(supply, START)
  {}
}
