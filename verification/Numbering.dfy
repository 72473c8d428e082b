/** What holds of every run, however long: whose messages are handed over, and when ids repeat. */
module Numbering {
  import opened Bytes
  import opened Qtls
  import opened Link
  import opened Sessions
  import opened SessionInvariant
  import opened SessionRuns

  // ---------- whose messages are handed over ----------

  /** `ks` are increasing numbers of Data records that reached the channel, each sealed by a twin of
      `h`, and their payloads are `msgs`. */
  ghost predicate FromTwins(w: World, h: Hist, ks: seq<nat>, msgs: seq<seq<byte>>)
  {
    && |ks| == |msgs|
    && (forall i, j :: 0 <= i < j < |ks| ==> ks[i] < ks[j])
    && (forall j :: 0 <= j < |ks| ==> TwinSealed(w, h, ks[j], msgs[j]))
  }

  ghost predicate TwinSealed(w: World, h: Hist, k: nat, msg: seq<byte>)
  {
    && k < |w.net.sent| && k < |w.wires| && w.wires[k].shipped && w.net.sent[k].hdr.ctype == Data
    && w.net.sent[k].pt == msg
    && w.wires[k].inst < |w.hist| && Twin(h, w.hist[w.wires[k].inst])
  }

  /** In every run, without any bound on its length: what `recv` hands over on a session are the
      payloads of Data records, in the order of sealing and without repeats, each sealed by a session
      at the peer with the same ports and id. */
  lemma HandedOverFromTwins(supply: seq<seq<byte>>, cs: seq<Call>, n: nat)
    requires Fits(supply) && n < |Play(supply, START, cs).hist|
    ensures var w := Play(supply, START, cs); var h := w.hist[n];
            |h.popped| <= |h.line| && FromTwins(w, h, h.line[..|h.popped|], h.popped)
  {
    hide *;
    StartInv(supply);
    PlayKeeps(supply, START, cs);
    LineTwins(supply, Play(supply, START, cs), n);
  }

  lemma LineTwins(supply: seq<seq<byte>>, w: World, n: nat)
    requires WorldInv(supply, w) && n < |w.hist|
    ensures var h := w.hist[n]; |h.popped| <= |h.line| && FromTwins(w, h, h.line[..|h.popped|], h.popped)
  {
    hide WorldInv, Twin;
    LineFacts(supply, w, n);
    var h := w.hist[n];
    forall j | 0 <= j < |h.popped| ensures TwinSealed(w, h, h.line[..|h.popped|][j], h.popped[j]) {
      LineFromTwin(supply, w, n, j);
    }
  }

  // ---------- when ids repeat ----------

  /** How many of the instances are clients at node `r`. */
  ghost function Clients(hist: seq<Hist>, r: Role): nat
  {
    if hist == [] then 0
    else
      var h := hist[|hist| - 1];
      Clients(hist[..|hist| - 1], r) + if h.client && h.node == r then 1 else 0
  }

  /** The id of the client that comes after `n` others. */
  function IdAfter(n: nat): U16 { 1 + n % 65535 }

  lemma NextIdAfter(n: nat)
    ensures NextId(IdAfter(n)) == IdAfter(n + 1)
  {}

  /** Every client has the id and the local port that its place among its node's clients gives it. */
  ghost predicate Numbered(w: World)
  {
    && (forall r: Role :: w.At(r).nextSession == IdAfter(Clients(w.hist, r)))
    && (forall n :: 0 <= n < |w.hist| ==> IdOfPlace(w.hist, n))
  }

  ghost predicate IdOfPlace(hist: seq<Hist>, n: nat)
    requires n < |hist|
  {
    var h := hist[n];
    h.client ==> h.id == IdAfter(Clients(hist[..n], h.node)) && h.local == EPHEMERAL_BASE + h.id % 16384
  }

  lemma {:induction false} ClientsKept(hist: seq<Hist>, hist': seq<Hist>, r: Role)
    requires |hist| == |hist'| && forall i :: 0 <= i < |hist| ==> SameConn(hist[i], hist'[i])
    ensures Clients(hist', r) == Clients(hist, r)
    decreases |hist|
  {
    if hist == [] {
    } else {
      assert SameConn(hist[|hist| - 1], hist'[|hist| - 1]);
      ClientsKept(hist[..|hist| - 1], hist'[..|hist| - 1], r);
    }
  }

  lemma ClientsNext(hist: seq<Hist>, h: Hist, r: Role)
    ensures Clients(hist + [h], r) == Clients(hist, r) + if h.client && h.node == r then 1 else 0
  {
    assert (hist + [h])[..|hist|] == hist;
  }

  lemma PlaceKept(hist: seq<Hist>, hist': seq<Hist>, n: nat)
    requires n < |hist| <= |hist'| && IdOfPlace(hist, n)
    requires forall i :: 0 <= i < |hist| ==> SameConn(hist[i], hist'[i])
    ensures IdOfPlace(hist', n)
  {
    hide Clients, IdAfter;
    assert SameConn(hist[n], hist'[n]);
    ClientsKept(hist[..n], hist'[..n], hist[n].node);
  }

  /** The number of instances grows by at most one, and an id is used up exactly by a client. */
  lemma Opened(w: World, w': World, c: Call)
    requires Shape(w, w', c)
    ensures |w.hist| <= |w'.hist| <= |w.hist| + 1
    ensures |w'.hist| == |w.hist| ==> forall r: Role :: w'.At(r).nextSession == w.At(r).nextSession
    ensures |w'.hist| > |w.hist| ==> w'.hist[..|w.hist|] == w.hist
    ensures |w'.hist| > |w.hist| ==>
              var h := w'.hist[|w.hist|];
              && (h.client ==> h.id == w.At(h.node).nextSession && h.local == EPHEMERAL_BASE + h.id % 16384)
              && (forall r: Role :: w'.At(r).nextSession ==
                                    if h.client && h.node == r then NextId(w.At(r).nextSession)
                                    else w.At(r).nextSession)
  {
    hide Seals, Clip, NextId;
    if c.DoConnect? && w' != w {
      forall r: Role
        ensures w'.At(r).nextSession == if r == c.r then NextId(w.At(r).nextSession) else w.At(r).nextSession
      {
        assert r == c.r || r == Peer(c.r);
      }
    }
  }

  lemma StepNumbered(supply: seq<seq<byte>>, w: World, w': World, c: Call)
    requires Shape(w, w', c) && Extends(w, w') && Numbered(w)
    ensures Numbered(w')
  {
    hide Shape, Clients, IdAfter, NextId, SameConn, IdOfPlace;
    Opened(w, w', c);
    forall n | 0 <= n < |w.hist| ensures IdOfPlace(w'.hist, n) {
      assert IdOfPlace(w.hist, n);
      PlaceKept(w.hist, w'.hist, n);
    }
    if |w'.hist| == |w.hist| {
      forall r: Role ensures w'.At(r).nextSession == IdAfter(Clients(w'.hist, r)) {
        ClientsKept(w.hist, w'.hist, r);
      }
    } else {
      LastNumbered(w, w');
    }
  }

  lemma LastNumbered(w: World, w': World)
    requires Numbered(w) && |w'.hist| == |w.hist| + 1 && w'.hist[..|w.hist|] == w.hist
    requires var h := w'.hist[|w.hist|];
             && (h.client ==> h.id == w.At(h.node).nextSession && h.local == EPHEMERAL_BASE + h.id % 16384)
             && (forall r: Role :: w'.At(r).nextSession ==
                                   if h.client && h.node == r then NextId(w.At(r).nextSession) else w.At(r).nextSession)
    ensures IdOfPlace(w'.hist, |w.hist|) && forall r: Role :: w'.At(r).nextSession == IdAfter(Clients(w'.hist, r))
  {
    hide Clients, IdAfter, NextId;
    var h := w'.hist[|w.hist|];
    assert w'.hist == w.hist + [h];
    forall r: Role ensures w'.At(r).nextSession == IdAfter(Clients(w'.hist, r)) {
      ClientsNext(w.hist, h, r);
      NextIdAfter(Clients(w.hist, r));
    }
  }

  lemma StartNumbered()
    ensures Numbered(START)
  {}

  lemma {:induction false} RunNumbered(supply: seq<seq<byte>>, cs: seq<Call>)
    requires Fits(supply)
    ensures Numbered(Play(supply, START, cs))
    decreases |cs|
  {
    hide WorldInv, Step, Shape, Extends, Fits, Numbered;
    StartNumbered();
    if cs == [] {
    } else {
      var cs', c := cs[..|cs| - 1], cs[|cs| - 1];
      var w := Play(supply, START, cs');
      StartInv(supply);
      PlayKeeps(supply, START, cs');
      RunNumbered(supply, cs');
      StepShape(supply, w, c);
      StepKeeps(supply, w, c);
      StepNumbered(supply, w, Step(supply, w, c), c);
    }
  }

  /** In every run, two clients of a node have the same id exactly when a multiple of 65535 clients
      of that node lies between them; then they have the same local port too. */
  lemma IdsRepeatIff(supply: seq<seq<byte>>, cs: seq<Call>, m: nat, n: nat)
    requires Fits(supply) && m < n < |Play(supply, START, cs).hist|
    requires var hist := Play(supply, START, cs).hist; hist[m].client && hist[n].client && hist[m].node == hist[n].node
    ensures var hist := Play(supply, START, cs).hist; var r := hist[n].node;
            && (hist[m].id == hist[n].id <==> (Clients(hist[..n], r) - Clients(hist[..m], r)) % 65535 == 0)
            && (hist[m].id == hist[n].id ==> hist[m].local == hist[n].local)
  {
    hide *;
    RunNumbered(supply, cs);
    PlacesDecide(Play(supply, START, cs), m, n);
  }

  lemma PlacesDecide(w: World, m: nat, n: nat)
    requires Numbered(w) && m < n < |w.hist|
    requires w.hist[m].client && w.hist[n].client && w.hist[m].node == w.hist[n].node
    ensures var r := w.hist[n].node;
            && (w.hist[m].id == w.hist[n].id <==> (Clients(w.hist[..n], r) - Clients(w.hist[..m], r)) % 65535 == 0)
            && (w.hist[m].id == w.hist[n].id ==> w.hist[m].local == w.hist[n].local)
  {
    hide Clients, IdAfter;
    assert IdOfPlace(w.hist, m) && IdOfPlace(w.hist, n);
    SameIdIff(Clients(w.hist[..m], w.hist[n].node), Clients(w.hist[..n], w.hist[n].node));
  }

  lemma SameIdIff(a: nat, b: nat)
    ensures IdAfter(a) == IdAfter(b) <==> (b - a) % 65535 == 0
  {
    var p, q := a / 65535, b / 65535;
    assert a == 65535 * p + a % 65535 && b == 65535 * q + b % 65535;
    assert b - a == 65535 * (q - p) + (b % 65535 - a % 65535);
  }
}
