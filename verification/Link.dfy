/** Two nodes, one quantum link, one hostile channel.

    Both nodes draw key blocks from the same supply, each at its own pace; even blocks feed
    lane 0, odd blocks lane 1.  The channel remembers every record ever sealed and may deliver any
    of them, in any order, any number of times, or never.  A run is any sequence of events. */
module Link {
  import opened Wrappers
  import opened Bytes
  import opened KeyLane
  import opened Qtls

  datatype Role = A | B

  function Peer(r: Role): Role { if r == A then B else A }
  function TxLane(r: Role): nat { if r == A then 0 else 1 }
  function RxLane(r: Role): nat { 1 - TxLane(r) }

  /** Keys shared with the peer: a lane per direction, and how many blocks have been deposited. */
  datatype PeerKeys = PeerKeys(role: Role, lane0: Lane, lane1: Lane, blocks: nat)
  {
    function At(i: nat): Lane { if i == 0 then lane0 else lane1 }
    function With(i: nat, l: Lane): PeerKeys { if i == 0 then this.(lane0 := l) else this.(lane1 := l) }
    function Tx(): Lane { At(TxLane(role)) }
    function Rx(): Lane { At(RxLane(role)) }
  }

  /** The next block goes to the lane of its parity; a refused block leaves the lane as it was. */
  function DepositBlock(k: PeerKeys, block: seq<byte>): PeerKeys
  {
    var i := k.blocks % 2;
    var k' := k.(blocks := k.blocks + 1);
    match LaneDeposit(k.At(i), block)
    case Ok(l) => k'.With(i, l)
    case Err(_) => k'
  }

  function WipeKeys(k: PeerKeys): PeerKeys
  {
    k.(lane0 := Wipe(k.lane0), lane1 := Wipe(k.lane1))
  }

  datatype Sent = Sent(from: Role, hdr: Header, pt: seq<byte>, rec: seq<byte>)
  datatype Got = Got(node: Role, idx: nat, hdr: Header, pt: seq<byte>)

  datatype Sys = Sys(a: PeerKeys, b: PeerKeys, sent: seq<Sent>, got: seq<Got>)
  {
    function Keys(r: Role): PeerKeys { if r == A then a else b }
    function WithKeys(r: Role, k: PeerKeys): Sys { if r == A then this.(a := k) else this.(b := k) }
  }

  const INIT := Sys(PeerKeys(A, EMPTY, EMPTY, 0), PeerKeys(B, EMPTY, EMPTY, 0), [], [])

  datatype Event =
    | DepositAt(node: Role)
    | SealAt(node: Role, ctype: ContentType, sid: U16, pt: seq<byte>)
    | DeliverTo(node: Role, k: nat)
    | WipeAt(node: Role)

  function Next(supply: seq<seq<byte>>, s: Sys, e: Event): Sys
  {
    var keys := s.Keys(e.node);
    match e
    case DepositAt(r) =>
      if keys.blocks < |supply| then s.WithKeys(r, DepositBlock(keys, supply[keys.blocks])) else s
    case SealAt(r, ctype, sid, pt) =>
      (match SealLane(keys.Tx(), ctype, sid, pt, MAX_RECORD_LEN)
       case Err(_) => s
       case Ok(x) =>
         var hdr := Header(ctype, sid, keys.Tx().base, |pt|);
         s.WithKeys(r, keys.With(TxLane(r), x.lane)).(sent := s.sent + [Sent(r, hdr, pt, x.rec)]))
    case DeliverTo(r, k) =>
      if k >= |s.sent| || s.sent[k].from == r then s
      else (match OpenLane(keys.Rx(), s.sent[k].rec, MAX_PAYLOAD)
            case Err(_) => s
            case Ok(o) => s.WithKeys(r, keys.With(RxLane(r), o.lane)).(got := s.got + [Got(r, k, o.hdr, o.pt)]))
    case WipeAt(r) => s.WithKeys(r, WipeKeys(keys))
  }

  function Run(supply: seq<seq<byte>>, s: Sys, es: seq<Event>): Sys
  {
    if es == [] then s else Next(supply, Run(supply, s, es[..|es| - 1]), es[|es| - 1])
  }

  // ---------- the stream behind a lane ----------

  predicate Accepts(block: seq<byte>) { 0 < |block| <= CAPACITY }

  /** What the first `n` blocks of the supply put on lane `i`. */
  function Stream(supply: seq<seq<byte>>, n: nat, i: nat): seq<byte>
    requires n <= |supply|
  {
    if n == 0 then []
    else Stream(supply, n - 1, i) + if (n - 1) % 2 == i && Accepts(supply[n - 1]) then supply[n - 1] else []
  }

  function Whole(supply: seq<seq<byte>>, i: nat): seq<byte> { Stream(supply, |supply|, i) }

  /** The 64-bit offsets do not run out. */
  ghost predicate Fits(supply: seq<seq<byte>>)
  {
    |Whole(supply, 0)| < TWO64 && |Whole(supply, 1)| < TWO64
  }

  lemma {:induction false} StreamGrows(supply: seq<seq<byte>>, n: nat, m: nat, i: nat)
    requires n <= m <= |supply|
    ensures Stream(supply, n, i) <= Stream(supply, m, i)
    decreases m
  {
    if n < m { StreamGrows(supply, n, m - 1, i); }
  }

  // ---------- what every step keeps ----------

  function End(h: Header): nat { h.keyOffset + KeyCost(h.length) }

  ghost predicate KeysInv(supply: seq<seq<byte>>, k: PeerKeys, r: Role)
  {
    && k.role == r && k.blocks <= |supply|
    && Windows(k.lane0, Stream(supply, k.blocks, 0))
    && Windows(k.lane1, Stream(supply, k.blocks, 1))
  }

  /** A sent record is the sealing of its plaintext under the supply, at octets its sender has left behind. */
  ghost predicate SentInv(supply: seq<seq<byte>>, s: Sys, x: Sent)
  {
    var whole := Whole(supply, TxLane(x.from));
    && x.hdr.length == |x.pt| <= MAX_PAYLOAD
    && End(x.hdr) <= s.Keys(x.from).At(TxLane(x.from)).base <= |whole|
    && x.rec == RecordBytes(whole[x.hdr.keyOffset..End(x.hdr)], x.hdr, x.pt)
  }

  ghost predicate GotInv(s: Sys, g: Got)
  {
    && g.idx < |s.sent|
    && s.sent[g.idx].from == Peer(g.node) && s.sent[g.idx].hdr == g.hdr && s.sent[g.idx].pt == g.pt
    && End(g.hdr) <= s.Keys(g.node).At(RxLane(g.node)).base
  }

  ghost predicate SentOrdered(sent: seq<Sent>)
  {
    forall j, k :: 0 <= j < k < |sent| && sent[j].from == sent[k].from ==> End(sent[j].hdr) <= sent[k].hdr.keyOffset
  }

  ghost predicate GotOrdered(got: seq<Got>)
  {
    forall i, j :: 0 <= i < j < |got| && got[i].node == got[j].node ==>
      got[i].idx < got[j].idx && End(got[i].hdr) <= got[j].hdr.keyOffset
  }

  ghost predicate Inv(supply: seq<seq<byte>>, s: Sys)
  {
    && KeysInv(supply, s.a, A) && KeysInv(supply, s.b, B)
    && (forall k :: 0 <= k < |s.sent| ==> SentInv(supply, s, s.sent[k]))
    && (forall i :: 0 <= i < |s.got| ==> GotInv(s, s.got[i]))
    && SentOrdered(s.sent) && GotOrdered(s.got)
  }

  /** The window of a node's lane is also a window on the whole supply. */
  lemma LaneBelowWhole(supply: seq<seq<byte>>, k: PeerKeys, r: Role, i: nat)
    requires KeysInv(supply, k, r) && i <= 1
    ensures Windows(k.At(i), Stream(supply, k.blocks, i))
    ensures Stream(supply, k.blocks, i) <= Whole(supply, i)
  {
    StreamGrows(supply, k.blocks, |supply|, i);
  }

  /** Lanes may only move forward; records and acceptances stay valid when they do. */
  lemma KeysMayAdvance(supply: seq<seq<byte>>, s: Sys, r: Role, k: PeerKeys)
    requires Inv(supply, s) && KeysInv(supply, k, r)
    requires s.Keys(r).lane0.base <= k.lane0.base && s.Keys(r).lane1.base <= k.lane1.base
    ensures Inv(supply, s.WithKeys(r, k))
  {
    hide RecordBytes, Stream, Windows;
    var s' := s.WithKeys(r, k);
    BaseInWhole(supply, k, r);
    forall j | 0 <= j < |s.sent| ensures SentInv(supply, s', s.sent[j]) {
      assert SentInv(supply, s, s.sent[j]);
    }
    forall i | 0 <= i < |s.got| ensures GotInv(s', s.got[i]) {
      assert GotInv(s, s.got[i]);
    }
  }

  lemma BaseInWhole(supply: seq<seq<byte>>, k: PeerKeys, r: Role)
    requires KeysInv(supply, k, r)
    ensures k.lane0.base <= |Whole(supply, 0)| && k.lane1.base <= |Whole(supply, 1)|
  {
    LaneBelowWhole(supply, k, r, 0);
    LaneBelowWhole(supply, k, r, 1);
  }

  /** One deposited block is one more block of the stream, on its own lane only. */
  lemma DepositKeepsKeys(supply: seq<seq<byte>>, k: PeerKeys, r: Role)
    requires KeysInv(supply, k, r) && k.blocks < |supply|
    ensures var k' := DepositBlock(k, supply[k.blocks]);
            KeysInv(supply, k', r) && k.lane0.base <= k'.lane0.base && k.lane1.base <= k'.lane1.base
  {
    hide Windows;
    var block, i := supply[k.blocks], k.blocks % 2;
    if LaneDeposit(k.At(i), block).Ok? {
      DepositSlides(k.At(i), Stream(supply, k.blocks, i), block);
    }
    assert Stream(supply, k.blocks, 0) + [] == Stream(supply, k.blocks, 0);
    assert Stream(supply, k.blocks, 1) + [] == Stream(supply, k.blocks, 1);
  }

  lemma DepositKeepsInv(supply: seq<seq<byte>>, s: Sys, r: Role)
    requires Inv(supply, s)
    ensures Inv(supply, Next(supply, s, DepositAt(r)))
  {
    hide Inv, KeysInv, DepositBlock;
    var k := s.Keys(r);
    assert KeysInv(supply, k, r) by { KeysOf(supply, s, r); }
    if k.blocks < |supply| {
      DepositKeepsKeys(supply, k, r);
      KeysMayAdvance(supply, s, r, DepositBlock(k, supply[k.blocks]));
    }
  }

  lemma KeysOf(supply: seq<seq<byte>>, s: Sys, r: Role)
    requires Inv(supply, s)
    ensures KeysInv(supply, s.Keys(r), r)
  {}

  lemma WipeKeepsInv(supply: seq<seq<byte>>, s: Sys, r: Role)
    requires Inv(supply, s)
    ensures Inv(supply, Next(supply, s, WipeAt(r)))
  {
    var k := s.Keys(r);
    KeysOf(supply, s, r);
    assert KeysInv(supply, WipeKeys(k), r);
    hide Inv, KeysInv;
    KeysMayAdvance(supply, s, r, WipeKeys(k));
  }

  lemma SealOutcome(l: Lane, stream: seq<byte>, ctype: ContentType, sid: U16, pt: seq<byte>, room: nat)
    requires Windows(l, stream) && SealLane(l, ctype, sid, pt, room).Ok?
    ensures var x := SealLane(l, ctype, sid, pt, room).value; var h := Header(ctype, sid, l.base, |pt|);
            && |pt| <= MAX_PAYLOAD && End(h) <= |stream|
            && x.lane == Drop(l, KeyCost(|pt|)) && Windows(x.lane, stream) && x.lane.base == End(h)
            && x.rec == RecordBytes(stream[l.base..End(h)], h, pt)
  {
    hide RecordBytes;
    assert l.window[..KeyCost(|pt|)] == stream[l.base..l.base + KeyCost(|pt|)];
  }

  lemma SealKeepsInv(supply: seq<seq<byte>>, s: Sys, e: Event)
    requires Inv(supply, s) && e.SealAt?
    ensures Inv(supply, Next(supply, s, e))
  {
    hide RecordBytes, Stream, Windows, SealLane;
    var r, i, keys := e.node, TxLane(e.node), s.Keys(e.node);
    KeysOf(supply, s, r);
    if SealLane(keys.Tx(), e.ctype, e.sid, e.pt, MAX_RECORD_LEN).Ok? {
      var sealed := SealLane(keys.Tx(), e.ctype, e.sid, e.pt, MAX_RECORD_LEN).value;
      var stream, whole := Stream(supply, keys.blocks, i), Whole(supply, i);
      SealOutcome(keys.Tx(), stream, e.ctype, e.sid, e.pt, MAX_RECORD_LEN);
      var k' := keys.With(i, sealed.lane);
      assert KeysInv(supply, k', r);
      KeysMayAdvance(supply, s, r, k');
      var s1 := s.WithKeys(r, k');
      var x := Sent(r, Header(e.ctype, e.sid, keys.Tx().base, |e.pt|), e.pt, sealed.rec);
      LaneBelowWhole(supply, keys, r, i);
      assert stream[x.hdr.keyOffset..End(x.hdr)] == whole[x.hdr.keyOffset..End(x.hdr)];
      forall j | 0 <= j < |s.sent| && s.sent[j].from == r ensures End(s.sent[j].hdr) <= x.hdr.keyOffset {
        assert SentInv(supply, s, s.sent[j]);
      }
      AppendSentKeepsInv(supply, s1, x);
    }
  }

  lemma AppendSentKeepsInv(supply: seq<seq<byte>>, s: Sys, x: Sent)
    requires Inv(supply, s) && SentInv(supply, s, x)
    requires forall j :: 0 <= j < |s.sent| && s.sent[j].from == x.from ==> End(s.sent[j].hdr) <= x.hdr.keyOffset
    ensures Inv(supply, s.(sent := s.sent + [x]))
  {
    hide RecordBytes, Stream, Windows, KeysInv;
    var s' := s.(sent := s.sent + [x]);
    forall j | 0 <= j < |s'.sent| ensures SentInv(supply, s', s'.sent[j]) {
      if j < |s.sent| { assert SentInv(supply, s, s.sent[j]); }
    }
    forall i | 0 <= i < |s.got| ensures GotInv(s', s.got[i]) {
      assert GotInv(s, s.got[i]);
    }
  }

  lemma SentFacts(supply: seq<seq<byte>>, s: Sys, k: nat)
    requires Inv(supply, s) && k < |s.sent|
    ensures var x := s.sent[k]; var whole := Whole(supply, TxLane(x.from));
            && x.hdr.length == |x.pt| <= MAX_PAYLOAD
            && End(x.hdr) <= s.Keys(x.from).At(TxLane(x.from)).base <= |whole|
            && x.rec == RecordBytes(whole[x.hdr.keyOffset..End(x.hdr)], x.hdr, x.pt)
  {
    hide RecordBytes, Stream;
    assert SentInv(supply, s, s.sent[k]);
  }

  /** The three fates of a record delivered to keys `keys` at the other end. */
  lemma GenuineFate(supply: seq<seq<byte>>, keys: PeerKeys, r: Role, x: Sent)
    requires KeysInv(supply, keys, r) && Fits(supply) && x.from == Peer(r)
    requires x.hdr.length == |x.pt| <= MAX_PAYLOAD && End(x.hdr) <= |Whole(supply, TxLane(x.from))|
    requires x.rec == RecordBytes(Whole(supply, TxLane(x.from))[x.hdr.keyOffset..End(x.hdr)], x.hdr, x.pt)
    ensures OpenLane(keys.Rx(), x.rec, MAX_PAYLOAD) ==
              if x.hdr.keyOffset < keys.Rx().base then Err(KeyFault(AlreadyConsumed))
              else if End(x.hdr) > |Stream(supply, keys.blocks, RxLane(r))| then Err(KeyFault(InsufficientKey))
              else Ok(Opened(Drop(keys.Rx(), End(x.hdr) - keys.Rx().base), x.hdr, x.pt))
  {
    hide RecordBytes, Stream, OpenLane, Windows;
    LaneBelowWhole(supply, keys, r, RxLane(r));
    GenuineOutcome(keys.Rx(), Stream(supply, keys.blocks, RxLane(r)), Whole(supply, RxLane(r)), x.hdr, x.pt,
                   MAX_PAYLOAD);
  }

  lemma DeliverOutcome(supply: seq<seq<byte>>, s: Sys, r: Role, k: nat)
    requires Inv(supply, s) && Fits(supply) && k < |s.sent| && s.sent[k].from == Peer(r)
    ensures s.Keys(r).role == r && s.Keys(r).blocks <= |supply|
    ensures var rx := s.Keys(r).Rx(); var h := s.sent[k].hdr;
            OpenLane(rx, s.sent[k].rec, MAX_PAYLOAD) ==
              if h.keyOffset < rx.base then Err(KeyFault(AlreadyConsumed))
              else if End(h) > |Stream(supply, s.Keys(r).blocks, RxLane(r))| then Err(KeyFault(InsufficientKey))
              else Ok(Opened(Drop(rx, End(h) - rx.base), h, s.sent[k].pt))
  {
    hide RecordBytes, OpenLane, Inv, Windows, Stream;
    KeysOf(supply, s, r);
    SentFacts(supply, s, k);
    GenuineFate(supply, s.Keys(r), r, s.sent[k]);
  }

  lemma DeliverKeepsInv(supply: seq<seq<byte>>, s: Sys, r: Role, k: nat)
    requires Inv(supply, s) && Fits(supply)
    ensures Inv(supply, Next(supply, s, DeliverTo(r, k)))
  {
    hide RecordBytes, Stream, Windows, OpenLane;
    if k < |s.sent| && s.sent[k].from == Peer(r) {
      var keys, i := s.Keys(r), RxLane(r);
      DeliverOutcome(supply, s, r, k);
      KeysOf(supply, s, r);
      var o := OpenLane(keys.Rx(), s.sent[k].rec, MAX_PAYLOAD);
      if o.Ok? {
        WindowsDrop(supply, keys, r, i, End(s.sent[k].hdr));
        var k' := keys.With(i, o.value.lane);
        KeysMayAdvance(supply, s, r, k');
        var g := Got(r, k, s.sent[k].hdr, s.sent[k].pt);
        forall j | 0 <= j < |s.got| && s.got[j].node == r
          ensures s.got[j].idx < k && End(s.got[j].hdr) <= g.hdr.keyOffset
        {
          assert GotInv(s, s.got[j]);
        }
        AppendGotKeepsInv(supply, s.WithKeys(r, k'), g);
      }
    }
  }

  lemma WindowsDrop(supply: seq<seq<byte>>, keys: PeerKeys, r: Role, i: nat, end: nat)
    requires KeysInv(supply, keys, r) && i <= 1
    requires keys.At(i).base <= end <= |Stream(supply, keys.blocks, i)|
    ensures end - keys.At(i).base <= |keys.At(i).window|
    ensures KeysInv(supply, keys.With(i, Drop(keys.At(i), end - keys.At(i).base)), r)
  {
    hide Stream;
    DropKeepsWindow(keys.At(i), Stream(supply, keys.blocks, i), end - keys.At(i).base);
  }

  lemma AppendGotKeepsInv(supply: seq<seq<byte>>, s: Sys, g: Got)
    requires Inv(supply, s) && GotInv(s, g)
    requires forall j :: 0 <= j < |s.got| && s.got[j].node == g.node ==>
               s.got[j].idx < g.idx && End(s.got[j].hdr) <= g.hdr.keyOffset
    ensures Inv(supply, s.(got := s.got + [g]))
  {
    hide RecordBytes, Stream, Windows, KeysInv;
    var s' := s.(got := s.got + [g]);
    forall j | 0 <= j < |s.sent| ensures SentInv(supply, s', s.sent[j]) {
      assert SentInv(supply, s, s.sent[j]);
    }
    forall i | 0 <= i < |s'.got| ensures GotInv(s', s'.got[i]) {
      if i < |s.got| { assert GotInv(s, s.got[i]); }
    }
  }

  lemma StepKeepsInv(supply: seq<seq<byte>>, s: Sys, e: Event)
    requires Inv(supply, s) && Fits(supply)
    ensures Inv(supply, Next(supply, s, e))
  {
    hide Inv, Next;
    match e
    case DepositAt(r) => DepositKeepsInv(supply, s, r);
    case SealAt(_, _, _, _) => SealKeepsInv(supply, s, e);
    case DeliverTo(r, k) => DeliverKeepsInv(supply, s, r, k);
    case WipeAt(r) => WipeKeepsInv(supply, s, r);
  }

  lemma {:induction false} RunKeepsInv(supply: seq<seq<byte>>, s: Sys, es: seq<Event>)
    requires Inv(supply, s) && Fits(supply)
    ensures Inv(supply, Run(supply, s, es))
    decreases |es|
  {
    hide Inv, Next;
    if es != [] {
      RunKeepsInv(supply, s, es[..|es| - 1]);
      StepKeepsInv(supply, Run(supply, s, es[..|es| - 1]), es[|es| - 1]);
    }
  }

  lemma Reachable(supply: seq<seq<byte>>, es: seq<Event>)
    requires Fits(supply)
    ensures Inv(supply, Run(supply, INIT, es))
  {
    hide Next;
    RunKeepsInv(supply, INIT, es);
  }

  // ---------- safety over whole runs ----------

  /** Whatever the channel does and however the deposits are interleaved or wiped: the records a
      node accepts have strictly increasing offsets, none is accepted twice, and each yields
      the type, session and plaintext its peer sealed. */
  lemma AcceptedInOrderAndIntact(supply: seq<seq<byte>>, es: seq<Event>)
    requires Fits(supply)
    ensures var s := Run(supply, INIT, es);
            && (forall i :: 0 <= i < |s.got| ==>
                  && s.got[i].idx < |s.sent| && s.sent[s.got[i].idx].from == Peer(s.got[i].node)
                  && s.got[i].hdr == s.sent[s.got[i].idx].hdr && s.got[i].pt == s.sent[s.got[i].idx].pt)
            && (forall i, j :: 0 <= i < j < |s.got| && s.got[i].node == s.got[j].node ==>
                  s.got[i].hdr.keyOffset < s.got[j].hdr.keyOffset && s.got[i].idx < s.got[j].idx)
  {
    hide Run, KeysInv, SentInv, INIT;
    Reachable(supply, es);
    var s := Run(supply, INIT, es);
    forall i | 0 <= i < |s.got|
      ensures s.got[i].idx < |s.sent| && s.sent[s.got[i].idx].from == Peer(s.got[i].node)
           && s.got[i].hdr == s.sent[s.got[i].idx].hdr && s.got[i].pt == s.sent[s.got[i].idx].pt
    {
      assert GotInv(s, s.got[i]);
    }
  }

  predicate Covers(x: Sent, lane: nat, offset: nat)
  {
    TxLane(x.from) == lane && x.hdr.keyOffset <= offset < End(x.hdr)
  }

  /** No key octet protects two records, in either direction, in any run. */
  lemma KeyOctetsUsedOnce(supply: seq<seq<byte>>, es: seq<Event>, lane: nat, offset: nat, j: nat, k: nat)
    requires Fits(supply)
    requires var s := Run(supply, INIT, es);
             j < |s.sent| && k < |s.sent| && Covers(s.sent[j], lane, offset) && Covers(s.sent[k], lane, offset)
    ensures j == k
  {
    hide Run, KeysInv, SentInv, GotInv, INIT;
    Reachable(supply, es);
  }

  // ---------- resynchronisation ----------

  predicate NoWipe(es: seq<Event>) { forall i :: 0 <= i < |es| ==> !es[i].WipeAt? }

  function Max(x: int, y: int): int { if x < y then y else x }

  /** End of the last record that node `r` has accepted. */
  function LastEnd(got: seq<Got>, r: Role): nat
  {
    if got == [] then 0
    else if got[|got| - 1].node == r then End(got[|got| - 1].hdr)
    else LastEnd(got[..|got| - 1], r)
  }

  /** Without wipes the receive window starts after the last accepted record, or where the
      capacity of the lane has pushed it: nothing else moves it. */
  ghost predicate StartsAt(supply: seq<seq<byte>>, k: PeerKeys, i: nat, end: nat)
    requires k.blocks <= |supply|
  {
    k.At(i).base == Max(end, |Stream(supply, k.blocks, i)| - CAPACITY)
  }

  ghost predicate BaseInv(supply: seq<seq<byte>>, s: Sys)
    requires s.a.blocks <= |supply| && s.b.blocks <= |supply|
  {
    StartsAt(supply, s.a, RxLane(A), LastEnd(s.got, A)) && StartsAt(supply, s.b, RxLane(B), LastEnd(s.got, B))
  }

  lemma InvBlocks(supply: seq<seq<byte>>, s: Sys)
    requires Inv(supply, s)
    ensures s.a.blocks <= |supply| && s.b.blocks <= |supply| && s.a.role == A && s.b.role == B
  {}

  lemma DepositKeepsStart(supply: seq<seq<byte>>, k: PeerKeys, r: Role, i: nat, end: nat)
    requires KeysInv(supply, k, r) && i <= 1 && k.blocks < |supply| && StartsAt(supply, k, i, end)
    ensures DepositBlock(k, supply[k.blocks]).blocks == k.blocks + 1
    ensures StartsAt(supply, DepositBlock(k, supply[k.blocks]), i, end)
  {
    hide Windows;
    var block := supply[k.blocks];
    if k.blocks % 2 == i {
      if LaneDeposit(k.At(i), block).Ok? {
        DepositSlides(k.At(i), Stream(supply, k.blocks, i), block);
      }
    }
  }

  lemma RxEnd(supply: seq<seq<byte>>, s: Sys, r: Role)
    requires Inv(supply, s)
    ensures s.Keys(r).blocks <= |supply|
    ensures s.Keys(r).Rx().base + |s.Keys(r).Rx().window| == |Stream(supply, s.Keys(r).blocks, RxLane(r))|
  {
    KeysOf(supply, s, r);
  }

  lemma DepositKeepsBase(supply: seq<seq<byte>>, s: Sys, r: Role)
    requires Inv(supply, s) && s.a.blocks <= |supply| && s.b.blocks <= |supply| && BaseInv(supply, s)
    ensures var s' := Next(supply, s, DepositAt(r));
            s'.a.blocks <= |supply| && s'.b.blocks <= |supply| && BaseInv(supply, s')
  {
    KeysOf(supply, s, r);
    hide Inv, KeysInv, DepositBlock, StartsAt;
    if s.Keys(r).blocks < |supply| {
      DepositKeepsStart(supply, s.Keys(r), r, RxLane(r), LastEnd(s.got, r));
    }
  }

  lemma DropMovesStart(supply: seq<seq<byte>>, k: PeerKeys, i: nat, end: nat, end': nat)
    requires i <= 1 && k.blocks <= |supply| && StartsAt(supply, k, i, end)
    requires k.At(i).base <= end' <= k.At(i).base + |k.At(i).window|
    ensures StartsAt(supply, k.With(i, Drop(k.At(i), end' - k.At(i).base)), i, end')
  {
    hide Stream;
  }

  lemma DeliverKeepsBase(supply: seq<seq<byte>>, s: Sys, r: Role, k: nat)
    requires Inv(supply, s) && Fits(supply) && s.a.blocks <= |supply| && s.b.blocks <= |supply| && BaseInv(supply, s)
    ensures var s' := Next(supply, s, DeliverTo(r, k));
            s'.a.blocks <= |supply| && s'.b.blocks <= |supply| && BaseInv(supply, s')
  {
    hide Inv, KeysInv, OpenLane, Stream, StartsAt, Fits, LastEnd, Drop;
    if k < |s.sent| && s.sent[k].from == Peer(r) {
      var keys, h := s.Keys(r), s.sent[k].hdr;
      InvBlocks(supply, s);
      DeliverOutcome(supply, s, r, k);
      RxEnd(supply, s, r);
      var o := OpenLane(keys.Rx(), s.sent[k].rec, MAX_PAYLOAD);
      if o.Ok? {
        DropMovesStart(supply, keys, RxLane(r), LastEnd(s.got, r), End(h));
        LastEndNext(s.got, Got(r, k, h, s.sent[k].pt));
      }
    }
  }

  lemma LastEndNext(got: seq<Got>, g: Got)
    ensures LastEnd(got + [g], g.node) == End(g.hdr) && LastEnd(got + [g], Peer(g.node)) == LastEnd(got, Peer(g.node))
  {
    assert (got + [g])[..|got|] == got;
  }

  lemma SealKeepsBase(supply: seq<seq<byte>>, s: Sys, e: Event)
    requires e.SealAt? && s.a.role == A && s.b.role == B
    requires s.a.blocks <= |supply| && s.b.blocks <= |supply| && BaseInv(supply, s)
    ensures var s' := Next(supply, s, e);
            s'.a.blocks <= |supply| && s'.b.blocks <= |supply| && BaseInv(supply, s')
  {
    hide SealLane, Stream;
  }

  lemma StepKeepsBase(supply: seq<seq<byte>>, s: Sys, e: Event)
    requires Inv(supply, s) && Fits(supply) && !e.WipeAt?
    requires s.a.blocks <= |supply| && s.b.blocks <= |supply| && BaseInv(supply, s)
    ensures var s' := Next(supply, s, e);
            s'.a.blocks <= |supply| && s'.b.blocks <= |supply| && BaseInv(supply, s')
  {
    hide *;
    InvBlocks(supply, s);
    match e
    case DepositAt(r) => DepositKeepsBase(supply, s, r);
    case SealAt(_, _, _, _) => SealKeepsBase(supply, s, e);
    case DeliverTo(r, k) => DeliverKeepsBase(supply, s, r, k);
  }

  lemma {:induction false} RunKeepsBase(supply: seq<seq<byte>>, s: Sys, es: seq<Event>)
    requires Inv(supply, s) && Fits(supply) && NoWipe(es)
    requires s.a.blocks <= |supply| && s.b.blocks <= |supply| && BaseInv(supply, s)
    ensures var s' := Run(supply, s, es);
            s'.a.blocks <= |supply| && s'.b.blocks <= |supply| && BaseInv(supply, s')
    decreases |es|
  {
    hide Inv, Next, BaseInv;
    if es != [] {
      var es' := es[..|es| - 1];
      RunKeepsBase(supply, s, es');
      RunKeepsInv(supply, s, es');
      StepKeepsBase(supply, Run(supply, s, es'), es[|es| - 1]);
    }
  }

  /** In every run without wipes, loss, duplication, reordering and unequal deposits included, a
      delivered record opens exactly when it lies after everything its receiver has accepted, the
      lane's capacity has not pushed it out, and its key has arrived. */
  lemma DeliveryOpensIff(supply: seq<seq<byte>>, es: seq<Event>, r: Role, k: nat)
    requires Fits(supply) && NoWipe(es)
    requires k < |Run(supply, INIT, es).sent| && Run(supply, INIT, es).sent[k].from == Peer(r)
    ensures Run(supply, INIT, es).a.blocks <= |supply| && Run(supply, INIT, es).b.blocks <= |supply|
    ensures var s := Run(supply, INIT, es);
            if InWindow(supply, s, r, s.sent[k].hdr)
            then Next(supply, s, DeliverTo(r, k)).got == s.got + [Got(r, k, s.sent[k].hdr, s.sent[k].pt)]
            else Next(supply, s, DeliverTo(r, k)) == s
  {
    ReachableBase(supply, es);
    hide *;
    OpensIff(supply, Run(supply, INIT, es), r, k);
  }

  ghost predicate InWindow(supply: seq<seq<byte>>, s: Sys, r: Role, h: Header)
    requires s.Keys(r).blocks <= |supply|
  {
    var arrived := |Stream(supply, s.Keys(r).blocks, RxLane(r))|;
    LastEnd(s.got, r) <= h.keyOffset && arrived - CAPACITY <= h.keyOffset && End(h) <= arrived
  }

  lemma OpensIff(supply: seq<seq<byte>>, s: Sys, r: Role, k: nat)
    requires Inv(supply, s) && Fits(supply) && s.a.blocks <= |supply| && s.b.blocks <= |supply| && BaseInv(supply, s)
    requires k < |s.sent| && s.sent[k].from == Peer(r)
    ensures if InWindow(supply, s, r, s.sent[k].hdr)
            then Next(supply, s, DeliverTo(r, k)).got == s.got + [Got(r, k, s.sent[k].hdr, s.sent[k].pt)]
            else Next(supply, s, DeliverTo(r, k)) == s
  {
    hide Inv, OpenLane, Stream, Fits;
    DeliverOutcome(supply, s, r, k);
  }

  lemma ReachableBase(supply: seq<seq<byte>>, es: seq<Event>)
    requires Fits(supply) && NoWipe(es)
    ensures var s := Run(supply, INIT, es);
            Inv(supply, s) && s.a.blocks <= |supply| && s.b.blocks <= |supply| && BaseInv(supply, s)
  {
    hide Next;
    RunKeepsInv(supply, INIT, es);
    RunKeepsBase(supply, INIT, es);
  }

  /** FIX-4: as long as the receiver has not been given more blocks than the sender, its window
      never starts beyond the sender's, however many records were lost. */
  lemma ReceiverNeverAhead(supply: seq<seq<byte>>, es: seq<Event>, r: Role)
    requires Fits(supply) && NoWipe(es)
    requires Run(supply, INIT, es).Keys(r).blocks <= Run(supply, INIT, es).Keys(Peer(r)).blocks
    ensures Run(supply, INIT, es).Keys(r).Rx().base <= Run(supply, INIT, es).Keys(Peer(r)).Tx().base
  {
    var s := Run(supply, INIT, es);
    ReachableBase(supply, es);
    hide Run, NoWipe, Fits;
    NeverAhead(supply, s, r);
  }

  lemma NeverAhead(supply: seq<seq<byte>>, s: Sys, r: Role)
    requires Inv(supply, s) && s.a.blocks <= |supply| && s.b.blocks <= |supply| && BaseInv(supply, s)
    requires s.Keys(r).blocks <= s.Keys(Peer(r)).blocks
    ensures s.Keys(r).Rx().base <= s.Keys(Peer(r)).Tx().base
    ensures LastEnd(s.got, r) <= s.Keys(Peer(r)).Tx().base
  {
    var q := Peer(r);
    KeysOf(supply, s, q);
    KeysOf(supply, s, r);
    StreamGrows(supply, s.Keys(r).blocks, s.Keys(q).blocks, RxLane(r));
    LastEndBelowSender(supply, s, r, |s.got|);
    assert s.got[..|s.got|] == s.got;
  }

  lemma {:induction false} LastEndBelowSender(supply: seq<seq<byte>>, s: Sys, r: Role, n: nat)
    requires Inv(supply, s) && n <= |s.got|
    ensures LastEnd(s.got[..n], r) <= s.Keys(Peer(r)).At(TxLane(Peer(r))).base
  {
    hide RecordBytes, Stream, Windows;
    if n > 0 {
      assert s.got[..n][..n - 1] == s.got[..n - 1];
      LastEndBelowSender(supply, s, r, n - 1);
      assert GotInv(s, s.got[n - 1]);
      if s.got[n - 1].node == r {
        assert SentInv(supply, s, s.sent[s.got[n - 1].idx]);
      }
    }
  }

  /** Anything may happen between sealing record `k` and delivering it to `r`, except that `r` gets no
      new key block and no later record. */
  predicate Quiet(es: seq<Event>, r: Role, k: nat)
  {
    forall i :: 0 <= i < |es| ==>
      !es[i].WipeAt? && es[i] != DepositAt(r) && !(es[i].DeliverTo? && es[i].node == r && es[i].k >= k)
  }

  /** Record `k` is still ahead of everything its receiver `r` has accepted. */
  ghost predicate Ahead(s: Sys, r: Role, k: nat, x: Sent, blocks: nat)
  {
    k < |s.sent| && s.sent[k] == x && x.from == Peer(r) && s.Keys(r).blocks == blocks
    && LastEnd(s.got, r) <= x.hdr.keyOffset
  }

  lemma StepKeepsAhead(supply: seq<seq<byte>>, s: Sys, e: Event, r: Role, k: nat, x: Sent, blocks: nat)
    requires Inv(supply, s) && Fits(supply) && Ahead(s, r, k, x, blocks) && Quiet([e], r, k)
    ensures Ahead(Next(supply, s, e), r, k, x, blocks)
  {
    hide SealLane, OpenLane, KeysInv, SentInv, GotInv, LaneDeposit;
    assert !(([e])[0].WipeAt?) && [e][0] == e;
    if e.DeliverTo? && e.k < |s.sent| && s.sent[e.k].from == Peer(e.node) {
      DeliverOutcome(supply, s, e.node, e.k);
      var got' := s.got + [Got(e.node, e.k, s.sent[e.k].hdr, s.sent[e.k].pt)];
      assert got'[..|got'| - 1] == s.got;
    }
  }

  lemma {:induction false} RunKeepsAhead(supply: seq<seq<byte>>, s: Sys, es: seq<Event>, r: Role, k: nat, x: Sent,
                                         blocks: nat)
    requires Inv(supply, s) && Fits(supply) && Ahead(s, r, k, x, blocks) && Quiet(es, r, k)
    ensures Ahead(Run(supply, s, es), r, k, x, blocks)
    decreases |es|
  {
    hide Inv, Next, Ahead;
    if es != [] {
      var es' := es[..|es| - 1];
      RunKeepsAhead(supply, s, es', r, k, x, blocks);
      RunKeepsInv(supply, s, es');
      StepKeepsAhead(supply, Run(supply, s, es'), es[|es| - 1], r, k, x, blocks);
    }
  }

  /** FIX-4: once both ends hold the same number of blocks, a freshly sealed record opens when it is
      delivered before the receiver's next block or any later record, whatever was lost before. */
  lemma FreshRecordOpens(supply: seq<seq<byte>>, es: seq<Event>, r: Role, ctype: ContentType, sid: U16,
                         pt: seq<byte>, es': seq<Event>)
    requires Fits(supply) && NoWipe(es)
    requires var s := Run(supply, INIT, es);
             && s.Keys(r).blocks == s.Keys(Peer(r)).blocks
             && |Next(supply, s, SealAt(Peer(r), ctype, sid, pt)).sent| == |s.sent| + 1
             && Quiet(es', r, |s.sent|)
    ensures var s := Run(supply, INIT, es);
            var s' := Run(supply, Next(supply, s, SealAt(Peer(r), ctype, sid, pt)), es');
            && |s'.sent| > |s.sent|
            && var h := s'.sent[|s.sent|].hdr;
               && h.ctype == ctype && h.sessionId == sid
               && Next(supply, s', DeliverTo(r, |s.sent|)).got == s'.got + [Got(r, |s.sent|, h, pt)]
  {
    ReachableBase(supply, es);
    hide *;
    FreshOpensFrom(supply, Run(supply, INIT, es), r, ctype, sid, pt, es');
  }

  lemma FreshOpensFrom(supply: seq<seq<byte>>, s: Sys, r: Role, ctype: ContentType, sid: U16, pt: seq<byte>,
                       es': seq<Event>)
    requires Fits(supply)
    requires Inv(supply, s) && s.a.blocks <= |supply| && s.b.blocks <= |supply| && BaseInv(supply, s)
    requires s.Keys(r).blocks == s.Keys(Peer(r)).blocks
    requires |Next(supply, s, SealAt(Peer(r), ctype, sid, pt)).sent| == |s.sent| + 1 && Quiet(es', r, |s.sent|)
    ensures var s' := Run(supply, Next(supply, s, SealAt(Peer(r), ctype, sid, pt)), es');
            && |s'.sent| > |s.sent|
            && var h := s'.sent[|s.sent|].hdr;
               && h.ctype == ctype && h.sessionId == sid
               && Next(supply, s', DeliverTo(r, |s.sent|)).got == s'.got + [Got(r, |s.sent|, h, pt)]
  {
    hide Inv, Next, BaseInv, Fits, Run, Stream;
    var k, e := |s.sent|, SealAt(Peer(r), ctype, sid, pt);
    var s1 := Next(supply, s, e);
    var x := s1.sent[k];
    FreshRecord(supply, s, r, ctype, sid, pt);
    StepKeepsInv(supply, s, e);
    StepKeepsBase(supply, s, e);
    RunKeepsInv(supply, s1, es');
    RunKeepsAhead(supply, s1, es', r, k, x, s.Keys(r).blocks);
    assert NoWipe(es');
    RunKeepsBase(supply, s1, es');
    OpensIff(supply, Run(supply, s1, es'), r, k);
  }

  lemma SealedRecord(supply: seq<seq<byte>>, s: Sys, q: Role, ctype: ContentType, sid: U16, pt: seq<byte>)
    requires Inv(supply, s) && |Next(supply, s, SealAt(q, ctype, sid, pt)).sent| == |s.sent| + 1
    ensures var s1 := Next(supply, s, SealAt(q, ctype, sid, pt)); var x := s1.sent[|s.sent|];
            && x.hdr.ctype == ctype && x.hdr.sessionId == sid && x.pt == pt && x.from == q
            && s1.got == s.got && s1.Keys(Peer(q)) == s.Keys(Peer(q))
            && x.hdr.keyOffset == s.Keys(q).Tx().base && End(x.hdr) <= s.Keys(q).Tx().base + |s.Keys(q).Tx().window|
  {
    hide Inv, RecordBytes;
    KeysOf(supply, s, q);
    hide KeysInv;
  }

  /** A record sealed while both ends hold the same blocks is inside the receiver's window. */
  lemma FreshRecord(supply: seq<seq<byte>>, s: Sys, r: Role, ctype: ContentType, sid: U16, pt: seq<byte>)
    requires Inv(supply, s) && s.a.blocks <= |supply| && s.b.blocks <= |supply| && BaseInv(supply, s)
    requires s.Keys(r).blocks == s.Keys(Peer(r)).blocks
    requires |Next(supply, s, SealAt(Peer(r), ctype, sid, pt)).sent| == |s.sent| + 1
    ensures var s1 := Next(supply, s, SealAt(Peer(r), ctype, sid, pt)); var x := s1.sent[|s.sent|];
            && x.hdr.ctype == ctype && x.hdr.sessionId == sid && x.pt == pt
            && Ahead(s1, r, |s.sent|, x, s.Keys(r).blocks)
            && InWindow(supply, s, r, x.hdr)
  {
    hide Inv, Next, BaseInv, Stream, LastEnd, SealLane, Windows, KeysInv, StartsAt;
    var q := Peer(r);
    NeverAhead(supply, s, r);
    SealedRecord(supply, s, q, ctype, sid, pt);
    TxEnd(supply, s, q);
    assert |s.Keys(q).Tx().window| <= CAPACITY;
  }

  lemma TxEnd(supply: seq<seq<byte>>, s: Sys, r: Role)
    requires Inv(supply, s)
    ensures s.Keys(r).blocks <= |supply|
    ensures s.Keys(r).Tx().base + |s.Keys(r).Tx().window| == |Stream(supply, s.Keys(r).blocks, TxLane(r))|
  {
    KeysOf(supply, s, r);
  }

  // ---------- lockstep ----------

  /** Both ends deposit each block together; everything else is as before. */
  datatype LockstepEvent = Both | Single(e: Event)

  function LockstepRun(supply: seq<seq<byte>>, s: Sys, es: seq<LockstepEvent>): Sys
  {
    if es == [] then s
    else
      var s' := LockstepRun(supply, s, es[..|es| - 1]);
      match es[|es| - 1]
      case Both => Next(supply, Next(supply, s', DepositAt(A)), DepositAt(B))
      case Single(e) => Next(supply, s', e)
  }

  ghost predicate Lockstep(es: seq<LockstepEvent>)
  {
    forall i :: 0 <= i < |es| && es[i].Single? ==> !es[i].e.DepositAt? && !es[i].e.WipeAt?
  }

  ghost predicate Level(supply: seq<seq<byte>>, s: Sys)
  {
    Inv(supply, s) && s.a.blocks == s.b.blocks <= |supply| && BaseInv(supply, s)
  }

  lemma StepKeepsBlocks(supply: seq<seq<byte>>, s: Sys, e: Event)
    requires s.a.role == A && s.b.role == B
    ensures var s' := Next(supply, s, e); var n := s.Keys(e.node).blocks;
            && s'.Keys(e.node).blocks == (if e.DepositAt? && n < |supply| then n + 1 else n)
            && s'.Keys(Peer(e.node)).blocks == s.Keys(Peer(e.node)).blocks
  {
    hide SealLane, OpenLane, LaneDeposit;
  }

  lemma {:induction false} LockstepStaysLevel(supply: seq<seq<byte>>, s: Sys, es: seq<LockstepEvent>)
    requires Level(supply, s) && Fits(supply) && Lockstep(es)
    ensures Level(supply, LockstepRun(supply, s, es))
    decreases |es|
  {
    hide Inv, Next, BaseInv, Fits;
    if es != [] {
      var s' := LockstepRun(supply, s, es[..|es| - 1]);
      LockstepStaysLevel(supply, s, es[..|es| - 1]);
      InvBlocks(supply, s');
      match es[|es| - 1]
      case Both =>
        var s1 := Next(supply, s', DepositAt(A));
        StepKeepsInv(supply, s', DepositAt(A));
        StepKeepsBase(supply, s', DepositAt(A));
        StepKeepsBlocks(supply, s', DepositAt(A));
        InvBlocks(supply, s1);
        StepKeepsInv(supply, s1, DepositAt(B));
        StepKeepsBase(supply, s1, DepositAt(B));
        StepKeepsBlocks(supply, s1, DepositAt(B));
      case Single(e) =>
        StepKeepsInv(supply, s', e);
        StepKeepsBase(supply, s', e);
        StepKeepsBlocks(supply, s', e);
    }
  }

  /** The claim of FIX-4: with deposits in lockstep no receive window ever starts beyond the peer's
      send window, whatever is lost, duplicated or reordered. */
  lemma LockstepNeverOvertakes(supply: seq<seq<byte>>, es: seq<LockstepEvent>, r: Role)
    requires Fits(supply) && Lockstep(es)
    ensures var s := LockstepRun(supply, INIT, es); s.Keys(r).Rx().base <= s.Keys(Peer(r)).Tx().base
  {
    assert Level(supply, INIT);
    LockstepStaysLevel(supply, INIT, es);
    NeverAhead(supply, LockstepRun(supply, INIT, es), r);
  }
}
