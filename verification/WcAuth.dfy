/** Word-count authenticated sessions: each message is sealed under a key derived from a counter
    that advances by the length of the message in words. */
module WcAuth {
  import opened Wrappers
  import opened Bits
  import opened Bytes
  import PolyField
  import Poly1305

  const MAR_HEADER_LEN: nat := 28
  const MAX_MSG_LEN: nat := 65536
  const KEY_LEN: nat := 32
  const TAG_LEN: nat := 16

  type Key = k: seq<byte> | |k| == KEY_LEN witness Zeros(KEY_LEN)

  datatype WcError =
    TagMismatch | WordCountMismatch | MessageTooLong | InvalidMar | EmptyMessage | InvalidKey | WordCountOverflow

  // ---------- the message format ----------

  datatype Mar = Mar(wordCount: U64, msgLen: U32, tag: seq<byte>, payload: seq<byte>)

  function MarBytes(m: Mar): (b: seq<byte>)
    ensures |b| == 12 + |m.tag| + |m.payload|
  {
    ToLE(m.wordCount, 8) + ToLE(m.msgLen, 4) + m.tag + m.payload
  }

  function ParseMar(raw: seq<byte>): Result<Mar, WcError>
  {
    if |raw| < MAR_HEADER_LEN then Err(InvalidMar)
    else
      var len := Le32(raw[8..12]);
      if |raw| < MAR_HEADER_LEN + len then Err(InvalidMar)
      else Ok(Mar(Le64(raw[0..8]), len, raw[12..28], raw[28..28 + len]))
  }

  /** Parsing undoes printing, whatever follows the message. */
  lemma MarRoundTrip(m: Mar, trailer: seq<byte>)
    requires |m.tag| == TAG_LEN && |m.payload| == m.msgLen
    ensures ParseMar(MarBytes(m) + trailer) == Ok(m)
  {
    hide ToLE, LE, Pow2;
    Pow2Words();
    LEOfToLE(m.wordCount, 8);
    LEOfToLE(m.msgLen, 4);
    var raw := MarBytes(m) + trailer;
    assert raw[0..8] == ToLE(m.wordCount, 8) && raw[8..12] == ToLE(m.msgLen, 4);
    assert raw[12..28] == m.tag && raw[28..28 + m.msgLen] == m.payload;
  }

  /** Exactly the octet strings that start with a printed message parse to it. */
  lemma ParseMarIff(raw: seq<byte>, m: Mar)
    ensures ParseMar(raw) == Ok(m) <==> |m.tag| == 16 && |m.payload| == m.msgLen && MarBytes(m) <= raw
  {
    hide ToLE, LE, Pow2, ParseMar;
    if |m.tag| == 16 && |m.payload| == m.msgLen && MarBytes(m) <= raw {
      MarRoundTrip(m, raw[|MarBytes(m)|..]);
      assert MarBytes(m) + raw[|MarBytes(m)|..] == raw;
    }
    if ParseMar(raw) == Ok(m) { ParsedMar(raw, m); }
  }

  lemma ParsedMar(raw: seq<byte>, m: Mar)
    requires ParseMar(raw) == Ok(m)
    ensures |m.tag| == 16 && |m.payload| == m.msgLen && MarBytes(m) <= raw
  {
    hide ToLE, LE, Pow2;
    ToLEOfLE(raw[0..8]);
    ToLEOfLE(raw[8..12]);
    assert raw[..28 + m.msgLen] == raw[0..8] + raw[8..12] + raw[12..28] + raw[28..28 + m.msgLen];
  }

  // ---------- keys and tags ----------

  /** The two ASCII labels of the key derivation. */
  const LABEL_R: seq<byte> := [113, 108, 105, 110, 117, 120, 45, 119, 99, 45, 97, 117, 116, 104, 45, 118, 49, 45, 114]
  const LABEL_S: seq<byte> := [113, 108, 105, 110, 117, 120, 45, 119, 99, 45, 97, 117, 116, 104, 45, 118, 49, 45, 115]

  function Subkey(master: Key, wc: U64): Key
  {
    PolyField.Mac(master, ToLE(wc, 8) + LABEL_R) + PolyField.Mac(master, ToLE(wc, 8) + LABEL_S)
  }

  function TagOf(master: Key, wc: U64, payload: seq<byte>): (t: seq<byte>)
    requires |payload| <= MAX_MSG_LEN
    ensures |t| == TAG_LEN
  {
    PolyField.Mac(Subkey(master, wc), ToLE(wc, 8) + ToLE(|payload|, 4) + payload)
  }

  function Ascii(s: string): seq<byte>
    requires forall i :: 0 <= i < |s| ==> s[i] < 128 as char
  {
    seq(|s|, i requires 0 <= i < |s| => s[i] as int)
  }

  lemma LabelsAre()
    ensures LABEL_R == Ascii("qlinux-wc-auth-v1-r") && LABEL_S == Ascii("qlinux-wc-auth-v1-s")
  {}

  /** The accumulator of this key and message ends below the prime. */
  predicate BelowPrime(key: Key, m: seq<byte>) { PolyField.FinalVal(key, m) < PolyField.P }

  /** The key schedule and the tag, in terms of the authenticator of RFC 8439 (which this one is whenever
      the accumulator ends below the prime): two tags under the master key make the one-time key of
      the counter, which authenticates counter, length and payload. */
  lemma TagIsRfc(master: Key, wc: U64, payload: seq<byte>)
    requires |payload| <= MAX_MSG_LEN
    requires BelowPrime(master, ToLE(wc, 8) + LABEL_R)
    requires BelowPrime(master, ToLE(wc, 8) + LABEL_S)
    requires BelowPrime(Subkey(master, wc), ToLE(wc, 8) + ToLE(|payload|, 4) + payload)
    ensures Subkey(master, wc) ==
              PolyField.RfcMac(master, ToLE(wc, 8) + LABEL_R)
              + PolyField.RfcMac(master, ToLE(wc, 8) + LABEL_S)
    ensures TagOf(master, wc, payload) ==
              PolyField.RfcMac(Subkey(master, wc), ToLE(wc, 8) + ToLE(|payload|, 4) + payload)
  {
    hide PolyField.Mac, PolyField.RfcMac, PolyField.FinalVal, ToLE;
    PolyField.MacMatchesRfcIff(master, ToLE(wc, 8) + LABEL_R);
    PolyField.MacMatchesRfcIff(master, ToLE(wc, 8) + LABEL_S);
    PolyField.MacMatchesRfcIff(Subkey(master, wc), ToLE(wc, 8) + ToLE(|payload|, 4) + payload);
  }

  function BytesToWords(n: nat): (words: nat)
    ensures 8 * words >= n && (n > 0 ==> 8 * (words - 1) < n)
  {
    (n + 7) / 8
  }

  // ---------- sessions ----------

  datatype Role = Sender | Receiver

  datatype Session = Session(master: Key, wc: U64, role: Role)

  datatype Advanced = Advanced(session: Session, data: seq<byte>)

  function SealWith(s: Session, pt: seq<byte>): Result<Advanced, WcError>
  {
    if s.role != Sender then Err(InvalidKey)
    else if pt == [] then Err(EmptyMessage)
    else if |pt| > MAX_MSG_LEN then Err(MessageTooLong)
    else if s.wc + BytesToWords(|pt|) >= TWO64 then Err(WordCountOverflow)
    else Ok(Advanced(s.(wc := s.wc + BytesToWords(|pt|)), MarBytes(Mar(s.wc, |pt|, TagOf(s.master, s.wc, pt), pt))))
  }

  function OpenWith(s: Session, raw: seq<byte>): Result<Advanced, WcError>
  {
    if s.role != Receiver then Err(InvalidKey)
    else match ParseMar(raw)
      case Err(e) => Err(e)
      case Ok(m) =>
        if m.wordCount != s.wc then Err(WordCountMismatch)
        else if m.payload == [] then Err(EmptyMessage)
        else if |m.payload| > MAX_MSG_LEN then Err(MessageTooLong)
        else if TagOf(s.master, s.wc, m.payload) != m.tag then Err(TagMismatch)
        else if s.wc + BytesToWords(|m.payload|) >= TWO64 then Err(WordCountOverflow)
        else Ok(Advanced(s.(wc := s.wc + BytesToWords(|m.payload|)), m.payload))
  }

  ghost predicate Paired(s: Session, r: Session)
  {
    s.master == r.master && s.role == Sender && r.role == Receiver
  }

  ghost predicate InStep(s: Session, r: Session) { Paired(s, r) && s.wc == r.wc }

  /** The fate of a genuine message: opened exactly when the receiver's counter is the one it was
      sealed at, and then both counters agree again. */
  lemma GenuineMar(s: Session, r: Session, pt: seq<byte>)
    requires Paired(s, r) && SealWith(s, pt).Ok?
    ensures var mar := SealWith(s, pt).value.data;
            OpenWith(r, mar) == if r.wc == s.wc then Ok(Advanced(r.(wc := SealWith(s, pt).value.session.wc), pt))
                                else Err(WordCountMismatch)
    ensures |SealWith(s, pt).value.data| == MAR_HEADER_LEN + |pt|
  {
    hide TagOf, ParseMar;
    var m := Mar(s.wc, |pt|, TagOf(s.master, s.wc, pt), pt);
    MarRoundTrip(m, []);
    assert MarBytes(m) + [] == MarBytes(m);
  }

  /** A receiver opens `raw` to `pt` exactly when `raw` starts with what a sender with the same key and
      counter would have sealed for `pt`; then the counter moves on as the sender's does.  Whatever
      else arrives is refused. */
  lemma OpensExactly(r: Session, raw: seq<byte>, n: U64, pt: seq<byte>)
    ensures OpenWith(r, raw) == Ok(Advanced(r.(wc := n), pt)) <==>
              && r.role == Receiver
              && var s := SealWith(r.(role := Sender), pt); s.Ok? && s.value.session.wc == n && s.value.data <= raw
  {
    hide TagOf, ParseMar, MarBytes;
    if 0 < |pt| <= MAX_MSG_LEN {
      ParseMarIff(raw, Mar(r.wc, |pt|, TagOf(r.master, r.wc, pt), pt));
    }
    if ParseMar(raw).Ok? { ParseMarIff(raw, ParseMar(raw).value); }
  }

  /** So every octet counts: a sealed message with any octet altered, header, tag or payload, can be opened
      only to another plaintext, whose own sealing it would have to be. */
  lemma AlteredNeverOpensToTheSame(s: Session, r: Session, pt: seq<byte>, k: nat, x: byte)
    requires Paired(s, r) && SealWith(s, pt).Ok? && k < |SealWith(s, pt).value.data|
    requires x != SealWith(s, pt).value.data[k] && r.wc == s.wc
    ensures var o := OpenWith(r, SealWith(s, pt).value.data[k := x]); o.Err? || o.value.data != pt
  {
    hide SealWith, OpenWith;
    var mar := SealWith(s, pt).value.data;
    var o := OpenWith(r, mar[k := x]);
    if o.Ok? {
      OpenKeeps(r, mar[k := x]);
      assert r.(role := Sender) == s;
      OpensExactly(r, mar[k := x], o.value.session.wc, pt);
      SealedLayout(s, pt);
    }
  }

  /** A sealed message octet by octet: the counter it was sealed at and the length, little-endian, the tag
      under that counter, and the plaintext. */
  lemma SealedLayout(s: Session, pt: seq<byte>)
    requires SealWith(s, pt).Ok?
    ensures var d := SealWith(s, pt).value.data;
            && |d| == 28 + |pt| && |pt| <= MAX_MSG_LEN && LE(d[..8]) == s.wc && LE(d[8..12]) == |pt|
            && d[12..28] == TagOf(s.master, s.wc, pt) && d[28..] == pt
    ensures SealWith(s, pt).value.session.wc == s.wc + BytesToWords(|pt|)
  {
    hide TagOf, ToLE, LE, Pow2;
    Pow2Words();
    LEOfToLE(s.wc, 8);
    LEOfToLE(|pt|, 4);
    var d := SealWith(s, pt).value.data;
    assert d[..8] == ToLE(s.wc, 8) && d[8..12] == ToLE(|pt|, 4);
  }

  lemma OpenKeeps(r: Session, raw: seq<byte>)
    requires OpenWith(r, raw).Ok?
    ensures OpenWith(r, raw).value.session == r.(wc := OpenWith(r, raw).value.session.wc)
  {
    hide TagOf, ParseMar;
  }

  /** What is refused, and why: the tag is looked at after the counter and the length, and the counter's
      overflow only once the tag has matched. */
  lemma RefusedBecause(r: Session, m: Mar, raw: seq<byte>)
    requires ParseMar(raw) == Ok(m) && r.role == Receiver
    ensures OpenWith(r, raw) == Err(WordCountMismatch) <==> m.wordCount != r.wc
    ensures m.wordCount == r.wc ==>
              (OpenWith(r, raw) == Err(TagMismatch) <==>
                 0 < |m.payload| <= 65536 && m.tag != TagOf(r.master, r.wc, m.payload))
    ensures m.wordCount == r.wc ==> (OpenWith(r, raw) == Err(EmptyMessage) <==> m.payload == [])
    ensures m.wordCount == r.wc ==> (OpenWith(r, raw) == Err(MessageTooLong) <==> |m.payload| > 65536)
  {
    hide TagOf, ParseMar;
  }

  // ---------- runs over a channel that loses, repeats and reorders ----------

  datatype SentMar = SentMar(wc: U64, pt: seq<byte>, mar: seq<byte>)

  datatype Sys = Sys(tx: Session, rx: Session, sent: seq<SentMar>, got: seq<seq<byte>>)

  datatype Event = SealEvent(pt: seq<byte>) | DeliverEvent(k: nat)

  function Next(y: Sys, e: Event): Sys
  {
    match e
    case SealEvent(pt) =>
      (match SealWith(y.tx, pt)
       case Err(_) => y
       case Ok(a) => y.(tx := a.session, sent := y.sent + [SentMar(y.tx.wc, pt, a.data)]))
    case DeliverEvent(k) =>
      if k >= |y.sent| then y
      else (match OpenWith(y.rx, y.sent[k].mar)
            case Err(_) => y
            case Ok(a) => y.(rx := a.session, got := y.got + [a.data]))
  }

  function Run(y: Sys, es: seq<Event>): Sys
  {
    if es == [] then y else Next(Run(y, es[..|es| - 1]), es[|es| - 1])
  }

  /** The counter at which message `k` is, or would be, sealed. */
  function CounterAt(y: Sys, k: nat): U64
    requires k <= |y.sent|
  {
    if k < |y.sent| then y.sent[k].wc else y.tx.wc
  }

  ghost predicate Genuine(y: Sys, k: nat)
    requires k < |y.sent|
  {
    SealWith(y.tx.(wc := y.sent[k].wc), y.sent[k].pt) == Ok(Advanced(y.tx.(wc := CounterAt(y, k + 1)), y.sent[k].mar))
  }

  ghost predicate Inv(y: Sys)
  {
    && Paired(y.tx, y.rx)
    && (forall k :: 0 <= k < |y.sent| ==> Genuine(y, k))
    && (forall j, k :: 0 <= j < k <= |y.sent| ==> CounterAt(y, j) < CounterAt(y, k))
    && |y.got| <= |y.sent| && y.rx.wc == CounterAt(y, |y.got|)
    && (forall i :: 0 <= i < |y.got| ==> y.got[i] == y.sent[i].pt)
  }

  lemma SealAdvances(s: Session, pt: seq<byte>)
    requires SealWith(s, pt).Ok?
    ensures SealWith(s, pt).value.session == s.(wc := SealWith(s, pt).value.session.wc)
    ensures SealWith(s, pt).value.session.wc > s.wc
  {
    hide TagOf, MarBytes;
  }

  lemma SealKeepsInv(y: Sys, pt: seq<byte>)
    requires Inv(y)
    ensures Inv(Next(y, SealEvent(pt)))
  {
    hide SealWith;
    if SealWith(y.tx, pt).Ok? {
      SealAdvances(y.tx, pt);
      var y' := Next(y, SealEvent(pt));
      forall k | 0 <= k < |y'.sent| ensures Genuine(y', k) {
        if k < |y.sent| { assert Genuine(y, k); }
      }
      forall j, k | 0 <= j < k <= |y'.sent| ensures CounterAt(y', j) < CounterAt(y', k) {
        if k <= |y.sent| { assert CounterAt(y, j) < CounterAt(y, k); }
        else if j < |y.sent| { assert CounterAt(y, j) < CounterAt(y, |y.sent|); }
      }
    }
  }

  /** A delivered message is accepted exactly when it is the next one in order. */
  lemma DeliverIff(y: Sys, k: nat)
    requires Inv(y) && k < |y.sent|
    ensures Next(y, DeliverEvent(k)) ==
              if k == |y.got| then y.(rx := y.rx.(wc := CounterAt(y, k + 1)), got := y.got + [y.sent[k].pt]) else y
  {
    hide SealWith, OpenWith;
    assert Genuine(y, k);
    GenuineMar(y.tx.(wc := y.sent[k].wc), y.rx, y.sent[k].pt);
    var n := |y.got|;
    assert k < n ==> CounterAt(y, k) < CounterAt(y, n);
    assert n < k ==> CounterAt(y, n) < CounterAt(y, k);
  }

  lemma {:induction false} RunKeepsInv(y: Sys, es: seq<Event>)
    requires Inv(y)
    ensures Inv(Run(y, es))
    decreases |es|
  {
    if es != [] {
      var y' := Run(y, es[..|es| - 1]);
      RunKeepsInv(y, es[..|es| - 1]);
      match es[|es| - 1]
      case SealEvent(pt) => SealKeepsInv(y', pt);
      case DeliverEvent(k) => DeliverKeepsInv(y', k);
    }
  }

  lemma DeliverKeepsInv(y: Sys, k: nat)
    requires Inv(y)
    ensures Inv(Next(y, DeliverEvent(k)))
  {
    hide SealWith, OpenWith;
    if k < |y.sent| {
      DeliverIff(y, k);
      var y' := Next(y, DeliverEvent(k));
      forall j | 0 <= j < |y'.sent| ensures Genuine(y', j) { assert Genuine(y, j); }
      forall i, j | 0 <= i < j <= |y'.sent| ensures CounterAt(y', i) < CounterAt(y', j) {
        assert CounterAt(y, i) < CounterAt(y, j);
      }
    }
  }

  /** In every run the accepted plaintexts are a prefix of the sealed ones, and no counter is used for
      two messages. */
  lemma AcceptedIsPrefix(s: Session, r: Session, es: seq<Event>)
    requires InStep(s, r)
    ensures var y := Run(Sys(s, r, [], []), es);
            && |y.got| <= |y.sent| && (forall i :: 0 <= i < |y.got| ==> y.got[i] == y.sent[i].pt)
            && (forall j, k :: 0 <= j < k < |y.sent| ==> y.sent[j].wc < y.sent[k].wc)
  {
    hide Run, SealWith;
    var y0 := Sys(s, r, [], []);
    assert Inv(y0);
    RunKeepsInv(y0, es);
    var y := Run(y0, es);
    forall j, k | 0 <= j < k < |y.sent| ensures y.sent[j].wc < y.sent[k].wc {
      assert CounterAt(y, j) < CounterAt(y, k);
    }
  }

  // ---------- the session object ----------

  class WcAuthSession {
    const master: Key
    const role: Role
    var wordCount: U64

    ghost function Abs(): Session
      reads this
    {
      Session(master, wordCount, role)
    }

    /** The length of the key is checked by `NewSession`. */
    constructor (master: Key, initialWc: U64, role: Role)
      ensures Abs() == Session(master, initialWc, role)
    {
      this.master := master;
      this.role := role;
      wordCount := initialWc;
    }

    method Seal(pt: seq<byte>) returns (r: Result<seq<byte>, WcError>)
      modifies this
      ensures match SealWith(old(Abs()), pt)
              case Ok(a) => r == Ok(a.data) && Abs() == a.session
              case Err(e) => r == Err(e) && Abs() == old(Abs())
    {
      hide TagOf, MarBytes, Subkey;
      if role != Sender { return Err(InvalidKey); }
      if pt == [] { return Err(EmptyMessage); }
      if |pt| > MAX_MSG_LEN { return Err(MessageTooLong); }
      var wc := wordCount;
      var subkey := DeriveSubkey(master, wc);
      var tag := ComputeTag(master, subkey, wc, pt);
      var mar := Mar(wc, |pt|, tag, pt);
      if wordCount + BytesToWords(|pt|) >= TWO64 { return Err(WordCountOverflow); }
      wordCount := wordCount + BytesToWords(|pt|);
      return Ok(MarBytes(mar));
    }

    method Open(raw: seq<byte>) returns (r: Result<seq<byte>, WcError>)
      modifies this
      ensures match OpenWith(old(Abs()), raw)
              case Ok(a) => r == Ok(a.data) && Abs() == a.session
              case Err(e) => r == Err(e) && Abs() == old(Abs())
    {
      hide TagOf, Subkey;
      if role != Receiver { return Err(InvalidKey); }
      var parsed := ParseMar(raw);
      if parsed.Err? { return Err(parsed.error); }
      var mar := parsed.value;
      if mar.wordCount != wordCount { return Err(WordCountMismatch); }
      if mar.payload == [] { return Err(EmptyMessage); }
      if |mar.payload| > MAX_MSG_LEN { return Err(MessageTooLong); }
      var subkey := DeriveSubkey(master, mar.wordCount);
      var expected := ComputeTag(master, subkey, mar.wordCount, mar.payload);
      var same := Poly1305.CtEq16(expected, mar.tag);
      if !same { return Err(TagMismatch); }
      if wordCount + BytesToWords(|mar.payload|) >= TWO64 { return Err(WordCountOverflow); }
      wordCount := wordCount + BytesToWords(|mar.payload|);
      return Ok(mar.payload);
    }
  }

  /** Two authenticators under the master key make the two halves of the one-time key. */
  method DeriveSubkey(master: Key, wc: U64) returns (k: Key)
    ensures k == Subkey(master, wc)
  {
    hide PolyField.Mac;
    var r := Poly1305.ComputeMac(master, ToLE(wc, 8) + LABEL_R);
    var s := Poly1305.ComputeMac(master, ToLE(wc, 8) + LABEL_S);
    k := r + s;
  }

  /** The tag is fed in three chunks; it is the tag of their concatenation. */
  method ComputeTag(ghost master: Key, subkey: Key, wc: U64, payload: seq<byte>) returns (tag: seq<byte>)
    requires subkey == Subkey(master, wc) && |payload| <= MAX_MSG_LEN
    ensures tag == TagOf(master, wc, payload)
  {
    hide Subkey, ToLE, PolyField.Final, PolyField.Tag, PolyField.Carry, PolyField.JoinS, PolyField.NewKey,
         PolyField.Absorbed;
    var ctx := new Poly1305.Poly1305(PolyField.NewKey(subkey));
    ctx.Update(ToLE(wc, 8));
    ctx.Update(ToLE(|payload|, 4));
    ctx.Update(payload);
    assert [] + ToLE(wc, 8) + ToLE(|payload|, 4) + payload == ToLE(wc, 8) + ToLE(|payload|, 4) + payload;
    tag := ctx.Finalize();
  }

  method NewSession(master: seq<byte>, initialWc: U64, role: Role) returns (r: Result<WcAuthSession, WcError>)
    ensures |master| != KEY_LEN ==> r == Err(InvalidKey)
    ensures |master| == KEY_LEN ==>
              r.Ok? && fresh(r.value) && r.value.Abs() == Session(master, initialWc, role)
  {
    if |master| != KEY_LEN { return Err(InvalidKey); }
    var s := new WcAuthSession(master, initialWc, role);
    return Ok(s);
  }

  /** The two ends start in step. */
  method CreateSessionPair(master: seq<byte>) returns (r: Result<(WcAuthSession, WcAuthSession), WcError>)
    ensures |master| != KEY_LEN ==> r == Err(InvalidKey)
    ensures |master| == KEY_LEN ==>
              && r.Ok? && r.value.0 != r.value.1 && fresh(r.value.0) && fresh(r.value.1)
              && InStep(r.value.0.Abs(), r.value.1.Abs()) && r.value.0.wordCount == 0
  {
    if |master| != KEY_LEN { return Err(InvalidKey); }
    var sender := new WcAuthSession(master, 0, Sender);
    var receiver := new WcAuthSession(master, 0, Receiver);
    return Ok((sender, receiver));
  }
}
