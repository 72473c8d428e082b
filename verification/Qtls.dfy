/** QTLS records: one-time Poly1305 key and one-time pad, both taken from a key lane.

    `RecordBytes` is the format; `SealLane` and `OpenLane` say what sealing and opening do to a
    lane.  `OpensExactly` is the central fact: a lane opens a record precisely when the record is
    the sealing of that plaintext under the octets the lane still holds at the record's offset. */
module Qtls {
  import opened Wrappers
  import opened Bits
  import opened Bytes
  import opened KeyLane
  import PolyField
  import Poly1305

  const VERSION: byte := 1
  const HDR_LEN: nat := 14
  const TAG_LEN: nat := 16
  const MAC_KEY_LEN: nat := 32
  const MAX_PAYLOAD: nat := 1400
  const MAX_RECORD_LEN: nat := 1430

  datatype NetError =
    | ArpPending | NoPeer | NoSession | NotEstablished | WouldBlock | AuthFailed
    | Malformed | PayloadTooLarge | DeviceFull | TableFull | KeyFault(key: KeyError)

  datatype ContentType = Hello | HelloAck | Data | Close

  datatype Header = Header(ctype: ContentType, sessionId: U16, keyOffset: nat, length: U16)

  /** Key octets spent on one record. */
  function KeyCost(len: nat): nat { MAC_KEY_LEN + len }

  function TypeByte(t: ContentType): byte
  {
    match t case Hello => 1 case HelloAck => 2 case Data => 3 case Close => 4
  }

  function TypeFromByte(v: byte): Option<ContentType>
  {
    if v == 1 then Some(Hello) else if v == 2 then Some(HelloAck)
    else if v == 3 then Some(Data) else if v == 4 then Some(Close) else None
  }

  function HeaderBytes(h: Header): (b: seq<byte>)
    ensures |b| == HDR_LEN
  {
    [TypeByte(h.ctype), VERSION] + Be16Bytes(h.sessionId) + ToBE(h.keyOffset, 8) + Be16Bytes(h.length)
  }

  function Be64(b: seq<byte>): U64
    requires |b| == 8
  {
    BEBound(b);
    Pow2Words();
    BE(b)
  }

  function ParseHeader(rec: seq<byte>): Result<Header, NetError>
  {
    if |rec| < HDR_LEN + TAG_LEN || rec[1] != VERSION then Err(Malformed)
    else
      var t := TypeFromByte(rec[0]);
      if t.None? then Err(Malformed)
      else
        var length := Be16(rec[12], rec[13]);
        if length > MAX_PAYLOAD || |rec| != HDR_LEN + length + TAG_LEN then Err(Malformed)
        else Ok(Header(t.value, Be16(rec[2], rec[3]), Be64(rec[4..12]), length))
  }

  /** The parser accepts exactly the printed headers followed by a body of the stated length. */
  lemma ParseHeaderIff(rec: seq<byte>, h: Header)
    requires h.keyOffset < TWO64
    ensures ParseHeader(rec) == Ok(h) <==>
              |rec| == HDR_LEN + h.length + TAG_LEN && h.length <= MAX_PAYLOAD && rec[..HDR_LEN] == HeaderBytes(h)
  {
    hide Be64, ToBE, Be16, Be16Bytes;
    if |rec| >= HDR_LEN + TAG_LEN {
      var b := rec[..HDR_LEN];
      assert b == [rec[0], rec[1]] + b[2..4] + b[4..12] + b[12..14];
      assert b[2..4] == rec[2..4] && b[4..12] == rec[4..12] && b[12..14] == rec[12..14];
      Be16Iff(rec[2..4], h.sessionId);
      Be16Iff(rec[12..14], h.length);
      Field64(rec[4..12], h.keyOffset);
      var e := HeaderBytes(h);
      assert e[2..4] == Be16Bytes(h.sessionId) && e[4..12] == ToBE(h.keyOffset, 8) && e[12..14] == Be16Bytes(h.length);
    }
  }

  lemma Field64(b: seq<byte>, x: nat)
    requires |b| == 8 && x < TWO64
    ensures Be64(b) == x <==> b == ToBE(x, 8)
  {
    hide BE, ToBE, Pow2;
    Pow2Words();
    BEOfToBE(x, 8);
    ToBEOfBE(b);
  }

  // ---------- records ----------

  /** The record for `pt` under `key`: authenticated header and pad-encrypted payload, then the tag. */
  function RecordBytes(key: seq<byte>, h: Header, pt: seq<byte>): (rec: seq<byte>)
    requires |key| == KeyCost(|pt|)
    ensures |rec| == HDR_LEN + |pt| + TAG_LEN
  {
    var body := HeaderBytes(h) + XorBytes(pt, key[MAC_KEY_LEN..]);
    body + PolyField.Mac(key[..MAC_KEY_LEN], body)
  }

  /** The header octet by octet: type, version, session, key offset and length, big-endian. */
  lemma HeaderLayout(h: Header)
    requires h.keyOffset < TWO64
    ensures var b := HeaderBytes(h);
            && |b| == 14
            && b[0] == (match h.ctype case Hello => 1 case HelloAck => 2 case Data => 3 case Close => 4)
            && b[1] == 1 && 256 * (b[2] as int) + b[3] as int == h.sessionId && BE(b[4..12]) == h.keyOffset
            && 256 * (b[12] as int) + b[13] as int == h.length
  {
    hide BE, ToBE, Pow2;
    Pow2Words();
    var b := HeaderBytes(h);
    BEOfToBE(h.keyOffset, 8);
    assert b[4..12] == ToBE(h.keyOffset, 8) && b[2..4] == Be16Bytes(h.sessionId) && b[12..14] == Be16Bytes(h.length);
    Be16Iff(b[2..4], h.sessionId);
    Be16Iff(b[12..14], h.length);
  }

  /** After the header the payload with the pad, the key octets from the 33rd on, bit by bit. */
  lemma PayloadIsPadded(key: seq<byte>, h: Header, pt: seq<byte>, i: nat, b: nat)
    requires |key| == 32 + |pt| && i < |pt| && b < 8
    ensures |RecordBytes(key, h, pt)| == 30 + |pt| && RecordBytes(key, h, pt)[..14] == HeaderBytes(h)
    ensures Bit(RecordBytes(key, h, pt)[14 + i], b) <==> Bit(pt[i], b) != Bit(key[32 + i], b)
  {
    hide PolyField.Mac, HeaderBytes, Bit, XorByte;
    assert RecordBytes(key, h, pt)[14 + i] == XorByte(pt[i], key[32..][i]);
    XorByteBit(pt[i], key[32 + i], b);
  }

  /** And last the tag of all that under the first 32 key octets: the tag of RFC 8439 whenever its
      accumulator ends below the prime. */
  lemma TagIsRfc(key: seq<byte>, h: Header, pt: seq<byte>)
    requires |key| == 32 + |pt|
    ensures var rec, n := RecordBytes(key, h, pt), 14 + |pt|;
            && |rec| == n + 16
            && (PolyField.FinalVal(key[..32], rec[..n]) < PolyField.P ==>
                  rec[n..] == PolyField.RfcMac(key[..32], rec[..n]))
  {
    hide PolyField.Mac, PolyField.FinalVal, PolyField.RfcMac, HeaderBytes, XorBytes;
    var rec, n := RecordBytes(key, h, pt), 14 + |pt|;
    assert rec[n..] == PolyField.Mac(key[..32], rec[..n]);
    PolyField.MacMatchesRfcIff(key[..32], rec[..n]);
  }

  lemma XorByteBit(x: byte, y: byte, b: nat)
    ensures Bit(XorByte(x, y), b) <==> Bit(x, b) != Bit(y, b)
  {
    hide Bit, Xor;
    BitXor(x, y, b);
  }

  /** The pad hides everything: each octet string of the right length is what the payload becomes under
      exactly one pad. */
  lemma PadIsPerfect(pt: seq<byte>, pad: seq<byte>, ct: seq<byte>)
    requires |pt| == |pad| == |ct|
    ensures XorBytes(pt, pad) == ct <==> pad == XorBytes(ct, pt)
  {
    hide XorByte;
    forall i | 0 <= i < |pt| ensures XorByte(pt[i], pad[i]) == ct[i] <==> pad[i] == XorByte(ct[i], pt[i]) {
      XorByteSolves(pt[i], pad[i], ct[i]);
    }
    if XorBytes(pt, pad) == ct {
      forall i | 0 <= i < |pt| ensures pad[i] == XorBytes(ct, pt)[i] { assert XorBytes(pt, pad)[i] == ct[i]; }
    }
    if pad == XorBytes(ct, pt) {
      forall i | 0 <= i < |pt| ensures XorBytes(pt, pad)[i] == ct[i] { assert pad[i] == XorBytes(ct, pt)[i]; }
    }
  }

  /** Both sides of the equation have the same bits. */
  lemma XorByteSolves(x: byte, y: byte, z: byte)
    ensures XorByte(x, y) == z <==> y == XorByte(z, x)
  {
    hide Xor;
    XorSwap(x, y);
    XorInvolution(y, x);
    XorInvolution(z, x);
    XorSwap(z, x);
    XorSwap(x, Xor(z, x));
  }

  datatype Sealed = Sealed(lane: Lane, rec: seq<byte>)
  datatype Opened = Opened(lane: Lane, hdr: Header, pt: seq<byte>)

  function SealLane(tx: Lane, ctype: ContentType, sid: U16, pt: seq<byte>, room: nat): Result<Sealed, NetError>
  {
    if |pt| > MAX_PAYLOAD then Err(PayloadTooLarge)
    else if room < HDR_LEN + |pt| + TAG_LEN then Err(PayloadTooLarge)
    else match LaneTake(tx, KeyCost(|pt|))
      case Err(e) => Err(KeyFault(e))
      case Ok(t) => Ok(Sealed(t.lane, RecordBytes(t.key, Header(ctype, sid, t.offset, |pt|), pt)))
  }

  function OpenLane(rx: Lane, rec: seq<byte>, room: nat): Result<Opened, NetError>
  {
    match ParseHeader(rec)
    case Err(e) => Err(e)
    case Ok(h) =>
      if room < h.length then Err(PayloadTooLarge)
      else match Peek(rx, h.keyOffset, KeyCost(h.length))
        case Err(e) => Err(KeyFault(e))
        case Ok(key) =>
          var body := rec[..HDR_LEN + h.length];
          if PolyField.Mac(key[..MAC_KEY_LEN], body) != rec[HDR_LEN + h.length..] then Err(AuthFailed)
          else match LaneConsume(rx, h.keyOffset, KeyCost(h.length))
            case Err(e) => Err(KeyFault(e))
            case Ok(l) => Ok(Opened(l, h, XorBytes(body[HDR_LEN..], key[MAC_KEY_LEN..])))
  }

  /** Sealing and opening are inverse: the lane opens `rec` to `(h, pt)` exactly when `rec` is the
      record of `(h, pt)` under key octets that the lane's window still covers. */
  lemma OpensExactly(l: Lane, stream: seq<byte>, rec: seq<byte>, room: nat, h: Header, pt: seq<byte>)
    requires Windows(l, stream) && |stream| < TWO64
    ensures var o := OpenLane(l, rec, room);
            o.Ok? && o.value.hdr == h && o.value.pt == pt <==>
              && h.length == |pt| <= MAX_PAYLOAD && |pt| <= room && l.base <= h.keyOffset
              && h.keyOffset + KeyCost(h.length) <= |stream|
              && rec == RecordBytes(stream[h.keyOffset..h.keyOffset + KeyCost(h.length)], h, pt)
  {
    hide PolyField.Mac, XorBytes, HeaderBytes;
    var n := HDR_LEN + h.length;
    if h.keyOffset + KeyCost(h.length) <= |stream| {
      var key := stream[h.keyOffset..h.keyOffset + KeyCost(h.length)];
      ParseHeaderIff(rec, h);
      ReadsStream(l, stream, h.keyOffset, KeyCost(h.length));
      if h.length == |pt| && rec == RecordBytes(key, h, pt) {
        var body := HeaderBytes(h) + XorBytes(pt, key[MAC_KEY_LEN..]);
        assert rec[..n] == body && rec[..HDR_LEN] == HeaderBytes(h);
        assert body[HDR_LEN..] == XorBytes(pt, key[MAC_KEY_LEN..]);
        XorBytesTwice(pt, key[MAC_KEY_LEN..]);
      }
      if ParseHeader(rec) == Ok(h) {
        var ct := rec[..n][HDR_LEN..];
        XorBytesTwice(ct, key[MAC_KEY_LEN..]);
        assert rec == rec[..n] + rec[n..] && rec[..n] == rec[..HDR_LEN] + ct;
      }
    }
  }

  /** Every answer of `seal`, in terms of the stream behind the lane: the record is made of the next
      32 + length octets, and the lane starts behind them afterwards. */
  lemma SealAnswers(l: Lane, stream: seq<byte>, ctype: ContentType, sid: U16, pt: seq<byte>, room: nat)
    requires Windows(l, stream)
    ensures var end := l.base + 32 + |pt|;
            SealLane(l, ctype, sid, pt, room) ==
              if |pt| > 1400 || room < 30 + |pt| then Err(PayloadTooLarge)
              else if end > |stream| then Err(KeyFault(InsufficientKey))
              else Ok(Sealed(Lane(end, stream[end..]),
                             RecordBytes(stream[l.base..end], Header(ctype, sid, l.base, |pt|), pt)))
  {
    hide RecordBytes, LaneTake;
    LaneAnswers(l, stream, 0, KeyCost(|pt|));
  }

  /** Every possible fate of a genuine record: opened exactly, already consumed, or not yet
      covered by the receiver's key.  `supply` is the stream both ends draw from. */
  lemma GenuineOutcome(l: Lane, stream: seq<byte>, supply: seq<byte>, h: Header, pt: seq<byte>, room: nat)
    requires Windows(l, stream) && stream <= supply && |supply| < TWO64
    requires h.length == |pt| <= MAX_PAYLOAD && |pt| <= room
    requires h.keyOffset + KeyCost(h.length) <= |supply|
    ensures var end := h.keyOffset + KeyCost(h.length);
            var rec := RecordBytes(supply[h.keyOffset..end], h, pt);
            OpenLane(l, rec, room) ==
              if h.keyOffset < l.base then Err(KeyFault(AlreadyConsumed))
              else if end > |stream| then Err(KeyFault(InsufficientKey))
              else Ok(Opened(Drop(l, end - l.base), h, pt))
  {
    hide PolyField.Mac, XorBytes, HeaderBytes, ParseHeader;
    var end := h.keyOffset + KeyCost(h.length);
    var key := supply[h.keyOffset..end];
    var rec := RecordBytes(key, h, pt);
    var body := HeaderBytes(h) + XorBytes(pt, key[MAC_KEY_LEN..]);
    assert rec[..HDR_LEN] == HeaderBytes(h);
    ParseHeaderIff(rec, h);
    if l.base <= h.keyOffset && end <= |stream| {
      assert key == stream[h.keyOffset..end];
      OpensExactly(l, stream, rec, room, h, pt);
    }
  }

  /** An accepted record, genuine or not, moves the lane past its own key: it never opens again. */
  lemma OpenedOnce(l: Lane, rec: seq<byte>, room: nat, room': nat)
    requires OpenLane(l, rec, room).Ok?
    ensures var o := OpenLane(l, rec, room).value;
            o.lane.base == o.hdr.keyOffset + KeyCost(o.hdr.length) > l.base
    ensures OpenLane(OpenLane(l, rec, room).value.lane, rec, room').Err?
  {
    hide PolyField.Mac, XorBytes, HeaderBytes, ParseHeader;
  }

  // ---------- the methods ----------

  /** The encryption and decryption loop: XOR with the pad, octet by octet. */
  method XorInto(out: array<byte>, at: nat, text: seq<byte>, pad: seq<byte>)
    requires |text| == |pad| && at + |text| <= out.Length
    modifies out
    ensures out[..at] == old(out[..at]) && out[at..at + |text|] == XorBytes(text, pad)
    ensures out[at + |text|..] == old(out[at + |text|..])
  {
    for i := 0 to |text|
      invariant out[..at] == old(out[..at]) && out[at + |text|..] == old(out[at + |text|..])
      invariant forall j :: 0 <= j < i ==> out[at + j] == XorByte(text[j], pad[j])
    {
      out[at + i] := XorByte(text[i], pad[i]);
    }
  }

  method WriteHeader(h: Header, out: array<byte>)
    requires out.Length >= HDR_LEN
    modifies out
    ensures out[..] == Splice(old(out[..]), 0, HeaderBytes(h))
  {
    out[0] := TypeByte(h.ctype);
    out[1] := VERSION;
    CopyInto(out, 2, Be16Bytes(h.sessionId));
    CopyInto(out, 4, ToBE(h.keyOffset, 8));
    CopyInto(out, 12, Be16Bytes(h.length));
  }

  /** The part of `seal` after the key has been taken. */
  method FillRecord(key: seq<byte>, h: Header, pt: seq<byte>, out: array<byte>)
    requires h.length == |pt| && |key| == KeyCost(|pt|) && HDR_LEN + |pt| + TAG_LEN <= out.Length
    modifies out
    ensures out[..HDR_LEN + |pt| + TAG_LEN] == RecordBytes(key, h, pt)
  {
    hide PolyField.Mac, XorBytes, HeaderBytes;
    WriteHeader(h, out);
    XorInto(out, HDR_LEN, pt, key[MAC_KEY_LEN..]);
    var body := out[..HDR_LEN + |pt|];
    assert body == HeaderBytes(h) + XorBytes(pt, key[MAC_KEY_LEN..]);
    var tag := Poly1305.ComputeMac(key[..MAC_KEY_LEN], body);
    CopyInto(out, HDR_LEN + |pt|, tag);
    assert out[..HDR_LEN + |pt| + TAG_LEN] == body + tag;
  }

  /** Seals `pt` into `out`, spending key from `tx`; on any error nothing has changed. */
  method Seal(tx: KeyLane, ctype: ContentType, sid: U16, pt: seq<byte>, out: array<byte>)
    returns (r: Result<nat, NetError>)
    requires tx.Valid() && out != tx.buf
    modifies tx, tx.buf, out
    ensures tx.Valid() && tx.stream == old(tx.stream)
    ensures match SealLane(old(tx.Abs()), ctype, sid, pt, out.Length)
            case Ok(s) => r == Ok(|s.rec|) && |s.rec| <= out.Length && out[..|s.rec|] == s.rec && tx.Abs() == s.lane
            case Err(e) => r == Err(e) && out[..] == old(out[..]) && tx.Abs() == old(tx.Abs())
  {
    hide RecordBytes;
    var len := |pt|;
    if len > MAX_PAYLOAD { return Err(PayloadTooLarge); }
    var total := HDR_LEN + len + TAG_LEN;
    if out.Length < total { return Err(PayloadTooLarge); }
    var key := new byte[KeyCost(MAX_PAYLOAD)](_ => 0);
    var taken := tx.Take(key, KeyCost(len));
    if taken.Err? { return Err(KeyFault(taken.error)); }
    FillRecord(key[..KeyCost(len)], Header(ctype, sid, taken.value, len), pt, out);
    return Ok(total);
  }

  /** Verifies and decrypts `rec`; key is consumed only after the tag has matched. */
  method Open(rx: KeyLane, rec: seq<byte>, out: array<byte>) returns (r: Result<(Header, nat), NetError>)
    requires rx.Valid() && out != rx.buf
    modifies rx, rx.buf, out
    ensures rx.Valid() && rx.stream == old(rx.stream)
    ensures match OpenLane(old(rx.Abs()), rec, out.Length)
            case Ok(o) =>
              r == Ok((o.hdr, |o.pt|)) && |o.pt| <= out.Length && out[..|o.pt|] == o.pt && rx.Abs() == o.lane
            case Err(e) => r == Err(e) && out[..] == old(out[..]) && rx.Abs() == old(rx.Abs())
  {
    hide PolyField.Mac, XorBytes, ParseHeader;
    var parsed := ParseHeader(rec);
    if parsed.Err? { return Err(parsed.error); }
    var h := parsed.value;
    var len := h.length;
    if out.Length < len { return Err(PayloadTooLarge); }
    var buf := new byte[KeyCost(MAX_PAYLOAD)](_ => 0);
    ParsedLength(rec, h);
    var peeked := rx.PeekAt(h.keyOffset, buf, KeyCost(len));
    if peeked.Err? { return Err(KeyFault(peeked.error)); }
    var key := buf[..KeyCost(len)];
    var body := rec[..HDR_LEN + len];
    var expected := Poly1305.ComputeMac(key[..MAC_KEY_LEN], body);
    var same := Poly1305.CtEq16(expected, rec[HDR_LEN + len..]);
    if !same { return Err(AuthFailed); }
    var consumed := rx.ConsumeThrough(h.keyOffset, KeyCost(len));
    assert consumed.Ok?;   // the range is the one `PeekAt` has just read
    XorInto(out, 0, body[HDR_LEN..], key[MAC_KEY_LEN..]);
    return Ok((h, len));
  }

  lemma ParsedLength(rec: seq<byte>, h: Header)
    requires ParseHeader(rec) == Ok(h)
    ensures |rec| == HDR_LEN + h.length + TAG_LEN && h.length <= MAX_PAYLOAD && h.keyOffset < TWO64
  {}
}
