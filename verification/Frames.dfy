/** Ethernet II, IPv4 and UDP: printers, parsers, and the frame that `send_udp` builds from them. */
module Frames {
  import opened Wrappers
  import opened Bytes
  import opened Checksum
  import opened Qtls

  type Mac = m: seq<byte> | |m| == 6 witness [0, 0, 0, 0, 0, 0]
  type Ip = a: seq<byte> | |a| == 4 witness [0, 0, 0, 0]

  const BROADCAST: Mac := [255, 255, 255, 255, 255, 255]
  const ETH_LEN: nat := 14
  const IP_LEN: nat := 20
  const UDP_LEN: nat := 8
  const MAX_FRAME: nat := 1514
  const ETHERTYPE_IPV4: U16 := 0x0800
  const PROTO_UDP: byte := 17

  // ---------- Ethernet ----------

  datatype EthHeader = EthHeader(dst: Mac, src: Mac, ethertype: U16)

  function EthBytes(h: EthHeader): (b: seq<byte>)
    ensures |b| == ETH_LEN
  {
    h.dst + h.src + Be16Bytes(h.ethertype)
  }

  function ParseEth(f: seq<byte>): Option<(EthHeader, seq<byte>)>
  {
    if |f| < ETH_LEN then None
    else Some((EthHeader(f[0..6], f[6..12], Be16(f[12], f[13])), f[ETH_LEN..]))
  }

  /** Exactly the frames that start with the printed header parse to it. */
  lemma ParseEthIff(f: seq<byte>, h: EthHeader, rest: seq<byte>)
    ensures ParseEth(f) == Some((h, rest)) <==> f == EthBytes(h) + rest
  {
    if |f| >= ETH_LEN {
      Be16Iff(f[12..14], h.ethertype);
      assert f == f[0..6] + f[6..12] + f[12..14] + f[14..];
    }
    var g := EthBytes(h) + rest;
    assert g[0..6] == h.dst && g[6..12] == h.src && g[12..14] == Be16Bytes(h.ethertype) && g[14..] == rest;
  }

  // ---------- IPv4 ----------

  datatype IpHeader = IpHeader(src: Ip, dst: Ip, protocol: byte, ttl: byte, id: U16)

  /** Version 4, five words, don't-fragment, TTL 64. */
  function IpHead(protocol: byte, id: U16, total: U16): (b: seq<byte>)
    ensures |b| == 10
  {
    [0x45, 0] + Be16Bytes(total) + Be16Bytes(id) + Be16Bytes(0x4000) + [64, protocol]
  }

  function IpBytes(src: Ip, dst: Ip, protocol: byte, id: U16, total: U16, checksum: U16): (b: seq<byte>)
    ensures |b| == IP_LEN
  {
    IpHead(protocol, id, total) + Be16Bytes(checksum) + (src + dst)
  }

  /** The header that `Ipv4Header::write` leaves behind; the length is cut to 16 bits. */
  function WrittenIp(src: Ip, dst: Ip, protocol: byte, id: U16, payloadLen: nat): (b: seq<byte>)
    ensures |b| == IP_LEN
  {
    var total := (IP_LEN + payloadLen) % 0x1_0000;
    IpBytes(src, dst, protocol, id, total, Finish(WordSum(IpBytes(src, dst, protocol, id, total, 0))))
  }

  function ParseIp(p: seq<byte>): Option<(IpHeader, seq<byte>)>
  {
    if |p| < IP_LEN || p[0] / 16 != 4 then None
    else
      var ihl := 4 * (p[0] % 16);
      var total := Be16(p[2], p[3]);
      if ihl < IP_LEN || total < ihl || total > |p| then None
      else if Finish(WordSum(p[..ihl])) != 0 then None
      else if Be16(p[6], p[7]) % 0x4000 != 0 then None
      else Some((IpHeader(p[12..16], p[16..20], p[9], p[8], Be16(p[4], p[5])), p[ihl..total]))
  }

  lemma IpChecksumField(src: Ip, dst: Ip, protocol: byte, id: U16, total: U16, c: U16)
    ensures WordSum(IpBytes(src, dst, protocol, id, total, c)) == WordSum(IpBytes(src, dst, protocol, id, total, 0)) + c
  {
    hide WordSum, IpHead, Be16Bytes;
    FieldSum(IpHead(protocol, id, total), c, src + dst);
  }

  /** The parser undoes the printer, whatever Ethernet padding follows the packet. */
  lemma IpRoundTrip(src: Ip, dst: Ip, protocol: byte, id: U16, payload: seq<byte>, trailer: seq<byte>)
    requires IP_LEN + |payload| < 0x1_0000
    ensures ParseIp(WrittenIp(src, dst, protocol, id, |payload|) + payload + trailer)
         == Some((IpHeader(src, dst, protocol, 64, id), payload))
  {
    hide WordSum, Finish, Be16, IpBytes, WrittenIp, ParseIp;
    var total := IP_LEN + |payload|;
    var sum := WordSum(IpBytes(src, dst, protocol, id, total, 0));
    var c := Finish(sum);
    IpChecksumField(src, dst, protocol, id, total, c);
    ChecksumVerifiesIff(sum, c);
    IpFields(src, dst, protocol, id, total, c);
    WrittenIpIs(src, dst, protocol, id, |payload|);
    HeadParses(IpBytes(src, dst, protocol, id, total, c), payload, trailer);
  }

  lemma WrittenIpIs(src: Ip, dst: Ip, protocol: byte, id: U16, payloadLen: nat)
    requires IP_LEN + payloadLen < 0x1_0000
    ensures var total := IP_LEN + payloadLen;
            var sum := WordSum(IpBytes(src, dst, protocol, id, total, 0));
            WrittenIp(src, dst, protocol, id, payloadLen) == IpBytes(src, dst, protocol, id, total, Finish(sum))
  {
    hide WordSum, Finish, IpBytes;
  }

  /** A version-4 packet octet by octet: options, payload, and whatever trails it. */
  ghost predicate IsIp(p: seq<byte>, h: IpHeader, options: seq<byte>, payload: seq<byte>, trailer: seq<byte>,
                       tos: byte, flags: U16, c: U16)
  {
    var total := 20 + |options| + |payload|;
    && |options| % 4 == 0 && |options| <= 40 && total < 0x1_0000 && flags % 0x4000 == 0
    && var head := [0x45 + |options| / 4, tos] + Be16Bytes(total) + Be16Bytes(h.id) + Be16Bytes(flags)
                   + [h.ttl, h.protocol] + Be16Bytes(c) + h.src + h.dst + options;
       p == head + payload + trailer && WordSum(head) > 0 && WordSum(head) % 65535 == 0
  }

  /** The parser accepts exactly the unfragmented version-4 packets whose header verifies. */
  lemma ParseIpIff(p: seq<byte>, h: IpHeader, payload: seq<byte>)
    ensures ParseIp(p) == Some((h, payload)) <==>
            exists options, trailer, tos, flags, c :: IsIp(p, h, options, payload, trailer, tos, flags, c)
  {
    hide ParseIp, IsIp;
    if ParseIp(p) == Some((h, payload)) {
      ParsedIp(p, h, payload);
    }
    if options, trailer, tos, flags, c :| IsIp(p, h, options, payload, trailer, tos, flags, c) {
      IpParses(p, h, options, payload, trailer, tos, flags, c);
    }
  }

  lemma ParsedIp(p: seq<byte>, h: IpHeader, payload: seq<byte>)
    requires ParseIp(p) == Some((h, payload))
    ensures exists options, trailer, tos, flags, c :: IsIp(p, h, options, payload, trailer, tos, flags, c)
  {
    hide WordSum, Finish, Be16, Be16Bytes;
    var ihl, total := 4 * (p[0] % 16), Be16(p[2], p[3]);
    var options, trailer := p[20..ihl], p[total..];
    var flags, c := Be16(p[6], p[7]), Be16(p[10], p[11]);
    Be16Iff(p[2..4], total); Be16Iff(p[4..6], h.id); Be16Iff(p[6..8], flags); Be16Iff(p[10..12], c);
    assert p[..ihl] == [p[0], p[1]] + p[2..4] + p[4..6] + p[6..8] + [p[8], p[9]] + p[10..12] + p[12..16] + p[16..20]
                       + options;
    FinishZeroIff(WordSum(p[..ihl]));
    assert p == p[..ihl] + payload + trailer;
    assert IsIp(p, h, options, payload, trailer, p[1], flags, c);
  }

  lemma IpParses(p: seq<byte>, h: IpHeader, options: seq<byte>, payload: seq<byte>, trailer: seq<byte>,
                 tos: byte, flags: U16, c: U16)
    requires IsIp(p, h, options, payload, trailer, tos, flags, c)
    ensures ParseIp(p) == Some((h, payload))
  {
    hide WordSum, Finish, Be16, Be16Bytes, ParseIp;
    var total := 20 + |options| + |payload|;
    var ihl := 20 + |options|;
    var head := [0x45 + |options| / 4, tos] + Be16Bytes(total) + Be16Bytes(h.id) + Be16Bytes(flags)
                + [h.ttl, h.protocol] + Be16Bytes(c) + h.src + h.dst + options;
    assert p == head + payload + trailer;
    assert head[2..4] == Be16Bytes(total) && head[4..6] == Be16Bytes(h.id) && head[6..8] == Be16Bytes(flags);
    Be16Iff(head[2..4], total); Be16Iff(head[4..6], h.id); Be16Iff(head[6..8], flags);
    assert head[12..16] == h.src && head[16..20] == h.dst;
    FinishZeroIff(WordSum(head));
    HeadParses(head, payload, trailer);
  }

  lemma HeadParses(head: seq<byte>, payload: seq<byte>, trailer: seq<byte>)
    requires 20 <= |head| <= 60 && |head| % 4 == 0 && head[0] == 0x40 + |head| / 4
    requires Be16(head[2], head[3]) == |head| + |payload| && Finish(WordSum(head)) == 0
    requires Be16(head[6], head[7]) % 0x4000 == 0
    ensures ParseIp(head + payload + trailer)
         == Some((IpHeader(head[12..16], head[16..20], head[9], head[8], Be16(head[4], head[5])), payload))
  {
    hide WordSum, Finish, Be16;
    var p := head + payload + trailer;
    assert p[..|head|] == head && p[|head|..|head| + |payload|] == payload;
    assert p[12..16] == head[12..16] && p[16..20] == head[16..20];
  }

  /** A packet with one header octet after the first altered on the way is dropped. */
  lemma DamagedHeaderDropped(src: Ip, dst: Ip, protocol: byte, id: U16, payload: seq<byte>, trailer: seq<byte>,
                             k: nat, x: byte)
    requires IP_LEN + |payload| < 0x1_0000 && 1 <= k < IP_LEN
    requires x != WrittenIp(src, dst, protocol, id, |payload|)[k]
    ensures ParseIp(WrittenIp(src, dst, protocol, id, |payload|)[k := x] + payload + trailer) == None
  {
    hide *;
    var h := WrittenIp(src, dst, protocol, id, |payload|);
    WrittenIpVerifies(src, dst, protocol, id, |payload|);
    assert h == h[..k] + [h[k]] + h[k + 1..] && h[k := x] == h[..k] + [x] + h[k + 1..];
    OctetChangeDetected(h[..k], h[k], x, h[k + 1..]);
    DropsUnverified(h[k := x], payload + trailer);
    assert h[k := x] + payload + trailer == h[k := x] + (payload + trailer);
  }

  lemma WrittenIpVerifies(src: Ip, dst: Ip, protocol: byte, id: U16, payloadLen: nat)
    requires IP_LEN + payloadLen < 0x1_0000
    ensures var h := WrittenIp(src, dst, protocol, id, payloadLen); h[0] == 0x45 && Finish(WordSum(h)) == 0
  {
    hide *;
    var total := IP_LEN + payloadLen;
    var sum := WordSum(IpBytes(src, dst, protocol, id, total, 0));
    IpChecksumField(src, dst, protocol, id, total, Finish(sum));
    ChecksumVerifiesIff(sum, Finish(sum));
    IpFields(src, dst, protocol, id, total, Finish(sum));
    WrittenIpIs(src, dst, protocol, id, payloadLen);
  }

  lemma DropsUnverified(h: seq<byte>, rest: seq<byte>)
    requires |h| == IP_LEN && h[0] == 0x45 && Finish(WordSum(h)) != 0
    ensures ParseIp(h + rest) == None
  {
    hide WordSum, Finish, Be16;
    assert (h + rest)[..IP_LEN] == h;
  }

  lemma IpHeadFields(protocol: byte, id: U16, total: U16)
    ensures var h := IpHead(protocol, id, total);
            && h[0] == 0x45 && Be16(h[2], h[3]) == total && Be16(h[4], h[5]) == id && Be16(h[6], h[7]) == 0x4000
            && h[8] == 64 && h[9] == protocol
  {
    hide Be16, Be16Bytes;
  }

  lemma IpFields(src: Ip, dst: Ip, protocol: byte, id: U16, total: U16, c: U16)
    ensures var h := IpBytes(src, dst, protocol, id, total, c);
            && h[0] == 0x45 && Be16(h[2], h[3]) == total && Be16(h[4], h[5]) == id && Be16(h[6], h[7]) == 0x4000
            && h[8] == 64 && h[9] == protocol && h[12..16] == src && h[16..20] == dst
  {
    hide IpHead, Be16, Be16Bytes;
    IpHeadFields(protocol, id, total);
  }

  // ---------- UDP ----------

  datatype UdpHeader = UdpHeader(srcPort: U16, dstPort: U16)

  function PseudoSum(src: Ip, dst: Ip, len: U16): nat
  {
    WordSum(src) + WordSum(dst) + PROTO_UDP + len
  }

  function UdpBytes(h: UdpHeader, len: U16, checksum: U16): (b: seq<byte>)
    ensures |b| == UDP_LEN
  {
    Be16Bytes(h.srcPort) + Be16Bytes(h.dstPort) + Be16Bytes(len) + Be16Bytes(checksum)
  }

  /** The length field: cut to 16 bits. */
  function UdpLength(payload: seq<byte>): (len: U16)
    ensures len <= UDP_LEN + |payload|
  {
    (UDP_LEN + |payload|) % 0x1_0000
  }

  /** The checksum over pseudo header and the first `len` octets of the segment; 0 is sent as 0xFFFF. */
  function UdpChecksum(src: Ip, dst: Ip, h: UdpHeader, len: U16, payload: seq<byte>): U16
    requires len <= UDP_LEN + |payload|
  {
    var c := Finish(PseudoSum(src, dst, len) + WordSum((UdpBytes(h, len, 0) + payload)[..len]));
    if c == 0 then 0xFFFF else c
  }

  function WrittenUdp(src: Ip, dst: Ip, h: UdpHeader, payload: seq<byte>): (b: seq<byte>)
    ensures |b| == UDP_LEN + |payload|
  {
    var len := UdpLength(payload);
    UdpBytes(h, len, UdpChecksum(src, dst, h, len, payload)) + payload
  }

  function ParseUdp(src: Ip, dst: Ip, segment: seq<byte>): Option<(UdpHeader, seq<byte>)>
  {
    if |segment| < UDP_LEN then None
    else
      var len := Be16(segment[4], segment[5]);
      if len < UDP_LEN || len > |segment| then None
      else
        var s := segment[..len];
        if Be16(s[6], s[7]) != 0 && Finish(PseudoSum(src, dst, len) + WordSum(s)) != 0 then None
        else Some((UdpHeader(Be16(s[0], s[1]), Be16(s[2], s[3])), s[UDP_LEN..]))
  }

  lemma UdpChecksumField(h: UdpHeader, len: U16, c: U16, payload: seq<byte>)
    ensures WordSum(UdpBytes(h, len, c) + payload) == WordSum(UdpBytes(h, len, 0) + payload) + c
  {
    hide WordSum, Be16Bytes;
    var a := Be16Bytes(h.srcPort) + Be16Bytes(h.dstPort) + Be16Bytes(len);
    FieldSum(a, c, payload);
  }

  /** The parser undoes the printer for payloads of either parity, checksum included. */
  lemma UdpRoundTrip(src: Ip, dst: Ip, h: UdpHeader, payload: seq<byte>)
    requires UDP_LEN + |payload| < 0x1_0000
    ensures ParseUdp(src, dst, WrittenUdp(src, dst, h, payload)) == Some((h, payload))
  {
    hide WordSum, Finish, PseudoSum, UdpBytes, ParseUdp;
    var len := UdpLength(payload);
    assert (UdpBytes(h, len, 0) + payload)[..len] == UdpBytes(h, len, 0) + payload;
    var c := UdpChecksum(src, dst, h, len, payload);
    UdpChecksumField(h, len, c, payload);
    ChecksumVerifiesIff(PseudoSum(src, dst, len) + WordSum(UdpBytes(h, len, 0) + payload), c);
    UdpFields(h, len, c);
    SegmentParses(src, dst, UdpBytes(h, len, c) + payload, []);
    assert UdpBytes(h, len, c) + payload + [] == UdpBytes(h, len, c) + payload;
  }

  /** A segment octet by octet; a zero checksum field means that there is none. */
  ghost predicate IsUdp(src: Ip, dst: Ip, s: seq<byte>, h: UdpHeader, payload: seq<byte>, trailer: seq<byte>, c: U16)
  {
    var len := 8 + |payload|;
    && len < 0x1_0000
    && var body := Be16Bytes(h.srcPort) + Be16Bytes(h.dstPort) + Be16Bytes(len) + Be16Bytes(c) + payload;
       s == body + trailer && (c == 0 || (WordSum(src) + WordSum(dst) + 17 + len + WordSum(body)) % 65535 == 0)
  }

  /** The parser accepts exactly the segments that verify or carry no checksum. */
  lemma ParseUdpIff(src: Ip, dst: Ip, s: seq<byte>, h: UdpHeader, payload: seq<byte>)
    ensures ParseUdp(src, dst, s) == Some((h, payload)) <==>
            exists trailer, c :: IsUdp(src, dst, s, h, payload, trailer, c)
  {
    hide ParseUdp, WordSum, Finish, Be16, Be16Bytes;
    if ParseUdp(src, dst, s) == Some((h, payload)) { ParsedUdp(src, dst, s, h, payload); }
    if trailer, c :| IsUdp(src, dst, s, h, payload, trailer, c) {
      var len := 8 + |payload|;
      var body := Be16Bytes(h.srcPort) + Be16Bytes(h.dstPort) + Be16Bytes(len) + Be16Bytes(c) + payload;
      assert s == body + trailer && body[8..] == payload;
      assert body[0..2] == Be16Bytes(h.srcPort) && body[2..4] == Be16Bytes(h.dstPort) && body[4..6] == Be16Bytes(len);
      assert body[6..8] == Be16Bytes(c);
      Be16Iff(body[0..2], h.srcPort); Be16Iff(body[2..4], h.dstPort); Be16Iff(body[4..6], len); Be16Iff(body[6..8], c);
      FinishZeroIff(PseudoSum(src, dst, len) + WordSum(body));
      SegmentParses(src, dst, body, trailer);
    }
  }

  lemma ParsedUdp(src: Ip, dst: Ip, s: seq<byte>, h: UdpHeader, payload: seq<byte>)
    requires ParseUdp(src, dst, s) == Some((h, payload))
    ensures exists trailer, c :: IsUdp(src, dst, s, h, payload, trailer, c)
  {
    hide WordSum, Finish, Be16, Be16Bytes;
    var len := Be16(s[4], s[5]);
    var c := Be16(s[6], s[7]);
    var b := s[..len];
    assert b[0..2] == s[0..2] && b[2..4] == s[2..4] && b[4..6] == s[4..6] && b[6..8] == s[6..8];
    Be16Iff(s[0..2], h.srcPort); Be16Iff(s[2..4], h.dstPort); Be16Iff(s[4..6], len); Be16Iff(s[6..8], c);
    assert b == s[0..2] + s[2..4] + s[4..6] + s[6..8] + payload;
    FinishZeroIff(PseudoSum(src, dst, len) + WordSum(b));
    assert s == b + s[len..];
    assert IsUdp(src, dst, s, h, payload, s[len..], c);
  }

  lemma SegmentParses(src: Ip, dst: Ip, body: seq<byte>, trailer: seq<byte>)
    requires UDP_LEN <= |body| < 0x1_0000 && Be16(body[4], body[5]) == |body|
    requires Be16(body[6], body[7]) == 0 || Finish(PseudoSum(src, dst, |body|) + WordSum(body)) == 0
    ensures ParseUdp(src, dst, body + trailer)
         == Some((UdpHeader(Be16(body[0], body[1]), Be16(body[2], body[3])), body[UDP_LEN..]))
  {
    hide WordSum, Finish, PseudoSum, Be16;
    assert (body + trailer)[..|body|] == body;
  }

  /** The segment with its checksum verifies, and the checksum is never sent as 0. */
  lemma WrittenUdpVerifies(src: Ip, dst: Ip, h: UdpHeader, payload: seq<byte>)
    requires UDP_LEN + |payload| < 0x1_0000
    ensures var s := WrittenUdp(src, dst, h, payload); var len := UDP_LEN + |payload|;
            && |s| == len && Be16(s[4], s[5]) == len && Be16(s[6], s[7]) != 0
            && Finish(PseudoSum(src, dst, len) + WordSum(s)) == 0
  {
    hide WordSum, Finish, PseudoSum, UdpBytes;
    var len := UdpLength(payload);
    assert (UdpBytes(h, len, 0) + payload)[..len] == UdpBytes(h, len, 0) + payload;
    var c := UdpChecksum(src, dst, h, len, payload);
    UdpFields(h, len, c);
    UdpChecksumField(h, len, c, payload);
    ChecksumVerifiesIff(PseudoSum(src, dst, len) + WordSum(UdpBytes(h, len, 0) + payload), c);
  }

  /** A segment with one octet of the ports or the payload altered is dropped. */
  lemma DamagedSegmentDropped(src: Ip, dst: Ip, h: UdpHeader, payload: seq<byte>, k: nat, x: byte)
    requires UDP_LEN + |payload| < 0x1_0000 && (k < 4 || 8 <= k < UDP_LEN + |payload|)
    requires x != WrittenUdp(src, dst, h, payload)[k]
    ensures ParseUdp(src, dst, WrittenUdp(src, dst, h, payload)[k := x]) == None
  {
    hide WordSum, Finish, PseudoSum, WrittenUdp, ParseUdp;
    var s, len := WrittenUdp(src, dst, h, payload), UDP_LEN + |payload|;
    WrittenUdpVerifies(src, dst, h, payload);
    assert s == s[..k] + [s[k]] + s[k + 1..] && s[k := x] == s[..k] + [x] + s[k + 1..];
    OctetSum(s[..k], s[k], s[k + 1..]);
    OctetSum(s[..k], x, s[k + 1..]);
    SmallChangeDetected(PseudoSum(src, dst, len) + WordSum(s), PseudoSum(src, dst, len) + WordSum(s[k := x]));
    UnverifiedSegment(src, dst, s[k := x]);
  }

  lemma UnverifiedSegment(src: Ip, dst: Ip, s: seq<byte>)
    requires UDP_LEN <= |s| < 0x1_0000 && Be16(s[4], s[5]) == |s| && Be16(s[6], s[7]) != 0
    requires Finish(PseudoSum(src, dst, |s|) + WordSum(s)) != 0
    ensures ParseUdp(src, dst, s) == None
  {
    hide WordSum, Finish, PseudoSum, Be16;
    assert s[..|s|] == s;
  }

  /** Under any other checksum than the one sent the segment is dropped, except under 0, which turns the
      check off. */
  lemma OnlyItsChecksumOrNone(src: Ip, dst: Ip, h: UdpHeader, payload: seq<byte>, c: U16)
    requires UDP_LEN + |payload| < 0x1_0000
    ensures ParseUdp(src, dst, UdpBytes(h, UDP_LEN + |payload|, c) + payload)
         == if c == 0 || c == UdpChecksum(src, dst, h, UDP_LEN + |payload|, payload) then Some((h, payload)) else None
  {
    hide WordSum, Finish, PseudoSum, UdpBytes, ParseUdp, Be16;
    var len := UDP_LEN + |payload|;
    var b := UdpBytes(h, len, c);
    UdpFields(h, len, c);
    assert (UdpBytes(h, len, 0) + payload)[..len] == UdpBytes(h, len, 0) + payload;
    UdpChecksumField(h, len, c, payload);
    ChecksumVerifiesIff(PseudoSum(src, dst, len) + WordSum(UdpBytes(h, len, 0) + payload), c);
    if c == 0 {
      Unchecked(src, dst, h, payload);
    } else if Finish(PseudoSum(src, dst, len) + WordSum(b + payload)) == 0 {
      assert b + payload + [] == b + payload;
      SegmentParses(src, dst, b + payload, []);
    } else {
      UnverifiedSegment(src, dst, b + payload);
    }
  }

  lemma Unchecked(src: Ip, dst: Ip, h: UdpHeader, payload: seq<byte>)
    requires UDP_LEN + |payload| < 0x1_0000
    ensures ParseUdp(src, dst, UdpBytes(h, UDP_LEN + |payload|, 0) + payload) == Some((h, payload))
  {
    hide ParseUdp, WordSum, UdpBytes, Be16;
    var s := UdpBytes(h, UDP_LEN + |payload|, 0) + payload;
    assert s + [] == s && s[UDP_LEN..] == payload;
    UdpFields(h, UDP_LEN + |payload|, 0);
    SegmentParses(src, dst, s, []);
  }

  lemma UdpFields(h: UdpHeader, len: U16, c: U16)
    ensures var b := UdpBytes(h, len, c);
            Be16(b[0], b[1]) == h.srcPort && Be16(b[2], b[3]) == h.dstPort && Be16(b[4], b[5]) == len
            && Be16(b[6], b[7]) == c
  {
    hide Be16, Be16Bytes;
  }

  // ---------- whole frames ----------

  const OVERHEAD: nat := ETH_LEN + IP_LEN + UDP_LEN

  /** The frame that carries `payload` from one node to another. */
  function FrameBytes(dstMac: Mac, srcMac: Mac, src: Ip, dst: Ip, h: UdpHeader, id: U16, payload: seq<byte>):
    (f: seq<byte>)
    requires OVERHEAD + |payload| <= MAX_FRAME
    ensures |f| == OVERHEAD + |payload|
  {
    EthBytes(EthHeader(dstMac, srcMac, ETHERTYPE_IPV4)) + WrittenIp(src, dst, PROTO_UDP, id, UDP_LEN + |payload|)
    + WrittenUdp(src, dst, h, payload)
  }

  /** `handle_frame` and `handle_ipv4`, up to the record they hand to QTLS. */
  function Receive(f: seq<byte>, myMac: Mac, myIp: Ip): Option<(Ip, UdpHeader, seq<byte>)>
  {
    match ParseEth(f)
    case None => None
    case Some((eth, packet)) =>
      if (eth.dst != myMac && eth.dst != BROADCAST) || eth.ethertype != ETHERTYPE_IPV4 then None
      else match ParseIp(packet)
        case None => None
        case Some((ip, segment)) =>
          if ip.dst != myIp || ip.protocol != PROTO_UDP then None
          else match ParseUdp(ip.src, ip.dst, segment)
            case None => None
            case Some((udp, rec)) => Some((ip.src, udp, rec))
  }

  /** Big-endian, high octet first. */
  predicate IsBe16(s: seq<byte>, x: nat) { |s| == 2 && x == 256 * (s[0] as int) + s[1] }

  /** A frame octet by octet. */
  lemma FrameLayout(dstMac: Mac, srcMac: Mac, src: Ip, dst: Ip, h: UdpHeader, id: U16, payload: seq<byte>)
    requires OVERHEAD + |payload| <= MAX_FRAME
    ensures var f := FrameBytes(dstMac, srcMac, src, dst, h, id, payload);
            && f[..6] == dstMac && f[6..12] == srcMac && f[12..16] == [8, 0, 0x45, 0]
            && IsBe16(f[16..18], 28 + |payload|) && IsBe16(f[18..20], id) && f[20..24] == [0x40, 0, 64, 17]
            && f[26..30] == src && f[30..34] == dst
            && IsBe16(f[34..36], h.srcPort) && IsBe16(f[36..38], h.dstPort) && IsBe16(f[38..40], 8 + |payload|)
            && f[42..] == payload
            && Finish(WordSum(f[14..34])) == 0
            && !IsBe16(f[40..42], 0)
            && Finish(WordSum(src) + WordSum(dst) + 17 + (8 + |payload|) + WordSum(f[34..])) == 0
  {
    hide WordSum, Finish, EthBytes, WrittenIp, WrittenUdp;
    var eth := EthHeader(dstMac, srcMac, ETHERTYPE_IPV4);
    var e, udp := EthBytes(eth), WrittenUdp(src, dst, h, payload);
    var ip := WrittenIp(src, dst, PROTO_UDP, id, UDP_LEN + |payload|);
    var f := FrameBytes(dstMac, srcMac, src, dst, h, id, payload);
    EthLayout(eth);
    IpLayout(src, dst, PROTO_UDP, id, UDP_LEN + |payload|);
    UdpLayout(src, dst, h, payload);
    WrittenIpVerifies(src, dst, PROTO_UDP, id, UDP_LEN + |payload|);
    WrittenUdpVerifies(src, dst, h, payload);
    assert f[..14] == e && f[14..34] == ip && f[34..] == udp;
    assert f[..6] == e[..6] && f[6..12] == e[6..12] && f[12..14] == e[12..14] && f[14..16] == ip[..2];
    assert f[12..16] == f[12..14] + f[14..16];
    assert f[16..18] == ip[2..4] && f[18..20] == ip[4..6] && f[20..24] == ip[6..10];
    assert f[26..30] == ip[12..16] && f[30..34] == ip[16..20];
    assert f[34..36] == udp[..2] && f[36..38] == udp[2..4] && f[38..40] == udp[4..6] && f[40..42] == udp[6..8];
    assert f[42..] == udp[8..];
  }

  lemma EthLayout(h: EthHeader)
    requires h.ethertype == ETHERTYPE_IPV4
    ensures var e := EthBytes(h); e[..6] == h.dst && e[6..12] == h.src && e[12..14] == [8, 0]
  {}

  lemma IpLayout(src: Ip, dst: Ip, protocol: byte, id: U16, payloadLen: nat)
    requires IP_LEN + payloadLen < 0x1_0000
    ensures var p := WrittenIp(src, dst, protocol, id, payloadLen);
            && p[..2] == [0x45, 0] && IsBe16(p[2..4], 20 + payloadLen) && IsBe16(p[4..6], id)
            && p[6..10] == [0x40, 0, 64, protocol] && p[12..16] == src && p[16..20] == dst
  {
    hide WordSum, Finish, WrittenIp, IpBytes, IsBe16;
    var total := IP_LEN + payloadLen;
    var sum := WordSum(IpBytes(src, dst, protocol, id, total, 0));
    WrittenIpIs(src, dst, protocol, id, payloadLen);
    IpBytesLayout(src, dst, protocol, id, total, Finish(sum));
  }

  lemma IpBytesLayout(src: Ip, dst: Ip, protocol: byte, id: U16, total: U16, c: U16)
    ensures var p := IpBytes(src, dst, protocol, id, total, c);
            && p[..2] == [0x45, 0] && IsBe16(p[2..4], total) && IsBe16(p[4..6], id)
            && p[6..10] == [0x40, 0, 64, protocol] && p[12..16] == src && p[16..20] == dst
  {
    hide IpHead, Be16Bytes;
    var p, head := IpBytes(src, dst, protocol, id, total, c), IpHead(protocol, id, total);
    HeadLayout(protocol, id, total);
    assert p[..2] == head[..2] && p[2..4] == head[2..4] && p[4..6] == head[4..6] && p[6..10] == head[6..10];
  }

  lemma HeadLayout(protocol: byte, id: U16, total: U16)
    ensures var p := IpHead(protocol, id, total);
            && p[..2] == [0x45, 0] && IsBe16(p[2..4], total) && IsBe16(p[4..6], id)
            && p[6..10] == [0x40, 0, 64, protocol]
  {}

  lemma UdpLayout(src: Ip, dst: Ip, h: UdpHeader, payload: seq<byte>)
    requires UDP_LEN + |payload| < 0x1_0000
    ensures var s := WrittenUdp(src, dst, h, payload);
            && IsBe16(s[..2], h.srcPort) && IsBe16(s[2..4], h.dstPort) && IsBe16(s[4..6], 8 + |payload|)
            && s[8..] == payload
  {
    hide WordSum, Finish;
  }

  /** A node receives exactly what was sent to it, and nothing addressed elsewhere, whatever
      padding the link adds to the frame. */
  lemma FrameRoundTrip(dstMac: Mac, srcMac: Mac, src: Ip, dst: Ip, h: UdpHeader, id: U16, payload: seq<byte>,
                       trailer: seq<byte>, myMac: Mac, myIp: Ip)
    requires OVERHEAD + |payload| <= MAX_FRAME
    ensures Receive(FrameBytes(dstMac, srcMac, src, dst, h, id, payload) + trailer, myMac, myIp)
         == if (dstMac == myMac || dstMac == BROADCAST) && dst == myIp then Some((src, h, payload)) else None
  {
    hide EthBytes, ParseEth, WrittenIp, ParseIp, WrittenUdp, ParseUdp;
    var eth := EthHeader(dstMac, srcMac, ETHERTYPE_IPV4);
    var ip, udp := WrittenIp(src, dst, PROTO_UDP, id, UDP_LEN + |payload|), WrittenUdp(src, dst, h, payload);
    assert FrameBytes(dstMac, srcMac, src, dst, h, id, payload) + trailer == EthBytes(eth) + (ip + udp + trailer);
    ParseEthIff(EthBytes(eth) + (ip + udp + trailer), eth, ip + udp + trailer);
    IpRoundTrip(src, dst, PROTO_UDP, id, udp, trailer);
    UdpRoundTrip(src, dst, h, payload);
  }

  /** A frame damaged in one octet of the ethertype, of the IPv4 header after its first, of the ports or of
      the payload is dropped, whoever it was for. */
  lemma DamagedFrameDropped(dstMac: Mac, srcMac: Mac, src: Ip, dst: Ip, h: UdpHeader, id: U16, payload: seq<byte>,
                            trailer: seq<byte>, myMac: Mac, myIp: Ip, k: nat, x: byte)
    requires OVERHEAD + |payload| <= MAX_FRAME && k < OVERHEAD + |payload|
    requires x != FrameBytes(dstMac, srcMac, src, dst, h, id, payload)[k]
    requires 12 <= k < 14 || 15 <= k < 38 || 42 <= k
    ensures Receive(FrameBytes(dstMac, srcMac, src, dst, h, id, payload)[k := x] + trailer, myMac, myIp) == None
  {
    hide EthBytes, ParseEth, WrittenIp, ParseIp, WrittenUdp, ParseUdp;
    var eth := EthHeader(dstMac, srcMac, ETHERTYPE_IPV4);
    var e, udp := EthBytes(eth), WrittenUdp(src, dst, h, payload);
    var ip := WrittenIp(src, dst, PROTO_UDP, id, UDP_LEN + |payload|);
    var f := FrameBytes(dstMac, srcMac, src, dst, h, id, payload);
    if k < 14 {
      assert f[k := x] + trailer == e[k := x] + (ip + udp + trailer);
      OtherType(eth, ip + udp + trailer, k, x);
    } else if k < 34 {
      assert f[k := x] + trailer == e + (ip[k - 14 := x] + udp + trailer);
      ParseEthIff(e + (ip[k - 14 := x] + udp + trailer), eth, ip[k - 14 := x] + udp + trailer);
      DamagedHeaderDropped(src, dst, PROTO_UDP, id, udp, trailer, k - 14, x);
    } else {
      assert f[k := x] + trailer == e + (ip + udp[k - 34 := x] + trailer);
      ParseEthIff(e + (ip + udp[k - 34 := x] + trailer), eth, ip + udp[k - 34 := x] + trailer);
      IpRoundTrip(src, dst, PROTO_UDP, id, udp[k - 34 := x], trailer);
      DamagedSegmentDropped(src, dst, h, payload, k - 34, x);
    }
  }

  lemma OtherType(h: EthHeader, rest: seq<byte>, k: nat, x: byte)
    requires 12 <= k < 14 && h.ethertype == ETHERTYPE_IPV4 && x != EthBytes(h)[k]
    ensures var p := ParseEth(EthBytes(h)[k := x] + rest); p.Some? && p.value.0.ethertype != ETHERTYPE_IPV4
  {}

  /** Every QTLS record fits a frame. */
  lemma RecordsFit(payload: seq<byte>)
    requires |payload| <= MAX_RECORD_LEN
    ensures OVERHEAD + |payload| <= MAX_FRAME
  {}

  // ---------- the methods ----------

  method WriteEth(h: EthHeader, out: array<byte>)
    requires out.Length >= ETH_LEN
    modifies out
    ensures out[..] == Splice(old(out[..]), 0, EthBytes(h))
  {
    CopyInto(out, 0, h.dst);
    CopyInto(out, 6, h.src);
    CopyInto(out, 12, Be16Bytes(h.ethertype));
  }

  /** Writes the header with a zero checksum, sums it, and stores the checksum. */
  method WriteIp(src: Ip, dst: Ip, protocol: byte, id: U16, payloadLen: nat, out: array<byte>, at: nat)
    requires at + IP_LEN <= out.Length
    modifies out
    ensures out[..] == Splice(old(out[..]), at, WrittenIp(src, dst, protocol, id, payloadLen))
  {
    hide WordSum, Finish, Be16Bytes, IpHead, Splice;
    ghost var s := out[..];
    var total := (IP_LEN + payloadLen) % 0x1_0000;
    var head := IpHead(protocol, id, total);
    CopyInto(out, at, head);
    CopyInto(out, at + 10, Be16Bytes(0));
    CopyInto(out, at + 12, src + dst);
    SpliceAdjacent(s, at, head, Be16Bytes(0));
    SpliceAdjacent(s, at, head + Be16Bytes(0), src + dst);
    WordSumBound(out[at..at + IP_LEN]);
    var sum := ChecksumAdd(0, out[at..at + IP_LEN]);
    var c := ChecksumFinish(sum);
    SpliceWithin(s, at, head, Be16Bytes(0), src + dst, Be16Bytes(c));
    CopyInto(out, at + 10, Be16Bytes(c));
  }

  /** The UDP header, with a zero checksum, in front of a payload already in place. */
  method BlankUdp(h: UdpHeader, len: U16, payload: seq<byte>, out: array<byte>, at: nat)
    requires at + UDP_LEN + |payload| <= out.Length
    requires out[at + UDP_LEN..at + UDP_LEN + |payload|] == payload
    modifies out
    ensures out[..] == Splice(old(out[..]), at, UdpBytes(h, len, 0) + payload)
  {
    hide Be16Bytes, Splice;
    ghost var s := out[..];
    assert s == Splice(s, at + UDP_LEN, payload) by { SpliceSame(s, at + UDP_LEN, payload); }
    var head := Be16Bytes(h.srcPort) + Be16Bytes(h.dstPort) + Be16Bytes(len);
    CopyInto(out, at, head);
    CopyInto(out, at + 6, Be16Bytes(0));
    SpliceAdjacent(s, at, head, Be16Bytes(0));
    SpliceBefore(s, at, head + Be16Bytes(0), payload);
  }

  /** Fills in the UDP header in front of a payload already in place. */
  method FinishUdp(h: UdpHeader, src: Ip, dst: Ip, payload: seq<byte>, out: array<byte>, at: nat) returns (len: nat)
    requires at + UDP_LEN + |payload| <= out.Length
    requires out[at + UDP_LEN..at + UDP_LEN + |payload|] == payload
    modifies out
    ensures len == UdpLength(payload)
    ensures out[..] == Splice(old(out[..]), at, WrittenUdp(src, dst, h, payload))
  {
    hide WordSum, Finish, Be16Bytes, Splice, UdpBytes;
    ghost var s := out[..];
    len := (UDP_LEN + |payload|) % 0x1_0000;
    BlankUdp(h, len, payload, out, at);
    SplicedPart(s, at, UdpBytes(h, len, 0) + payload, len);
    assert out[at..at + len] == out[..][at..at + len];
    SumFits(src, dst, out[at..at + len]);
    var sum := ChecksumAdd(0, src);
    sum := ChecksumAdd(sum, dst);
    sum := sum + PROTO_UDP + len;
    sum := ChecksumAdd(sum, out[at..at + len]);
    var c := ChecksumFinish(sum);
    if c == 0 { c := 0xFFFF; }
    UdpFilled(s, at, h, len, payload, c);
    CopyInto(out, at + 6, Be16Bytes(c));
  }

  lemma UdpFilled(s: seq<byte>, at: nat, h: UdpHeader, len: U16, payload: seq<byte>, c: U16)
    requires at + UDP_LEN + |payload| <= |s|
    ensures Splice(Splice(s, at, UdpBytes(h, len, 0) + payload), at + 6, Be16Bytes(c)) ==
              Splice(s, at, UdpBytes(h, len, c) + payload)
  {
    hide Be16Bytes, Splice;
    SpliceWithin(s, at, Be16Bytes(h.srcPort) + Be16Bytes(h.dstPort) + Be16Bytes(len), Be16Bytes(0), payload,
                 Be16Bytes(c));
  }

  lemma SpliceSame(s: seq<byte>, at: nat, d: seq<byte>)
    requires at + |d| <= |s| && s[at..at + |d|] == d
    ensures Splice(s, at, d) == s
  {}

  lemma SpliceBefore(s: seq<byte>, at: nat, a: seq<byte>, b: seq<byte>)
    requires at + |a| + |b| <= |s| && s[at + |a|..at + |a| + |b|] == b
    ensures Splice(s, at, a) == Splice(s, at, a + b)
  {
    SpliceAdjacent(s, at, a, b);
    SpliceSame(Splice(s, at, a), at + |a|, b);
  }

  lemma SplicedPart(s: seq<byte>, at: nat, d: seq<byte>, n: nat)
    requires at + |d| <= |s| && n <= |d|
    ensures Splice(s, at, d)[at..at + n] == d[..n]
  {}

  /** The 32-bit accumulator cannot overflow on any segment. */
  lemma SumFits(src: Ip, dst: Ip, segment: seq<byte>)
    requires |segment| < 0x1_0000
    ensures PseudoSum(src, dst, |segment|) + WordSum(segment) < 0x1_0000_0000
  {
    WordSumBound(src);
    WordSumBound(dst);
    WordSumBound(segment);
  }

  /** The four writes that make a frame. */
  lemma LaidOut(z: seq<byte>, eth: seq<byte>, ip: seq<byte>, udp: seq<byte>, payload: seq<byte>)
    requires |eth| == ETH_LEN && |ip| == IP_LEN && |udp| == UDP_LEN + |payload| && OVERHEAD + |payload| <= |z|
    ensures var t := Splice(Splice(Splice(z, 0, eth), OVERHEAD, payload), ETH_LEN + IP_LEN, udp);
            Splice(t, ETH_LEN, ip)[..OVERHEAD + |payload|] == eth + ip + udp
  {
    var total := OVERHEAD + |payload|;
    var s := Splice(Splice(z, 0, eth), OVERHEAD, payload);
    assert s[..ETH_LEN] == eth by { assert Splice(z, 0, eth)[..ETH_LEN] == eth; }
    var t := Splice(s, ETH_LEN + IP_LEN, udp);
    assert t[..ETH_LEN] == eth && t[ETH_LEN + IP_LEN..total] == udp;
    var r := Splice(t, ETH_LEN, ip);
    assert r[..ETH_LEN] == eth && r[ETH_LEN + IP_LEN..total] == udp;
    assert r[..total] == r[..ETH_LEN] + r[ETH_LEN..ETH_LEN + IP_LEN] + r[ETH_LEN + IP_LEN..total];
  }

  /** Builds the frame that is handed to the device. */
  method SendUdp(dstMac: Mac, srcMac: Mac, src: Ip, dst: Ip, h: UdpHeader, id: U16, payload: seq<byte>)
    returns (r: Result<seq<byte>, NetError>)
    ensures r == if OVERHEAD + |payload| > MAX_FRAME then Err(PayloadTooLarge)
                 else Ok(FrameBytes(dstMac, srcMac, src, dst, h, id, payload))
  {
    hide EthBytes, WrittenIp, WrittenUdp, Splice;
    var total := OVERHEAD + |payload|;
    if total > MAX_FRAME { return Err(PayloadTooLarge); }
    var f := new byte[MAX_FRAME](_ => 0);
    LaidOut(f[..], EthBytes(EthHeader(dstMac, srcMac, ETHERTYPE_IPV4)),
            WrittenIp(src, dst, PROTO_UDP, id, UDP_LEN + |payload|),
            WrittenUdp(src, dst, h, payload), payload);
    WriteEth(EthHeader(dstMac, srcMac, ETHERTYPE_IPV4), f);
    CopyInto(f, OVERHEAD, payload);
    var udpLen := FinishUdp(h, src, dst, payload, f, ETH_LEN + IP_LEN);
    WriteIp(src, dst, PROTO_UDP, id, udpLen, f, ETH_LEN);
    return Ok(f[..total]);
  }
}
