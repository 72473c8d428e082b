/** Octet strings and their little- and big-endian readings. */
module Bytes {
  import opened Bits

  type byte = x: int | 0 <= x < 256
  type U16 = x: int | 0 <= x < 0x1_0000
  type U32 = x: int | 0 <= x < 0x1_0000_0000
  type U64 = x: int | 0 <= x < 0x1_0000_0000_0000_0000

  const TWO64: nat := 0x1_0000_0000_0000_0000
  const TWO128: nat := 0x1_0000_0000_0000_0000_0000_0000_0000_0000

  function WrappingAdd(a: U64, b: U64): U64 { (a + b) % TWO64 }

  function SaturatingSub(x: nat, y: nat): nat { if x >= y then x - y else 0 }

  function Zeros(n: nat): (z: seq<byte>)
    ensures |z| == n
  {
    seq(n, _ => 0)
  }

  function LE(b: seq<byte>): nat
  {
    if b == [] then 0 else b[0] + 256 * LE(b[1..])
  }

  function ToLE(x: nat, len: nat): (b: seq<byte>)
    ensures |b| == len
  {
    if len == 0 then [] else [x % 256] + ToLE(x / 256, len - 1)
  }

  function BE(b: seq<byte>): nat
  {
    if b == [] then 0 else 256 * BE(b[..|b| - 1]) + b[|b| - 1]
  }

  function ToBE(x: nat, len: nat): (b: seq<byte>)
    ensures |b| == len
  {
    if len == 0 then [] else ToBE(x / 256, len - 1) + [x % 256]
  }

  function Be16(hi: byte, lo: byte): U16 { 256 * hi + lo }

  function Be16Bytes(x: U16): (b: seq<byte>)
    ensures |b| == 2 && Be16(b[0], b[1]) == x
  {
    [x / 256, x % 256]
  }

  lemma Be16Iff(b: seq<byte>, x: U16)
    requires |b| == 2
    ensures Be16(b[0], b[1]) == x <==> b == Be16Bytes(x)
  {}

  lemma {:induction false} ToLEOfLE(b: seq<byte>)
    ensures ToLE(LE(b), |b|) == b
  {
    if b != [] {
      FirstOctet(b[0], LE(b[1..]));
      ToLEOfLE(b[1..]);
    }
  }

  lemma FirstOctet(x: byte, n: nat)
    ensures (x + 256 * n) % 256 == x && (x + 256 * n) / 256 == n
  {
    QuotientUnique(x + 256 * n, 256, n, x);
  }

  lemma {:induction false} LEOfToLE(x: nat, len: nat)
    requires x < Pow2(8 * len)
    ensures LE(ToLE(x, len)) == x
  {
    if len > 0 {
      Pow2Eight(len - 1);
      LEOfToLE(x / 256, len - 1);
    }
  }

  /** Octet `i` of the little-endian printing weighs 2^(8 i); the big-endian one has it at the other end. */
  lemma {:induction false} OctetAt(x: nat, len: nat, i: nat)
    requires i < len
    ensures ToLE(x, len)[i] == x / Pow2(8 * i) % 256 == ToBE(x, len)[len - 1 - i]
  {
    if i > 0 {
      OctetAt(x / 256, len - 1, i - 1);
      Pow2Eight(i - 1);
      DivDiv(x, 256, Pow2(8 * (i - 1)));
    }
  }

  lemma {:induction false} BEOfToBE(x: nat, len: nat)
    requires x < Pow2(8 * len)
    ensures BE(ToBE(x, len)) == x
  {
    if len > 0 {
      Pow2Eight(len - 1);
      BEOfToBE(x / 256, len - 1);
      var b := ToBE(x, len);
      assert b[..|b| - 1] == ToBE(x / 256, len - 1);
    }
  }

  lemma {:induction false} ToBEOfBE(b: seq<byte>)
    ensures ToBE(BE(b), |b|) == b
  {
    if b != [] { ToBEOfBE(b[..|b| - 1]); }
  }

  lemma {:induction false} BEBound(b: seq<byte>)
    ensures BE(b) < Pow2(8 * |b|)
  {
    if b != [] {
      BEBound(b[..|b| - 1]);
      Pow2Eight(|b| - 1);
    }
  }

  lemma Pow2Eight(n: nat)
    ensures Pow2(8 * (n + 1)) == 256 * Pow2(8 * n)
  {
    Pow2Add(8, 8 * n);
    assert Pow2(8) == 256;
  }

  lemma {:induction false} LEBound(b: seq<byte>)
    ensures LE(b) < Pow2(8 * |b|)
  {
    if b != [] {
      LEBound(b[1..]);
      Pow2Eight(|b| - 1);
    }
  }

  lemma {:induction false} LEAppend(a: seq<byte>, b: seq<byte>)
    ensures LE(a + b) == LE(a) + Pow2(8 * |a|) * LE(b)
  {
    if a == [] {
      assert a + b == b;
    } else {
      assert (a + b)[1..] == a[1..] + b;
      LEAppend(a[1..], b);
      Pow2Eight(|a| - 1);
      Assoc(256, Pow2(8 * (|a| - 1)), LE(b));
      Distribute(256, LE(a[1..]), Pow2(8 * (|a| - 1)) * LE(b));
    }
  }

  lemma {:induction false} LEZeros(n: nat)
    ensures LE(Zeros(n)) == 0
  {
    if n > 0 {
      assert Zeros(n)[1..] == Zeros(n - 1);
      LEZeros(n - 1);
    }
  }

  /** Octet-wise AND is AND of the little-endian readings. */
  lemma {:induction false} LEAnd(x: seq<byte>, m: seq<byte>, y: seq<byte>)
    requires |x| == |m| == |y|
    requires forall i :: 0 <= i < |x| ==> y[i] == And(x[i], m[i])
    ensures LE(y) == And(LE(x), LE(m))
  {
    if x != [] {
      LEAnd(x[1..], m[1..], y[1..]);
      assert Pow2(8) == 256;
      AndParts(x[0], LE(x[1..]), m[0], LE(m[1..]), 8);
    }
  }

  function XorByte(a: byte, b: byte): byte
  {
    assert Pow2(8) == 256;
    XorBound(a, b, 8);
    Xor(a, b)
  }

  /** The one-time pad: octet-wise XOR of a text and a pad of the same length. */
  function XorBytes(text: seq<byte>, pad: seq<byte>): (r: seq<byte>)
    requires |text| == |pad|
    ensures |r| == |text|
  {
    seq(|text|, i requires 0 <= i < |text| => XorByte(text[i], pad[i]))
  }

  lemma XorBytesTwice(text: seq<byte>, pad: seq<byte>)
    requires |text| == |pad|
    ensures XorBytes(XorBytes(text, pad), pad) == text
  {
    var once := XorBytes(text, pad);
    var twice := XorBytes(once, pad);
    forall i | 0 <= i < |text| ensures twice[i] == text[i] {
      XorInvolution(text[i], pad[i]);
    }
  }

  function Le64(b: seq<byte>): U64
    requires |b| == 8
  {
    LEBound(b);
    Pow2Words();
    LE(b)
  }

  function Le32(b: seq<byte>): U32
    requires |b| == 4
  {
    LEBound(b);
    Pow2Words();
    LE(b)
  }

  // ---------- buffers ----------

  /** `s` with `d` written over it from `at` on. */
  function Splice(s: seq<byte>, at: nat, d: seq<byte>): (t: seq<byte>)
    requires at + |d| <= |s|
    ensures |t| == |s| && t[at..at + |d|] == d
  {
    s[..at] + d + s[at + |d|..]
  }

  lemma SpliceAdjacent(s: seq<byte>, at: nat, a: seq<byte>, b: seq<byte>)
    requires at + |a| + |b| <= |s|
    ensures Splice(Splice(s, at, a), at + |a|, b) == Splice(s, at, a + b)
  {}

  lemma SpliceWithin(s: seq<byte>, at: nat, a: seq<byte>, x: seq<byte>, b: seq<byte>, y: seq<byte>)
    requires |x| == |y| && at + |a| + |x| + |b| <= |s|
    ensures Splice(Splice(s, at, a + x + b), at + |a|, y) == Splice(s, at, a + y + b)
  {}

  /** `copy_from_slice` into `out[at..]`. */
  method CopyInto(out: array<byte>, at: nat, data: seq<byte>)
    requires at + |data| <= out.Length
    modifies out
    ensures out[..] == Splice(old(out[..]), at, data)
  {
    forall i | 0 <= i < |data| { out[at + i] := data[i]; }
  }
}
