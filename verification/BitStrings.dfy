/** Bit addressing in octet buffers (bit `i` is bit `i % 8` of octet `i / 8`), and counting bits. */
module BitStrings {
  import opened Bits
  import opened Bytes

  /** `get_bit`: shift and mask. */
  function GetBit(buf: seq<byte>, i: nat): (r: byte)
    requires i / 8 < |buf|
    ensures r == 0 || r == 1
  {
    buf[i / 8] / Pow2(i % 8) % 2
  }

  /** `flip_bit`: XOR with a shifted one. */
  function FlipBit(buf: seq<byte>, i: nat): (r: seq<byte>)
    requires i / 8 < |buf|
    ensures |r| == |buf|
  {
    Pow2Monotone(i % 8, 7);
    assert Pow2(7) == 128;
    buf[i / 8 := XorByte(buf[i / 8], Pow2(i % 8))]
  }

  /** The buffer as a string of bits. */
  function BitsOf(buf: seq<byte>): (x: seq<bool>)
    ensures |x| == 8 * |buf|
  {
    seq(8 * |buf|, i requires 0 <= i < 8 * |buf| => Bit(buf[i / 8], i % 8))
  }

  lemma GetBitIs(buf: seq<byte>, i: nat)
    requires i < 8 * |buf|
    ensures GetBit(buf, i) == if BitsOf(buf)[i] then 1 else 0
  {
    BitIsShift(buf[i / 8], i % 8);
  }

  /** A flip inverts the addressed bit and no other. */
  lemma FlipBitIs(buf: seq<byte>, i: nat)
    requires i < 8 * |buf|
    ensures BitsOf(FlipBit(buf, i)) == BitsOf(buf)[i := !BitsOf(buf)[i]]
  {
    var flipped := FlipBit(buf, i);
    forall j | 0 <= j < 8 * |buf| ensures BitsOf(flipped)[j] == BitsOf(buf)[i := !BitsOf(buf)[i]][j] {
      if j / 8 == i / 8 {
        BitXor(buf[i / 8], Pow2(i % 8), j % 8);
        BitPow2(i % 8, j % 8);
        assert j == 8 * (j / 8) + j % 8 && i == 8 * (i / 8) + i % 8;
      }
    }
  }

  /** Buffers are equal when their bits are. */
  lemma BitsDetermine(a: seq<byte>, b: seq<byte>)
    requires |a| == |b| && BitsOf(a) == BitsOf(b)
    ensures a == b
  {
    forall k | 0 <= k < |a| ensures a[k] == b[k] {
      forall i | 0 <= i < 8 ensures Bit(a[k], i) == Bit(b[k], i) {
        assert BitsOf(a)[8 * k + i] == BitsOf(b)[8 * k + i];
        assert (8 * k + i) / 8 == k && (8 * k + i) % 8 == i;
      }
      assert Pow2(8) == 256;
      SameBits(a[k], b[k], 8);
    }
  }

  lemma {:induction false} SameBits(x: nat, y: nat, n: nat)
    requires x < Pow2(n) && y < Pow2(n)
    requires forall i :: 0 <= i < n ==> Bit(x, i) == Bit(y, i)
    ensures x == y
  {
    if n > 0 {
      assert Bit(x, 0) == Bit(y, 0);
      forall i | 0 <= i < n - 1 ensures Bit(x / 2, i) == Bit(y / 2, i) {
        assert Bit(x, i + 1) == Bit(y, i + 1);
      }
      SameBits(x / 2, y / 2, n - 1);
    }
  }

  /** `flip_bit` on the buffer itself. */
  method FlipInPlace(buf: array<byte>, i: nat)
    requires i < 8 * buf.Length
    modifies buf
    ensures BitsOf(buf[..]) == old(BitsOf(buf[..]))[i := !old(BitsOf(buf[..]))[i]]
  {
    hide BitsOf;
    FlipBitIs(buf[..], i);
    ghost var flipped := FlipBit(buf[..], i);
    FlipMask(i % 8);
    buf[i / 8] := XorByte(buf[i / 8], Pow2(i % 8));
    assert buf[..] == flipped;
  }

  lemma FlipMask(k: nat)
    requires k < 8
    ensures Pow2(k) < 256
  {
    Pow2Monotone(k, 7);
    assert Pow2(7) == 128;
  }

  // ---------- binary numbers ----------

  /** The number whose binary digits, lowest first, are `x`. */
  function Number(x: seq<bool>): nat
  {
    if x == [] then 0 else (if x[0] then 1 else 0) + 2 * Number(x[1..])
  }

  /** Binary digits `k` to `k + n` of `v`, lowest first. */
  function Digits(v: nat, k: nat, n: nat): (x: seq<bool>)
    ensures |x| == n
  {
    seq(n, j requires 0 <= j < n => Bit(v, k + j))
  }

  lemma {:induction false} DigitsMake(v: nat, n: nat)
    ensures Number(Digits(v, 0, n)) == v % Pow2(n)
    decreases n
  {
    if n > 0 {
      DigitsMake(v / 2, n - 1);
      assert Digits(v, 0, n)[1..] == Digits(v / 2, 0, n - 1);
      ModTwice(v, Pow2(n - 1));
    }
  }

  /** A buffer's bits are the binary digits of its little-endian reading, lowest first. */
  lemma {:induction false} BitsAreDigits(buf: seq<byte>)
    ensures Number(BitsOf(buf)) == LE(buf)
  {
    if buf != [] {
      hide BitsOf, Number, Pow2;
      BitsSplit(buf);
      NumberAppend(BitsOf(buf[..1]), BitsOf(buf[1..]));
      OctetDigits(buf[..1]);
      BitsAreDigits(buf[1..]);
    } else {
      assert BitsOf(buf) == [];
    }
  }

  lemma OctetDigits(buf: seq<byte>)
    requires |buf| == 1
    ensures Number(BitsOf(buf)) == buf[0] && Pow2(8) == 256
  {
    hide Bit, Number, Pow2, Digits, BitsOf;
    DigitsMake(buf[0], 8);
    Pow2Words();
    SmallMod(buf[0], Pow2(8));
    OctetBits(buf);
  }

  lemma OctetBits(buf: seq<byte>)
    requires |buf| == 1
    ensures BitsOf(buf) == Digits(buf[0], 0, 8)
  {
    hide Bit;
  }

  lemma BitsSplit(buf: seq<byte>)
    requires buf != []
    ensures BitsOf(buf) == BitsOf(buf[..1]) + BitsOf(buf[1..])
  {
    hide Bit;
  }

  lemma {:induction false} NumberAppend(x: seq<bool>, y: seq<bool>)
    ensures Number(x + y) == Number(x) + Pow2(|x|) * Number(y)
  {
    if x == [] {
      assert x + y == y;
    } else {
      assert (x + y)[1..] == x[1..] + y;
      NumberAppend(x[1..], y);
      Assoc(2, Pow2(|x| - 1), Number(y));
    }
  }

  // ---------- counting ----------

  /** How many bits are set. */
  function Count(v: seq<bool>): (n: nat)
    ensures n <= |v|
  {
    if v == [] then 0 else Count(v[..|v| - 1]) + if v[|v| - 1] then 1 else 0
  }

  function Differ(x: seq<bool>, y: seq<bool>): (d: seq<bool>)
    requires |x| == |y|
    ensures |d| == |x|
  {
    seq(|x|, i requires 0 <= i < |x| => x[i] != y[i])
  }

  lemma {:induction false} CountAppend(u: seq<bool>, v: seq<bool>)
    ensures Count(u + v) == Count(u) + Count(v)
  {
    if v == [] {
      assert u + v == u;
    } else {
      assert (u + v)[..|u + v| - 1] == u + v[..|v| - 1];
      CountAppend(u, v[..|v| - 1]);
    }
  }

  lemma CountSplit(v: seq<bool>, lo: nat, mid: nat, hi: nat)
    requires lo <= mid <= hi <= |v|
    ensures Count(v[lo..hi]) == Count(v[lo..mid]) + Count(v[mid..hi])
  {
    assert v[lo..hi] == v[lo..mid] + v[mid..hi];
    CountAppend(v[lo..mid], v[mid..hi]);
  }

  lemma CountOne(v: seq<bool>, i: nat)
    requires i < |v|
    ensures Count(v[i..i + 1]) == if v[i] then 1 else 0
  {
    assert v[i..i + 1][..0] == [];
  }

  lemma CountNext(v: seq<bool>, lo: nat, i: nat)
    requires lo <= i < |v|
    ensures Count(v[lo..i + 1]) == Count(v[lo..i]) + if v[i] then 1 else 0
  {
    hide Count;
    CountSplit(v, lo, i, i + 1);
    CountOne(v, i);
  }

  /** Clearing a set bit lowers the count by one. */
  lemma CountClear(v: seq<bool>, i: nat)
    requires i < |v| && v[i]
    ensures Count(v[i := false]) == Count(v) - 1
  {
    var w := v[i := false];
    CountSplit(v, 0, i, |v|); CountSplit(v, i, i + 1, |v|);
    CountSplit(w, 0, i, |w|); CountSplit(w, i, i + 1, |w|);
    CountOne(v, i); CountOne(w, i);
    assert v[0..|v|] == v && w[0..|w|] == w;
    assert v[0..i] == w[0..i] && v[i + 1..|v|] == w[i + 1..|w|];
  }

  lemma {:induction false} CountZero(v: seq<bool>)
    ensures Count(v) == 0 <==> forall i :: 0 <= i < |v| ==> !v[i]
  {
    if v != [] {
      var w := v[..|v| - 1];
      CountZero(w);
      assert v == w + [v[|v| - 1]];
      if Count(v) == 0 {
        forall i | 0 <= i < |v| ensures !v[i] {
          if i < |w| { assert !w[i]; }
        }
      } else if !v[|v| - 1] {
        var i :| 0 <= i < |w| && w[i];
        assert v[i];
      }
    }
  }

  /** The parity of the differences is the difference of the parities. */
  lemma {:induction false} CountDiffer(x: seq<bool>, y: seq<bool>)
    requires |x| == |y|
    ensures (Count(x) + Count(y) + Count(Differ(x, y))) % 2 == 0
  {
    if x != [] {
      var n := |x| - 1;
      assert Differ(x, y)[..n] == Differ(x[..n], y[..n]);
      CountDiffer(x[..n], y[..n]);
    }
  }
}
