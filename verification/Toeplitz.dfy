/** Privacy amplification: a Toeplitz matrix over GF(2), its diagonals drawn from a public seed. */
module Toeplitz {
  import opened Bits
  import opened Bytes
  import opened BitStrings

  const KEY_BLOCK_BYTES: nat := 256
  const KEY_BLOCK_BITS: nat := 2048
  const RAW_BYTES: nat := 512
  const RAW_BITS: nat := 4096
  const SEED_BITS: nat := 6143
  const SEED_BYTES: nat := 768
  const PA_SEED: U64 := 0x5144_4E5F_5041_3031

  // ---------- the public seed ----------

  function Xor64(a: U64, b: U64): (r: U64)
  {
    Pow2Words();
    XorBound(a, b, 64);
    Xor(a, b)
  }

  function Shl64(x: U64, k: nat): U64
  {
    var y: nat := Shl(x, k);
    y % TWO64
  }

  function Shr64(x: U64, k: nat): U64
  {
    var d := Pow2(k);
    DivBound(x, d);
    x / d
  }

  lemma DivBound(x: nat, d: nat)
    requires d > 0
    ensures 0 <= x / d <= x
  {
    var q := x / d;
    assert x == d * q + x % d;
    assert d * q >= q by { MulMono(q, 1, d); Commute(q, d); }
  }

  lemma Commute(a: int, b: int)
    ensures a * b == b * a
  {}

  /** One step of xorshift64. */
  function XorShift(x: U64): U64
  {
    var y := Xor64(x, Shl64(x, 13));
    var z := Xor64(y, Shr64(y, 7));
    Xor64(z, Shl64(z, 17))
  }

  function StateAfter(n: nat): U64
  {
    if n == 0 then PA_SEED else XorShift(StateAfter(n - 1))
  }

  /** The first `n` eight-octet words of the seed. */
  function SeedWords(n: nat): (s: seq<byte>)
    ensures |s| == 8 * n
  {
    if n == 0 then [] else SeedWords(n - 1) + ToLE(StateAfter(n), 8)
  }

  function Seed(): (s: seq<byte>)
    ensures |s| == SEED_BYTES
  {
    SeedWords(SEED_BYTES / 8)
  }

  method GenerateSeed() returns (seed: seq<byte>)
    ensures seed == Seed()
  {
    hide XorShift;
    seed := [];
    var state := PA_SEED;
    for i := 0 to SEED_BYTES / 8
      invariant seed == SeedWords(i) && state == StateAfter(i)
    {
      state := XorShift(state);
      seed := seed + ToLE(state, 8);
    }
  }

  /** Bit `i` of `y` is bit `i` of `x` added to the one `k` places below it, if there is one. */
  predicate UpAt(x: U64, y: U64, k: nat, i: nat)
  {
    Bit(y, i) <==> (Bit(x, i) != (i >= k && Bit(x, i - k)))
  }

  /** The same with the bit `k` places above. */
  predicate DownAt(x: U64, y: U64, k: nat, i: nat)
  {
    Bit(y, i) <==> (Bit(x, i) != Bit(x, i + k))
  }

  ghost predicate MixedUp(x: U64, y: U64, k: nat) { forall i :: 0 <= i < 64 ==> UpAt(x, y, k, i) }

  ghost predicate MixedDown(x: U64, y: U64, k: nat) { forall i :: 0 <= i < 64 ==> DownAt(x, y, k, i) }

  lemma ShlMixes(x: U64, y: U64, k: nat)
    ensures y == Xor64(x, Shl64(x, k)) <==> MixedUp(x, y, k)
  {
    hide Pow2, Shl, Bit, Xor64, Shl64;
    Pow2Words();
    var r := Xor64(x, Shl64(x, k));
    forall i | 0 <= i < 64 ensures UpAt(x, r, k, i) { ShlBits(x, k, i); }
    if MixedUp(x, y, k) {
      forall i | 0 <= i < 64 ensures Bit(y, i) == Bit(r, i) {
        assert UpAt(x, y, k, i) && UpAt(x, r, k, i);
      }
      SameBits(y, r, 64);
    }
  }

  lemma ShlBits(x: U64, k: nat, i: nat)
    requires i < 64
    ensures UpAt(x, Xor64(x, Shl64(x, k)), k, i)
  {
    hide Bit, Pow2, Xor;
    Pow2Words();
    BitXor(x, Shl64(x, k), i);
    BitLow(Shl(x, k), 64, i);
    BitShl(x, k, i);
  }

  lemma ShrMixes(x: U64, y: U64, k: nat)
    ensures y == Xor64(x, Shr64(x, k)) <==> MixedDown(x, y, k)
  {
    hide Pow2, Xor, Bit;
    Pow2Words();
    var r := Xor64(x, Shr64(x, k));
    forall i | 0 <= i < 64 ensures DownAt(x, r, k, i) {
      BitXor(x, Shr64(x, k), i);
      BitShr(x, k, i);
    }
    if MixedDown(x, y, k) {
      forall i | 0 <= i < 64 ensures Bit(y, i) == Bit(r, i) {
        assert DownAt(x, y, k, i) && DownAt(x, r, k, i);
      }
      SameBits(y, r, 64);
    }
  }

  /** A step adds to every bit the one 13 places below, then the one 7 places above, then the one 17
      places below. */
  lemma XorShiftIs(x: U64, y: U64, z: U64, r: U64)
    requires MixedUp(x, y, 13) && MixedDown(y, z, 7)
    ensures r == XorShift(x) <==> MixedUp(z, r, 17)
  {
    hide MixedUp, MixedDown, Xor64, Shl64, Shr64;
    ShlMixes(x, y, 13);
    ShrMixes(y, z, 7);
    ShlMixes(z, r, 17);
  }

  /** No bit is lost: different states never meet. */
  lemma XorShiftInjective(x: U64, x': U64)
    requires XorShift(x) == XorShift(x')
    ensures x == x'
  {
    hide MixedUp, MixedDown, Xor64, Shl64, Shr64;
    var y, y' := Xor64(x, Shl64(x, 13)), Xor64(x', Shl64(x', 13));
    var z, z' := Xor64(y, Shr64(y, 7)), Xor64(y', Shr64(y', 7));
    ShlMixes(z, XorShift(x), 17); ShlMixes(z', XorShift(x), 17);
    UpDetermines(z, z', XorShift(x), 17);
    ShrMixes(y, z, 7); ShrMixes(y', z, 7);
    DownDetermines(y, y', z, 7);
    ShlMixes(x, y, 13); ShlMixes(x', y, 13);
    UpDetermines(x, x', y, 13);
  }

  lemma UpDetermines(x: U64, x': U64, y: U64, k: nat)
    requires MixedUp(x, y, k) && MixedUp(x', y, k) && k > 0
    ensures x == x'
  {
    hide Bit;
    for n := 0 to 64
      invariant forall i :: 0 <= i < n ==> Bit(x, i) == Bit(x', i)
    {
      assert UpAt(x, y, k, n) && UpAt(x', y, k, n);
    }
    Pow2Words();
    SameBits(x, x', 64);
  }

  lemma DownDetermines(x: U64, x': U64, y: U64, k: nat)
    requires MixedDown(x, y, k) && MixedDown(x', y, k) && k > 0
    ensures x == x'
  {
    hide Pow2, Bit;
    Pow2Words();
    for n := 64 downto 0
      invariant forall i :: n <= i < 64 ==> Bit(x, i) == Bit(x', i)
    {
      if n + k >= 64 { BitHigh(x, 64, n + k); BitHigh(x', 64, n + k); }
      assert DownAt(x, y, k, n) && DownAt(x', y, k, n);
    }
    SameBits(x, x', 64);
  }

  /** The generator never reaches the state from which it could not leave. */
  lemma {:induction false} StateNeverZero(n: nat)
    ensures StateAfter(n) != 0
  {
    hide XorShift;
    if n > 0 {
      StateNeverZero(n - 1);
      ZeroStays();
      if StateAfter(n) == 0 { XorShiftInjective(StateAfter(n - 1), 0); }
    }
  }

  lemma ZeroStays()
    ensures XorShift(0) == 0
  {
    assert Shl(0, 13) == 0 && Shl(0, 17) == 0;
    assert Shr64(0, 7) == 0;
  }

  /** Word `i` of the seed, read as a little-endian number. */
  function SeedWord(i: nat): nat
    requires i < 96
  {
    LE(Seed()[8 * i..8 * i + 8])
  }

  /** The seed is the first 96 states after the constant, in order. */
  lemma SeedSteps(i: nat)
    requires i < 96
    ensures var before := if i == 0 then 0x5144_4E5F_5041_3031 else SeedWord(i - 1);
            before < 0x1_0000_0000_0000_0000 && SeedWord(i) == XorShift(before)
  {
    hide XorShift, SeedWords, LE, Seed;
    WordIs(i);
    if i > 0 { WordIs(i - 1); }
  }

  lemma WordIs(i: nat)
    requires i < 96
    ensures SeedWord(i) == StateAfter(i + 1)
  {
    hide XorShift, SeedWords, LE, ToLE, StateAfter;
    SeedWordAt(96, i);
    Pow2Words();
    LEOfToLE(StateAfter(i + 1), 8);
  }

  lemma {:induction false} SeedWordAt(n: nat, i: nat)
    requires i < n
    ensures SeedWords(n)[8 * i..8 * i + 8] == ToLE(StateAfter(i + 1), 8)
  {
    hide ToLE, StateAfter;
    if i < n - 1 {
      SeedWordAt(n - 1, i);
      assert SeedWords(n)[8 * i..8 * i + 8] == SeedWords(n - 1)[8 * i..8 * i + 8];
    }
  }

  // ---------- the matrix ----------

  /** Row `i`: entry `j` is the seed bit `i + RAW_BITS - 1 - j`, the same along every diagonal. */
  function Row(t: seq<bool>, i: nat): (r: seq<bool>)
    requires |t| >= SEED_BITS && i < KEY_BLOCK_BITS
    ensures |r| == RAW_BITS
  {
    seq(RAW_BITS, j requires 0 <= j < RAW_BITS => t[i + (RAW_BITS - 1) - j])
  }

  function Meet(x: seq<bool>, y: seq<bool>): (z: seq<bool>)
    requires |x| == |y|
    ensures |z| == |x|
  {
    seq(|x|, j requires 0 <= j < |x| => x[j] && y[j])
  }

  /** The inner product over GF(2). */
  function Dot(x: seq<bool>, y: seq<bool>): bool
    requires |x| == |y|
  {
    Count(Meet(x, y)) % 2 == 1
  }

  /** Matrix times vector. */
  function Product(t: seq<bool>, x: seq<bool>): (z: seq<bool>)
    requires |t| >= SEED_BITS && |x| == RAW_BITS
    ensures |z| == KEY_BLOCK_BITS
  {
    seq(KEY_BLOCK_BITS, i requires 0 <= i < KEY_BLOCK_BITS => Dot(x, Row(t, i)))
  }

  /** `out` is the compressed form of `raw`. */
  ghost predicate Compresses(raw: seq<byte>, out: seq<byte>)
  {
    |raw| == RAW_BYTES && |out| == KEY_BLOCK_BYTES && BitsOf(out) == Product(BitsOf(Seed()), BitsOf(raw))
  }

  lemma DotLinear(x: seq<bool>, y: seq<bool>, r: seq<bool>)
    requires |x| == |y| == |r|
    ensures Dot(Differ(x, y), r) <==> Dot(x, r) != Dot(y, r)
  {
    hide Count;
    assert Meet(Differ(x, y), r) == Differ(Meet(x, r), Meet(y, r));
    CountDiffer(Meet(x, r), Meet(y, r));
  }

  lemma ProductLinear(t: seq<bool>, x: seq<bool>, y: seq<bool>)
    requires |t| >= SEED_BITS && |x| == |y| == RAW_BITS
    ensures Product(t, Differ(x, y)) == Differ(Product(t, x), Product(t, y))
  {
    hide Dot, Row, Differ;
    forall i | 0 <= i < KEY_BLOCK_BITS ensures Product(t, Differ(x, y))[i] == (Product(t, x)[i] != Product(t, y)[i]) {
      DotLinear(x, y, Row(t, i));
    }
    DifferFrom(Product(t, Differ(x, y)), Product(t, x), Product(t, y));
  }

  lemma DifferFrom(z: seq<bool>, x: seq<bool>, y: seq<bool>)
    requires |x| == |y| == |z| && forall i :: 0 <= i < |x| ==> z[i] == (x[i] != y[i])
    ensures z == Differ(x, y)
  {}

  lemma BitsOfXor(x: seq<byte>, y: seq<byte>)
    requires |x| == |y|
    ensures BitsOf(XorBytes(x, y)) == Differ(BitsOf(x), BitsOf(y))
  {
    forall i | 0 <= i < 8 * |x| ensures BitsOf(XorBytes(x, y))[i] == Differ(BitsOf(x), BitsOf(y))[i] {
      BitXor(x[i / 8], y[i / 8], i % 8);
    }
  }

  /** Compression is linear: the compressed XOR is the XOR of the compressed. */
  lemma CompressionLinear(x: seq<byte>, y: seq<byte>, hx: seq<byte>, hy: seq<byte>, hxy: seq<byte>)
    requires Compresses(x, hx) && Compresses(y, hy) && Compresses(XorBytes(x, y), hxy)
    ensures hxy == XorBytes(hx, hy)
  {
    hide Product, Seed, BitsOf, XorBytes;
    ProductLinear(BitsOf(Seed()), BitsOf(x), BitsOf(y));
    BitsOfXor(x, y);
    BitsOfXor(hx, hy);
    BitsDetermine(hxy, XorBytes(hx, hy));
  }

  /** Column `j` of the matrix: what a raw key with the single bit `j` set is compressed to. */
  lemma SingleBit(raw: seq<byte>, out: seq<byte>, j: nat, i: nat)
    requires Compresses(raw, out) && j < RAW_BITS && i < KEY_BLOCK_BITS
    requires forall k :: 0 <= k < RAW_BITS ==> (BitsOf(raw)[k] <==> k == j)
    ensures BitsOf(out)[i] == BitsOf(Seed())[i + 4095 - j]
  {
    hide Seed, BitsOf, Count;
    var x, row := BitsOf(raw), Row(BitsOf(Seed()), i);
    var m := Meet(x, row);
    CountSplit(m, 0, j, |m|); CountSplit(m, j, j + 1, |m|);
    CountOne(m, j);
    CountZero(m[0..j]); CountZero(m[j + 1..|m|]);
    assert m[0..|m|] == m;
  }

  /** Both ends get the same key from the same raw bits. */
  lemma CompressionUnique(raw: seq<byte>, out: seq<byte>, out': seq<byte>)
    requires Compresses(raw, out) && Compresses(raw, out')
    ensures out == out'
  {
    hide Product, Seed, BitsOf;
    BitsDetermine(out, out');
  }

  // ---------- the method ----------

  /** The inner loop: one output bit. */
  method RowBit(raw: seq<byte>, seed: seq<byte>, i: nat) returns (acc: nat)
    requires |raw| == RAW_BYTES && |seed| == SEED_BYTES && i < KEY_BLOCK_BITS
    ensures acc == if Dot(BitsOf(raw), Row(BitsOf(seed), i)) then 1 else 0
  {
    hide GetBit, BitsOf, Count;
    ghost var m := Meet(BitsOf(raw), Row(BitsOf(seed), i));
    acc := 0;
    assert m[0..0] == [];
    CountZero(m[0..0]);
    for j := 0 to RAW_BITS
      invariant acc == Count(m[0..j]) % 2
    {
      GetBitIs(raw, j);
      GetBitIs(seed, i + (RAW_BITS - 1) - j);
      CountNext(m, 0, j);
      var bit := if GetBit(raw, j) == 1 && GetBit(seed, i + (RAW_BITS - 1) - j) == 1 then 1 else 0;
      acc := if acc == bit then 0 else 1;
    }
    assert m[0..RAW_BITS] == m;
  }

  method Compress(raw: seq<byte>, out: array<byte>)
    requires |raw| == RAW_BYTES && out.Length == KEY_BLOCK_BYTES
    modifies out
    ensures Compresses(raw, out[..])
  {
    hide BitsOf, Dot, Row, Seed;
    var seed := GenerateSeed();
    ghost var z := Product(BitsOf(seed), BitsOf(raw));
    forall k | 0 <= k < KEY_BLOCK_BYTES { out[k] := 0; }
    assert out[..] == Zeros(KEY_BLOCK_BYTES);
    ZeroBits(out[..]);
    for i := 0 to KEY_BLOCK_BITS
      invariant forall k :: 0 <= k < KEY_BLOCK_BITS ==> BitsOf(out[..])[k] == (k < i && z[k])
    {
      var acc := RowBit(raw, seed, i);
      if acc != 0 { FlipInPlace(out, i); }
    }
    assert BitsOf(out[..]) == z;
  }

  lemma ZeroBits(out: seq<byte>)
    requires out == Zeros(KEY_BLOCK_BYTES)
    ensures forall k :: 0 <= k < KEY_BLOCK_BITS ==> !BitsOf(out)[k]
  {
    forall k | 0 <= k < KEY_BLOCK_BITS ensures !BitsOf(out)[k] {
      BitOfZero(k % 8);
    }
  }
}
