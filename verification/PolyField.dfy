/** The Poly1305 one-time authenticator in five 26-bit limbs.

    `Mac` is what the code computes, limb by limb; `RfcMac` is section 2.5 of RFC 8439, a
    polynomial evaluated modulo 2^130 - 5.  `MacMatchesRfcIff` says when they agree. */
module PolyField {
  import opened Bits
  import opened Bytes
  import opened Modular

  const LIMB: nat := 0x400_0000
  const W2: nat := 0x10_0000_0000_0000
  const W3: nat := 0x4000_0000_0000_0000_0000
  const W4: nat := 0x100_0000_0000_0000_0000_0000_0000
  const P: nat := 0x3_FFFF_FFFF_FFFF_FFFF_FFFF_FFFF_FFFF_FFFB
  const BLOCK: nat := 16
  const KEY_LEN: nat := 32
  const TAG_LEN: nat := 16

  datatype Limbs = Limbs(l0: nat, l1: nat, l2: nat, l3: nat, l4: nat)

  const ZERO := Limbs(0, 0, 0, 0, 0)

  function Val(x: Limbs): nat
  {
    x.l0 + LIMB * x.l1 + W2 * x.l2 + W3 * x.l3 + W4 * x.l4
  }

  function Add(x: Limbs, y: Limbs): Limbs
  {
    Limbs(x.l0 + y.l0, x.l1 + y.l1, x.l2 + y.l2, x.l3 + y.l3, x.l4 + y.l4)
  }

  /** All limbs reduced: the state after `propagate_carry`, and the clamped key. */
  predicate Reduced(x: Limbs)
  {
    x.l0 < LIMB && x.l1 < LIMB && x.l2 < LIMB && x.l3 < LIMB && x.l4 < LIMB
  }

  /** The state between blocks: limb 1 keeps the last, unpropagated carry. */
  predicate Partial(x: Limbs)
  {
    x.l0 < LIMB && x.l1 < LIMB + 1024 && x.l2 < LIMB && x.l3 < LIMB && x.l4 < LIMB
  }

  // ---------- the key ----------

  datatype Key = Key(r: Limbs, s: seq<U32>)

  function Split(m: nat): (x: Limbs)
    ensures Reduced(x)
  {
    Limbs(m % LIMB, m / LIMB % LIMB, m / W2 % LIMB, m / W3 % LIMB, m / W4 % LIMB)
  }

  lemma SplitVal(m: nat)
    requires m < TWO128
    ensures Val(Split(m)) == m && Split(m).l4 < 0x100_0000
  {
    DivDiv(m, LIMB, LIMB);
    DivDiv(m, W2, LIMB);
    DivDiv(m, W3, LIMB);
    var q1, q2, q3 := m / LIMB, m / W2, m / W3;
    assert m == LIMB * q1 + m % LIMB;
    assert q1 == LIMB * q2 + q1 % LIMB;
    assert q2 == LIMB * q3 + q2 % LIMB;
    assert q3 == LIMB * (m / W4) + q3 % LIMB;
  }

  const MASK: seq<byte> :=
    [0xFF, 0xFF, 0xFF, 0x0F, 0xFC, 0xFF, 0xFF, 0x0F, 0xFC, 0xFF, 0xFF, 0x0F, 0xFC, 0xFF, 0xFF, 0x0F]

  lemma LEOfFour(a: byte, b: byte, c: byte, d: byte)
    ensures LE([a, b, c, d]) == a + 0x100 * b + 0x1_0000 * c + 0x100_0000 * d
  {
    assert [a, b, c, d][1..] == [b, c, d];
    assert [b, c, d][1..] == [c, d];
    assert [c, d][1..] == [d];
    assert LE([d]) == d;
    assert LE([c, d]) == c + 0x100 * d;
    assert LE([b, c, d]) == b + 0x100 * c + 0x1_0000 * d;
  }

  lemma MaskValue()
    ensures |MASK| == 16 && LE(MASK) == 0x0FFF_FFFC_0FFF_FFFC_0FFF_FFFC_0FFF_FFFF
  {
    hide LE, Pow2;
    Pow2Words();
    LEOfFour(0xFF, 0xFF, 0xFF, 0x0F);
    LEOfFour(0xFC, 0xFF, 0xFF, 0x0F);
    var a, b := [0xFF, 0xFF, 0xFF, 0x0F], [0xFC, 0xFF, 0xFF, 0x0F];
    LEAppend(a, b);
    LEAppend(b, b);
    LEAppend(a + b, b + b);
    assert MASK == (a + b) + (b + b);
  }

  function AndByte(a: byte, b: byte): (r: byte)
    ensures r == And(a, b)
  {
    AndAtMost(a, b);
    And(a, b)
  }

  /** The seven octets that key setup masks, in the order of the code. */
  function Clamp(rb: seq<byte>): (c: seq<byte>)
    requires |rb| == 16
    ensures |c| == 16
  {
    var low := rb[3 := AndByte(rb[3], 0x0F)][7 := AndByte(rb[7], 0x0F)];
    var c := low[11 := AndByte(rb[11], 0x0F)][15 := AndByte(rb[15], 0x0F)];
    c[4 := AndByte(c[4], 0xFC)][8 := AndByte(c[8], 0xFC)][12 := AndByte(c[12], 0xFC)]
  }

  function NewKey(raw: seq<byte>): (key: Key)
    requires |raw| == KEY_LEN
    ensures Reduced(key.r) && |key.s| == 4
  {
    Key(Split(LE(Clamp(raw[..16]))), [Le32(raw[16..20]), Le32(raw[20..24]), Le32(raw[24..28]), Le32(raw[28..32])])
  }

  /** The four words of `s`, joined with shifts and ORs. */
  function JoinS(s: seq<U32>): nat
    requires |s| == 4
  {
    Or(Or(Or(s[0], Shl(s[1], 32)), Shl(s[2], 64)), Shl(s[3], 96))
  }

  /** Key setup computes the clamped `r` and the `s` of the RFC, both little-endian. */
  lemma KeyIsClamped(raw: seq<byte>)
    requires |raw| == KEY_LEN
    ensures Val(NewKey(raw).r) == RfcR(raw)
    ensures JoinS(NewKey(raw).s) == LE(raw[16..]) < TWO128
  {
    hide And, LE, Or, Pow2, Split, Val, JoinS, Clamp;
    ClampIsMask(raw[..16]);
    LEBound(Clamp(raw[..16]));
    LEBound(raw[16..]);
    Pow2Words();
    SplitVal(LE(Clamp(raw[..16])));
    JoinIsLE(raw[16..20], raw[20..24], raw[24..28], raw[28..32]);
    assert raw[16..] == raw[16..20] + raw[20..24] + raw[24..28] + raw[28..32];
  }

  lemma ClampIsMask(rb: seq<byte>)
    requires |rb| == 16
    ensures LE(Clamp(rb)) == And(LE(rb), 0x0FFF_FFFC_0FFF_FFFC_0FFF_FFFC_0FFF_FFFF)
  {
    hide And, LE, Clamp;
    ClampAt(rb);
    MaskValue();
    LEAnd(rb, MASK, Clamp(rb));
  }

  lemma ClampAt(rb: seq<byte>)
    requires |rb| == 16
    ensures forall i :: 0 <= i < 16 ==> Clamp(rb)[i] == And(rb[i], MASK[i])
  {
    hide And, LE;
    var c := Clamp(rb);
    forall i | 0 <= i < 16 ensures And(rb[i], 0xFF) == rb[i] {
      AndFull(rb[i]);
    }
    assert c[3] == And(rb[3], 0x0F) && c[7] == And(rb[7], 0x0F) && c[11] == And(rb[11], 0x0F)
           && c[15] == And(rb[15], 0x0F);
    assert c[4] == And(rb[4], 0xFC) && c[8] == And(rb[8], 0xFC) && c[12] == And(rb[12], 0xFC);
  }

  lemma AndFull(x: byte)
    ensures And(x, 0xFF) == x
  {
    hide And;
    Pow2Words();
    AndMask(x, 8);
  }

  lemma JoinWords(a: U32, b: U32, c: U32, d: U32)
    ensures JoinS([a, b, c, d]) == a + Pow2(32) * b + Pow2(64) * c + Pow2(96) * d
  {
    hide Or, Pow2;
    Pow2Words();
    OrIsAdd(a, b, 32);
    OrIsAdd(a + 0x1_0000_0000 * b, c, 64);
    OrIsAdd(a + 0x1_0000_0000 * b + 0x1_0000_0000_0000_0000 * c, d, 96);
  }

  lemma JoinIsLE(a: seq<byte>, b: seq<byte>, c: seq<byte>, d: seq<byte>)
    requires |a| == |b| == |c| == |d| == 4
    ensures JoinS([Le32(a), Le32(b), Le32(c), Le32(d)]) == LE(a + b + c + d)
  {
    hide LE, Pow2, JoinS;
    LEAppend(a, b);
    LEAppend(a + b, c);
    LEAppend(a + b + c, d);
    JoinWords(Le32(a), Le32(b), Le32(c), Le32(d));
  }

  /** Section 2.5.1 of RFC 8439: the clamped `r`. */
  function RfcR(raw: seq<byte>): nat
    requires |raw| == KEY_LEN
  {
    And(LE(raw[..16]), 0x0FFF_FFFC_0FFF_FFFC_0FFF_FFFC_0FFF_FFFF)
  }

  // ---------- one block ----------

  function Dot(h: Limbs, a: nat, b: nat, c: nat, d: nat, e: nat): nat
  {
    h.l0 * a + h.l1 * b + h.l2 * c + h.l3 * d + h.l4 * e
  }

  function D0(h: Limbs, r: Limbs): nat { Dot(h, r.l0, 5 * r.l4, 5 * r.l3, 5 * r.l2, 5 * r.l1) }
  function D1(h: Limbs, r: Limbs): nat { Dot(h, r.l1, r.l0, 5 * r.l4, 5 * r.l3, 5 * r.l2) }
  function D2(h: Limbs, r: Limbs): nat { Dot(h, r.l2, r.l1, r.l0, 5 * r.l4, 5 * r.l3) }
  function D3(h: Limbs, r: Limbs): nat { Dot(h, r.l3, r.l2, r.l1, r.l0, 5 * r.l4) }
  function D4(h: Limbs, r: Limbs): nat { Dot(h, r.l4, r.l3, r.l2, r.l1, r.l0) }

  /** The carry chain, after the five products and again in `propagate_carry`. */
  function Reduce(d: Limbs): Limbs
  {
    var e1 := d.l1 + d.l0 / LIMB;
    var e2 := d.l2 + e1 / LIMB;
    var e3 := d.l3 + e2 / LIMB;
    var e4 := d.l4 + e3 / LIMB;
    var f0 := d.l0 % LIMB + 5 * (e4 / LIMB);
    Limbs(f0 % LIMB, e1 % LIMB + f0 / LIMB, e2 % LIMB, e3 % LIMB, e4 % LIMB)
  }

  function Products(h: Limbs, r: Limbs): Limbs
  {
    Limbs(D0(h, r), D1(h, r), D2(h, r), D3(h, r), D4(h, r))
  }

  function MulR(h: Limbs, r: Limbs): Limbs
  {
    Reduce(Products(h, r))
  }

  function BlockLimbs(block: seq<byte>, hibit: bool): Limbs
    requires |block| == BLOCK
  {
    Add(Split(LE(block)), Limbs(0, 0, 0, 0, if hibit then 0x100_0000 else 0))
  }

  function Step(h: Limbs, r: Limbs, block: seq<byte>, hibit: bool): Limbs
    requires |block| == BLOCK
  {
    MulR(Add(h, BlockLimbs(block, hibit)), r)
  }

  /** A carry chain keeps the value; the carry out of the top comes back with weight 5. */
  lemma CarryVal(x: Limbs, y: Limbs, c: Limbs)
    requires x.l0 == y.l0 + LIMB * c.l0 && x.l1 + c.l0 == y.l1 + LIMB * c.l1 && x.l2 + c.l1 == y.l2 + LIMB * c.l2
    requires x.l3 + c.l2 == y.l3 + LIMB * c.l3 && x.l4 + c.l3 == y.l4 + LIMB * c.l4
    ensures Val(x) == Val(y) + c.l4 * (P + 5)
  {}

  lemma CarryTopVal(y: Limbs, z: Limbs, c4: nat)
    requires z.l0 + LIMB * (z.l1 - y.l1) == y.l0 + 5 * c4 && z.l2 == y.l2 && z.l3 == y.l3 && z.l4 == y.l4
    ensures Val(z) == Val(y) + 5 * c4
  {}

  lemma DivMod(x: nat)
    ensures x == x % LIMB + LIMB * (x / LIMB)
  {}

  lemma ReduceShape(d: Limbs) returns (y: Limbs, c: Limbs)
    ensures d.l0 == y.l0 + LIMB * c.l0 && d.l1 + c.l0 == y.l1 + LIMB * c.l1 && d.l2 + c.l1 == y.l2 + LIMB * c.l2
    ensures d.l3 + c.l2 == y.l3 + LIMB * c.l3 && d.l4 + c.l3 == y.l4 + LIMB * c.l4
    ensures var z := Reduce(d); z.l2 == y.l2 && z.l3 == y.l3 && z.l4 == y.l4
    ensures var z := Reduce(d); z.l0 + LIMB * (z.l1 - y.l1) == y.l0 + 5 * c.l4
  {
    var e1 := d.l1 + d.l0 / LIMB;
    var e2 := d.l2 + e1 / LIMB;
    var e3 := d.l3 + e2 / LIMB;
    var e4 := d.l4 + e3 / LIMB;
    y := Limbs(d.l0 % LIMB, e1 % LIMB, e2 % LIMB, e3 % LIMB, e4 % LIMB);
    c := Limbs(d.l0 / LIMB, e1 / LIMB, e2 / LIMB, e3 / LIMB, e4 / LIMB);
    DivMod(d.l0); DivMod(e1); DivMod(e2); DivMod(e3); DivMod(e4); DivMod(y.l0 + 5 * c.l4);
  }

  lemma ReduceCongruent(d: Limbs)
    ensures Congruent(Val(Reduce(d)), Val(d), P)
  {
    hide Val, Reduce;
    var y, c := ReduceShape(d);
    CarryVal(d, y, c);
    CarryTopVal(y, Reduce(d), c.l4);
    var k: int := c.l4;
    DropMultiple(Val(d), -k, P);
  }

  /** Multiplying by 2^26: the top limb wraps round with weight 5. */
  function Shift(r: Limbs): Limbs { Limbs(5 * r.l4, r.l0, r.l1, r.l2, r.l3) }

  lemma ShiftVal(r: Limbs)
    ensures Val(Shift(r)) == LIMB * Val(r) - r.l4 * P
  {}

  lemma Row(x: nat, s: Limbs)
    ensures x * Val(s) == x * s.l0 + LIMB * (x * s.l1) + W2 * (x * s.l2) + W3 * (x * s.l3) + W4 * (x * s.l4)
  {
    Distribute(x, s.l0, LIMB * s.l1 + W2 * s.l2 + W3 * s.l3 + W4 * s.l4);
    Distribute(x, LIMB * s.l1, W2 * s.l2 + W3 * s.l3 + W4 * s.l4);
    Distribute(x, W2 * s.l2, W3 * s.l3 + W4 * s.l4);
    Distribute(x, W3 * s.l3, W4 * s.l4);
    Scale(x, LIMB, s.l1); Scale(x, W2, s.l2); Scale(x, W3, s.l3); Scale(x, W4, s.l4);
  }

  lemma Scale(x: int, w: int, y: int)
    ensures x * (w * y) == w * (x * y)
  {}

  lemma Column(h: Limbs, v: int)
    ensures Val(h) * v == h.l0 * v + LIMB * (h.l1 * v) + W2 * (h.l2 * v) + W3 * (h.l3 * v) + W4 * (h.l4 * v)
  {
    var x := Limbs(h.l0, h.l1, h.l2, h.l3, h.l4);
    Distribute(v, h.l0, LIMB * h.l1 + W2 * h.l2 + W3 * h.l3 + W4 * h.l4);
    Distribute(v, LIMB * h.l1, W2 * h.l2 + W3 * h.l3 + W4 * h.l4);
    Distribute(v, W2 * h.l2, W3 * h.l3 + W4 * h.l4);
    Distribute(v, W3 * h.l3, W4 * h.l4);
    Scale(v, LIMB, h.l1); Scale(v, W2, h.l2); Scale(v, W3, h.l3); Scale(v, W4, h.l4);
  }

  /** The five products, column by column, are the five shifted copies of `r`, row by row. */
  lemma DotSumByRows(h: Limbs, r: Limbs)
    ensures var r1 := Shift(r); var r2 := Shift(r1); var r3 := Shift(r2); var r4 := Shift(r3);
            Val(Products(h, r)) == h.l0 * Val(r) + h.l1 * Val(r1) + h.l2 * Val(r2) + h.l3 * Val(r3) + h.l4 * Val(r4)
  {
    var r1 := Shift(r); var r2 := Shift(r1); var r3 := Shift(r2); var r4 := Shift(r3);
    assert Val(Products(h, r)) == D0(h, r) + LIMB * D1(h, r) + W2 * D2(h, r) + W3 * D3(h, r) + W4 * D4(h, r);
    hide Val;
    Row(h.l0, r); Row(h.l1, r1); Row(h.l2, r2); Row(h.l3, r3); Row(h.l4, r4);
  }

  /** `x` times a shifted copy, in terms of the unshifted one. */
  lemma ShiftedRow(x: nat, w: nat, v: int, k: int, r: Limbs)
    requires Val(r) == w * v - k * P
    ensures x * Val(r) == w * (x * v) - (x * k) * P
  {
    hide Val;
    Distribute(x, w * v, -(k * P));
    Scale(x, w, v);
    Assoc(x, k, P);
  }

  /** One multiplication by `r` is multiplication in the field: the five products are the
      school-book product, with 2^130 folded to 5. */
  lemma MulRCongruent(h: Limbs, r: Limbs)
    ensures Congruent(Val(MulR(h, r)), Val(h) * Val(r), P)
  {
    hide Val, Products, Reduce;
    ReduceCongruent(Products(h, r));
    var v := Val(r);
    var r1 := Shift(r); var r2 := Shift(r1); var r3 := Shift(r2); var r4 := Shift(r3);
    ShiftVal(r); ShiftVal(r1); ShiftVal(r2); ShiftVal(r3);
    var k1 := r.l4;
    var k2 := LIMB * k1 + r1.l4;
    var k3 := LIMB * k2 + r2.l4;
    var k4 := LIMB * k3 + r3.l4;
    ShiftedRow(h.l1, LIMB, v, k1, r1);
    ShiftedRow(h.l2, W2, v, k2, r2);
    ShiftedRow(h.l3, W3, v, k3, r3);
    ShiftedRow(h.l4, W4, v, k4, r4);
    DotSumByRows(h, r);
    Column(h, v);
    var k := h.l1 * k1 + h.l2 * k2 + h.l3 * k3 + h.l4 * k4;
    assert Val(Products(h, r)) == Val(h) * v + (-k) * P;
    DropMultiple(Val(h) * v, -k, P);
  }

  // ---------- bounds: no 64-bit word wraps ----------

  /** The state with one more block added, just before the products. */
  predicate Loaded(h: Limbs)
  {
    h.l0 < 0x800_0400 && h.l1 < 0x800_0400 && h.l2 < 0x800_0400 && h.l3 < 0x800_0400 && h.l4 < 0x800_0400
  }

  lemma BlockLoads(h: Limbs, block: seq<byte>, hibit: bool)
    requires Partial(h) && |block| == BLOCK
    ensures Loaded(Add(h, BlockLimbs(block, hibit))) && BlockLimbs(block, hibit).l4 < 0x200_0000
    ensures Val(BlockLimbs(block, hibit)) == LE(block) + if hibit then TWO128 else 0
  {
    LEBound(block);
    Pow2Words();
    hide Pow2, LE;
    SplitVal(LE(block));
  }

  lemma ProductBound(x: nat, y: nat, a: nat, b: nat)
    requires x <= a && y <= b
    ensures 0 <= x * y <= a * b
  {
    MulMono(x, y, b);
    MulMono(b, x, a);
  }

  lemma DotBound(h: Limbs, a: nat, b: nat, c: nat, d: nat, e: nat, x: nat)
    requires Loaded(h) && a <= x && b <= x && c <= x && d <= x && e <= x
    ensures Dot(h, a, b, c, d, e) <= 5 * (0x800_0400 * x)
  {
    ProductBound(h.l0, a, 0x800_0400, x);
    ProductBound(h.l1, b, 0x800_0400, x);
    ProductBound(h.l2, c, 0x800_0400, x);
    ProductBound(h.l3, d, 0x800_0400, x);
    ProductBound(h.l4, e, 0x800_0400, x);
  }

  const DMAX: nat := 0x400_0000_0000_0000   // 2^58

  predicate Bounded(d: Limbs)
  {
    d.l0 < DMAX && d.l1 < DMAX && d.l2 < DMAX && d.l3 < DMAX && d.l4 <= 5 * 0x800_0400 * LIMB
  }

  lemma ProductsBounded(h: Limbs, r: Limbs)
    requires Loaded(h) && Reduced(r)
    ensures Bounded(Products(h, r))
  {
    hide Dot;
    DotBound(h, r.l0, 5 * r.l4, 5 * r.l3, 5 * r.l2, 5 * r.l1, 5 * LIMB);
    DotBound(h, r.l1, r.l0, 5 * r.l4, 5 * r.l3, 5 * r.l2, 5 * LIMB);
    DotBound(h, r.l2, r.l1, r.l0, 5 * r.l4, 5 * r.l3, 5 * LIMB);
    DotBound(h, r.l3, r.l2, r.l1, r.l0, 5 * r.l4, 5 * LIMB);
    DotBound(h, r.l4, r.l3, r.l2, r.l1, r.l0, LIMB);
  }

  lemma ReducePartial(d: Limbs)
    requires Bounded(d)
    ensures Partial(Reduce(d))
  {}

  /** Every block leaves the limbs small enough for the next one. */
  lemma StepKeepsPartial(h: Limbs, r: Limbs, block: seq<byte>, hibit: bool)
    requires Partial(h) && Reduced(r) && |block| == BLOCK
    ensures Partial(Step(h, r, block, hibit))
  {
    hide Products, Reduce, Loaded, Partial, Reduced, BlockLimbs, Add, Bounded;
    BlockLoads(h, block, hibit);
    var x := Add(h, BlockLimbs(block, hibit));
    ProductsBounded(x, r);
    ReducePartial(Products(x, r));
  }

  lemma StepCongruent(h: Limbs, r: Limbs, block: seq<byte>, hibit: bool, acc: nat)
    requires Partial(h) && |block| == BLOCK && Congruent(Val(h), acc, P)
    ensures Congruent(Val(Step(h, r, block, hibit)), (acc + LE(block) + if hibit then TWO128 else 0) * Val(r), P)
  {
    hide Partial, Loaded, LE, MulR, BlockLimbs;
    var n := BlockLimbs(block, hibit);
    BlockLoads(h, block, hibit);
    var x := Add(h, n);
    assert Val(x) == Val(h) + Val(n);
    hide Val;
    CongruentSum(Val(h), acc, Val(n), Val(n), P);
    CongruentProduct(Val(x), acc + Val(n), Val(r), P);
    MulRCongruent(x, r);
  }

  // ---------- whole messages ----------

  /** The limbs after a whole number of blocks. */
  function Absorbed(r: Limbs, m: seq<byte>): Limbs
    requires |m| % BLOCK == 0
    decreases |m|
  {
    if m == [] then ZERO
    else Step(Absorbed(r, m[..|m| - BLOCK]), r, m[|m| - BLOCK..], true)
  }

  function Whole(m: seq<byte>): (w: nat)
    ensures w <= |m| < w + BLOCK && w % BLOCK == 0
  {
    |m| - |m| % BLOCK
  }

  /** The last, short block: a one octet, then zeros. */
  function Padded(rest: seq<byte>): (b: seq<byte>)
    requires |rest| < BLOCK
    ensures |b| == BLOCK
  {
    rest + [1] + Zeros(BLOCK - 1 - |rest|)
  }

  function Final(r: Limbs, m: seq<byte>): Limbs
  {
    var w := Whole(m);
    var h := Absorbed(r, m[..w]);
    if w < |m| then Step(h, r, Padded(m[w..]), false) else h
  }

  /** Section 2.5 of RFC 8439: the accumulator after all blocks of `m`. */
  function RfcAcc(r: nat, m: seq<byte>): (a: nat)
    decreases |m|
  {
    if m == [] then 0
    else
      var k := (|m| - 1) / BLOCK * BLOCK;
      (RfcAcc(r, m[..k]) + LE(m[k..]) + Pow2(8 * (|m| - k))) * r % P
  }

  lemma {:induction false} AbsorbedPartial(r: Limbs, m: seq<byte>)
    requires Reduced(r) && |m| % BLOCK == 0
    ensures Partial(Absorbed(r, m))
    decreases |m|
  {
    hide Step;
    if m != [] {
      AbsorbedPartial(r, m[..|m| - BLOCK]);
      StepKeepsPartial(Absorbed(r, m[..|m| - BLOCK]), r, m[|m| - BLOCK..], true);
    }
  }

  lemma {:induction false} AbsorbedCongruent(r: Limbs, m: seq<byte>)
    requires Reduced(r) && |m| % BLOCK == 0
    ensures Val(Absorbed(r, m)) % P == RfcAcc(Val(r), m)
    decreases |m|
  {
    if m == [] {
      ZeroVal();
    } else {
      hide *;
      var k := |m| - BLOCK;
      AbsorbedCongruent(r, m[..k]);
      AbsorbedPartial(r, m[..k]);
      AbsorbedUnfold(r, m);
      RfcStep(r, Absorbed(r, m[..k]), m, k, m[k..], true);
    }
  }

  lemma AbsorbedUnfold(r: Limbs, m: seq<byte>)
    requires |m| % BLOCK == 0 && m != []
    ensures |m| >= BLOCK && (|m| - BLOCK) % BLOCK == 0 && (|m| - 1) / BLOCK * BLOCK == |m| - BLOCK
    ensures Absorbed(r, m) == Step(Absorbed(r, m[..|m| - BLOCK]), r, m[|m| - BLOCK..], true)
  {
    hide Step;
  }

  /** One step of the code is one step of the RFC, whichever way the block was padded. */
  lemma RfcStep(r: Limbs, h: Limbs, m: seq<byte>, k: nat, block: seq<byte>, hibit: bool)
    requires Partial(h) && |block| == BLOCK && m != [] && k == (|m| - 1) / BLOCK * BLOCK
    requires Val(h) % P == RfcAcc(Val(r), m[..k])
    requires if hibit then k == |m| - BLOCK && block == m[k..] else |m| - k < BLOCK && block == Padded(m[k..])
    ensures Val(Step(h, r, block, hibit)) % P == RfcAcc(Val(r), m)
  {
    hide Step, Val, LE, Partial, Padded;
    var acc := RfcAcc(Val(r), m[..k]);
    assert Congruent(Val(h), acc, P) by { ModMod(Val(h), P); }
    StepCongruent(h, r, block, hibit, acc);
    var n := LE(block) + if hibit then TWO128 else 0;
    assert n == LE(m[k..]) + Pow2(8 * (|m| - k)) by {
      Pow2Words();
      hide Pow2;
      if !hibit { PaddedVal(m[k..]); }
    }
    assert RfcAcc(Val(r), m) == (acc + n) * Val(r) % P;
  }

  lemma ZeroVal()
    ensures Val(ZERO) == 0
  {}

  lemma ModMod(x: int, n: int)
    requires n > 0
    ensures x % n % n == x % n
  {}

  lemma OneThenZeros(n: nat)
    ensures LE([1] + Zeros(n)) == 1
  {
    LEZeros(n);
    assert ([1] + Zeros(n))[1..] == Zeros(n);
  }

  lemma PaddedShape(rest: seq<byte>)
    requires |rest| < BLOCK
    ensures Padded(rest) == rest + ([1] + Zeros(BLOCK - 1 - |rest|))
  {
    hide Zeros;
  }

  lemma PaddedVal(rest: seq<byte>)
    requires |rest| < BLOCK
    ensures LE(Padded(rest)) == LE(rest) + Pow2(8 * |rest|)
  {
    hide *;
    PaddedShape(rest);
    OneThenZeros(BLOCK - 1 - |rest|);
    LEAppend(rest, [1] + Zeros(BLOCK - 1 - |rest|));
  }

  lemma FinalPartial(r: Limbs, m: seq<byte>)
    requires Reduced(r)
    ensures Partial(Final(r, m))
  {
    hide Step, Absorbed, Partial, Reduced;
    var w := Whole(m);
    AbsorbedPartial(r, m[..w]);
    if w < |m| { StepKeepsPartial(Absorbed(r, m[..w]), r, Padded(m[w..]), false); }
  }

  /** The code evaluates the polynomial of the RFC, in the field. */
  lemma FinalCongruent(r: Limbs, m: seq<byte>)
    requires Reduced(r)
    ensures Val(Final(r, m)) % P == RfcAcc(Val(r), m)
  {
    hide Step, Val, Reduced, Partial, Absorbed, Padded, RfcAcc;
    var w := Whole(m);
    AbsorbedCongruent(r, m[..w]);
    if w < |m| {
      AbsorbedPartial(r, m[..w]);
      RfcStep(r, Absorbed(r, m[..w]), m, w, Padded(m[w..]), false);
    } else {
      assert m[..w] == m;
    }
  }

  // ---------- the tag ----------

  /** `propagate_carry` runs the chain twice. */
  function Carry(x: Limbs): Limbs { Reduce(Reduce(x)) }

  /** One pass is enough: a carry out of the top implies that limb 1 wrapped. */
  lemma ReduceReduces(x: Limbs)
    requires Partial(x)
    ensures Reduced(Reduce(x))
  {
    assert x.l0 / LIMB == 0 && x.l0 % LIMB == x.l0;
    if x.l1 < LIMB {
      assert x.l1 / LIMB == 0 && x.l2 / LIMB == 0 && x.l3 / LIMB == 0 && x.l4 / LIMB == 0;
      assert Reduce(x) == x;
    } else {
      var h2 := x.l2 + 1;
      assert x.l1 / LIMB == 1 && x.l1 % LIMB == x.l1 - LIMB < 1024;
      assert h2 / LIMB <= 1;
      var h3 := x.l3 + h2 / LIMB;
      assert h3 / LIMB <= 1;
      var h4 := x.l4 + h3 / LIMB;
      assert h4 / LIMB <= 1;
      assert (x.l0 + 5 * (h4 / LIMB)) / LIMB <= 1;
    }
  }

  /** After the carries no limb exceeds 26 bits, and the residue has not changed. */
  lemma CarryReduces(x: Limbs)
    requires Partial(x)
    ensures Reduced(Carry(x)) && Congruent(Val(Carry(x)), Val(x), P)
  {
    hide Reduce, Val, Congruent;
    var y := Reduce(x);
    ReduceReduces(x);
    ReduceReduces(y);
    ReduceCongruent(x);
    ReduceCongruent(y);
    assert Congruent(Val(Reduce(y)), Val(x), P) by { CongruentTransitive(Val(Reduce(y)), Val(y), Val(x), P); }
  }

  lemma CongruentTransitive(a: int, b: int, c: int, n: int)
    requires n > 0 && Congruent(a, b, n) && Congruent(b, c, n)
    ensures Congruent(a, c, n)
  {}

  lemma ReducedVal(x: Limbs)
    requires Reduced(x)
    ensures Val(x) < P + 5
  {}

  /** The limbs joined into a 128-bit word with shifts and ORs; the top two bits fall off. */
  function JoinH(x: Limbs): nat
  {
    Or(Or(Or(Or(x.l0, Shl(x.l1, 26)), Shl(x.l2, 52)), Shl(x.l3, 78)), Shl(x.l4, 104) % TWO128)
  }

  /** Shifting the top limb out of a 128-bit word keeps its low 24 bits. */
  lemma TopLimb(h4: nat, lo: nat)
    requires lo < W4
    ensures Shl(h4, 104) % TWO128 == Shl(h4 % 0x100_0000, 104)
    ensures (lo + W4 * h4) % TWO128 == lo + W4 * (h4 % 0x100_0000)
  {
    Pow2Words();
    hide Pow2;
    var q, r := h4 / 0x100_0000, h4 % 0x100_0000;
    QuotientUnique(W4 * h4, TWO128, q, W4 * r);
    QuotientUnique(lo + W4 * h4, TWO128, q, lo + W4 * r);
  }

  /** With reduced limbs the ORs are additions: the word is the value modulo 2^128. */
  lemma JoinHVal(x: Limbs)
    requires Reduced(x)
    ensures JoinH(x) == Val(x) % TWO128
  {
    Pow2Words();
    hide Or, Pow2;
    var lo := x.l0 + LIMB * x.l1 + W2 * x.l2 + W3 * x.l3;
    OrIsAdd(x.l0, x.l1, 26);
    OrIsAdd(x.l0 + LIMB * x.l1, x.l2, 52);
    OrIsAdd(x.l0 + LIMB * x.l1 + W2 * x.l2, x.l3, 78);
    TopLimb(x.l4, lo);
    OrIsAdd(lo, x.l4 % 0x100_0000, 104);
  }

  function Tag(h: Limbs, s: nat): (tag: seq<byte>)
    ensures |tag| == TAG_LEN
  {
    ToLE((JoinH(h) + s) % TWO128, TAG_LEN)
  }

  /** What `Poly1305::mac` returns. */
  function Mac(raw: seq<byte>, m: seq<byte>): (tag: seq<byte>)
    requires |raw| == KEY_LEN
    ensures |tag| == TAG_LEN
  {
    var key := NewKey(raw);
    Tag(Carry(Final(key.r, m)), JoinS(key.s))
  }

  /** Section 2.5 of RFC 8439. */
  function RfcMac(raw: seq<byte>, m: seq<byte>): (tag: seq<byte>)
    requires |raw| == KEY_LEN
    ensures |tag| == TAG_LEN
  {
    ToLE((RfcAcc(RfcR(raw), m) + LE(raw[16..])) % TWO128, TAG_LEN)
  }

  /** The 130-bit value that the code adds `s` to. */
  function FinalVal(raw: seq<byte>, m: seq<byte>): nat
    requires |raw| == KEY_LEN
  {
    Val(Carry(Final(NewKey(raw).r, m)))
  }

  /** For every key and message the tag is `(h + s) mod 2^128`, where `h` is below 2^130 and
      congruent to the polynomial of the RFC. */
  lemma MacIsFieldValuePlusS(raw: seq<byte>, m: seq<byte>)
    requires |raw| == KEY_LEN
    ensures FinalVal(raw, m) < P + 5
    ensures FinalVal(raw, m) % P == RfcAcc(RfcR(raw), m)
    ensures LE(Mac(raw, m)) == (FinalVal(raw, m) + LE(raw[16..])) % TWO128
  {
    hide *;
    KeyIsClamped(raw);
    FinalValResidue(raw, m);
    MacIsSum(raw, m);
  }

  lemma FinalValResidue(raw: seq<byte>, m: seq<byte>)
    requires |raw| == KEY_LEN
    ensures FinalVal(raw, m) < P + 5
    ensures FinalVal(raw, m) % P == RfcAcc(Val(NewKey(raw).r), m)
  {
    hide Carry, Final, NewKey, Val;
    var r := NewKey(raw).r;
    var x := Final(r, m);
    assert FinalVal(raw, m) == Val(Carry(x));
    hide *;
    FinalPartial(r, m);
    CarryReduces(x);
    ReducedVal(Carry(x));
    FinalCongruent(r, m);
    CongruentResidue(Val(Carry(x)), Val(x), P);
  }

  lemma MacIsSum(raw: seq<byte>, m: seq<byte>)
    requires |raw| == KEY_LEN
    ensures LE(Mac(raw, m)) == (FinalVal(raw, m) + JoinS(NewKey(raw).s)) % TWO128
  {
    hide Tag, Carry, Final, NewKey, JoinS, Val, LE;
    var key := NewKey(raw);
    var x := Final(key.r, m);
    assert FinalVal(raw, m) == Val(Carry(x));
    assert Mac(raw, m) == Tag(Carry(x), JoinS(key.s));
    hide *;
    FinalPartial(key.r, m);
    CarryReduces(x);
    TagVal(Carry(x), JoinS(key.s));
  }

  lemma CongruentResidue(a: int, b: int, n: int)
    requires n > 0 && Congruent(a, b, n)
    ensures a % n == b % n
  {}

  lemma TagVal(h: Limbs, s: nat)
    requires Reduced(h)
    ensures LE(Tag(h, s)) == (Val(h) + s) % TWO128
  {
    hide JoinH, Reduced, LE, Pow2, Val;
    JoinHVal(h);
    Pow2Words();
    ModSum(Val(h), s, TWO128);
    LEOfToLE((Val(h) + s) % TWO128, TAG_LEN);
  }

  /** The code never subtracts 2^130 - 5 at the end.  Its tag is the tag of the RFC exactly
      when that subtraction would not have happened. */
  lemma MacMatchesRfcIff(raw: seq<byte>, m: seq<byte>)
    requires |raw| == KEY_LEN
    ensures Mac(raw, m) == RfcMac(raw, m) <==> FinalVal(raw, m) < P
  {
    hide Mac, FinalVal, RfcAcc, LE, Pow2, RfcR;
    MacIsFieldValuePlusS(raw, m);
    Pow2Words();
    var h, s := FinalVal(raw, m), LE(raw[16..]);
    LEOfToLE((h % P + s) % TWO128, TAG_LEN);
    FinalSubtractionShows(h, s);
    ToLEOfLE(Mac(raw, m));
    ToLEOfLE(RfcMac(raw, m));
  }

  lemma FinalSubtractionShows(h: nat, s: nat)
    requires h < P + 5
    ensures (h % P + s) % TWO128 == (h + s) % TWO128 <==> h < P
  {
    if h >= P {
      var a, b := h - P + s, h + s;
      assert h % P == h - P;
      assert a == TWO128 * (a / TWO128) + a % TWO128 && b == TWO128 * (b / TWO128) + b % TWO128;
    }
  }

  /** In particular the tags agree unless the residue is one of 0..4. */
  lemma MacMatchesRfcAboveFour(raw: seq<byte>, m: seq<byte>)
    requires |raw| == KEY_LEN && RfcAcc(RfcR(raw), m) >= 5
    ensures Mac(raw, m) == RfcMac(raw, m)
  {
    hide Mac, RfcMac, FinalVal, RfcAcc, LE;
    MacIsFieldValuePlusS(raw, m);
    MacMatchesRfcIff(raw, m);
  }

  // ---------- the input on which the tag is not the RFC's ----------

  function Ones(n: nat): (b: seq<byte>)
    ensures |b| == n
  {
    seq(n, _ => 0xFF)
  }

  lemma {:induction false} LEOnes(n: nat)
    ensures LE(Ones(n)) == Pow2(8 * n) - 1
  {
    if n > 0 {
      assert Ones(n)[1..] == Ones(n - 1);
      LEOnes(n - 1);
      Pow2Eight(n - 1);
    }
  }

  const UNIT := Limbs(1, 0, 0, 0, 0)

  lemma UnitKey(raw: seq<byte>)
    requires raw == [1] + Zeros(31)
    ensures NewKey(raw).r == UNIT
  {
    hide LE, Clamp, Split, JoinS;
    KeyIsClamped(raw);
    assert raw[..16] == [1] + Zeros(15);
    OneThenZeros(15);
    assert And(0, 0x07FF_FFFE_07FF_FFFE_07FF_FFFE_07FF_FFFF) == 0;
    assert And(1, 0x0FFF_FFFC_0FFF_FFFC_0FFF_FFFC_0FFF_FFFF) == 1;
  }

  lemma MulByUnit(x: Limbs)
    ensures MulR(x, UNIT) == Reduce(x)
  {
    hide Reduce;
  }

  lemma BlockOfOnes(block: seq<byte>)
    requires |block| == BLOCK && LE(block) == TWO128 - 1
    ensures BlockLimbs(block, true) == Limbs(LIMB - 1, LIMB - 1, LIMB - 1, LIMB - 1, 0x1FF_FFFF)
  {
    hide LE;
  }

  lemma StepByUnit(h: Limbs, block: seq<byte>)
    requires |block| == BLOCK && LE(block) == TWO128 - 1
    ensures h == ZERO ==> Step(h, UNIT, block, true) == Limbs(LIMB - 1, LIMB - 1, LIMB - 1, LIMB - 1, 0x1FF_FFFF)
    ensures h == Limbs(LIMB - 1, LIMB - 1, LIMB - 1, LIMB - 1, 0x1FF_FFFF)
            ==> Step(h, UNIT, block, true) == Limbs(LIMB - 2, LIMB - 1, LIMB - 1, LIMB - 1, LIMB - 1)
  {
    hide LE, MulR, BlockLimbs, Reduce;
    BlockOfOnes(block);
    MulByUnit(Add(h, BlockLimbs(block, true)));
    ReduceOnes();
  }

  lemma ReduceOnes()
    ensures Reduce(Limbs(LIMB - 1, LIMB - 1, LIMB - 1, LIMB - 1, 0x1FF_FFFF))
         == Limbs(LIMB - 1, LIMB - 1, LIMB - 1, LIMB - 1, 0x1FF_FFFF)
    ensures Reduce(Limbs(2 * LIMB - 2, 2 * LIMB - 2, 2 * LIMB - 2, 2 * LIMB - 2, 0x3FF_FFFE))
         == Limbs(LIMB - 2, LIMB - 1, LIMB - 1, LIMB - 1, LIMB - 1)
  {
    ReduceFixes(Limbs(LIMB - 1, LIMB - 1, LIMB - 1, LIMB - 1, 0x1FF_FFFF));
    assert (2 * LIMB - 2) / LIMB == 1 && (2 * LIMB - 2) % LIMB == LIMB - 2;
    assert (2 * LIMB - 1) / LIMB == 1 && (2 * LIMB - 1) % LIMB == LIMB - 1;
    assert (LIMB - 1) / LIMB == 0 && (LIMB - 1) % LIMB == LIMB - 1 && (LIMB - 2) / LIMB == 0
           && (LIMB - 2) % LIMB == LIMB - 2;
  }

  lemma ReduceFixes(x: Limbs)
    requires Reduced(x)
    ensures Reduce(x) == x
  {
    Small(x.l0); Small(x.l1); Small(x.l2); Small(x.l3); Small(x.l4);
  }

  lemma Small(x: nat)
    requires x < LIMB
    ensures x / LIMB == 0 && x % LIMB == x
  {}

  lemma AbsorbTwoUnitBlocks(m: seq<byte>)
    requires m == Ones(32)
    ensures Absorbed(UNIT, m) == Limbs(LIMB - 2, LIMB - 1, LIMB - 1, LIMB - 1, LIMB - 1)
  {
    hide LE, Step, Pow2;
    var o := Ones(16);
    assert m[..16] == o && m[16..] == o;
    hide Ones;
    LEOnes(16);
    Pow2Words();
    StepByUnit(ZERO, o);
    assert o[..0] == [] && o[0..] == o;
    assert Absorbed(UNIT, o) == Step(ZERO, UNIT, o, true);
    StepByUnit(Absorbed(UNIT, o), o);
    assert Absorbed(UNIT, m) == Step(Absorbed(UNIT, o), UNIT, o, true);
  }

  /** `r = 1`, `s = 0` and 32 octets 0xFF: the accumulator ends at 2^130 - 2, three beyond
      the modulus, and the tag is not the one of the RFC. */
  lemma MacDiffersFromRfc(raw: seq<byte>, m: seq<byte>)
    requires raw == [1] + Zeros(31) && m == Ones(32)
    ensures FinalVal(raw, m) == P + 3
    ensures Mac(raw, m) != RfcMac(raw, m)
  {
    assert |raw| == KEY_LEN;
    hide *;
    UnitKey(raw);
    FinalOfOnes(m);
    MacMatchesRfcIff(raw, m);
    assert FinalVal(raw, m) == Val(Carry(Final(UNIT, m))) by { FinalValUnfold(raw, m); }
  }

  lemma FinalValUnfold(raw: seq<byte>, m: seq<byte>)
    requires |raw| == KEY_LEN
    ensures FinalVal(raw, m) == Val(Carry(Final(NewKey(raw).r, m)))
  {}

  lemma FinalOfOnes(m: seq<byte>)
    requires m == Ones(32)
    ensures Val(Carry(Final(UNIT, m))) == P + 3
  {
    hide Absorbed, Ones;
    AbsorbTwoUnitBlocks(m);
    assert m[..32] == m;
    var x := Limbs(LIMB - 2, LIMB - 1, LIMB - 1, LIMB - 1, LIMB - 1);
    hide Reduce;
    ReduceFixes(x);
  }
}
