/** The streaming authenticator as the code keeps it: five 64-bit words, a 16-octet carry-over
    buffer and a fill count, all updated in place.  `fed` records what `Update` has been given;
    `Valid` ties the words and the buffer to it, so the state depends on the concatenation of
    the chunks only. */
module Poly1305 {
  import opened Bits
  import opened Bytes
  import opened PolyField

  function WrappingMul(a: U64, b: U64): U64
  {
    var p: nat := a * b;
    p % TWO64
  }

  function Low(x: nat): nat { x % LIMB }
  function High(x: nat): nat { x / LIMB }

  lemma HighBelow(x: nat)
    requires x < TWO64
    ensures High(x) < 0x40_0000_0000 && Low(x) < 0x400_0000
  {}

  /** The carry chain with the code's wrapping 64-bit operations. */
  function WrappingReduce(d0: U64, d1: U64, d2: U64, d3: U64, d4: U64): Limbs
  {
    var e1 := WrappingAdd(d1, d0 / LIMB);
    var e2 := WrappingAdd(d2, e1 / LIMB);
    var e3 := WrappingAdd(d3, e2 / LIMB);
    var e4 := WrappingAdd(d4, e3 / LIMB);
    var f0 := WrappingAdd(d0 % LIMB, WrappingMul(e4 / LIMB, 5));
    Limbs(f0 % LIMB, WrappingAdd(e1 % LIMB, f0 / LIMB), e2 % LIMB, e3 % LIMB, e4 % LIMB)
  }

  lemma AddFits(a: U64, b: U64)
    requires a + b < TWO64
    ensures WrappingAdd(a, b) == a + b
  {}

  /** None of the wrapping operations ever wraps. */
  lemma NoWrap(d0: U64, d1: U64, d2: U64, d3: U64, d4: U64)
    requires Bounded(Limbs(d0, d1, d2, d3, d4))
    ensures WrappingReduce(d0, d1, d2, d3, d4) == Reduce(Limbs(d0, d1, d2, d3, d4))
  {
    RoomLeft(d0, d1, d2, d3, d4);
    hide WrappingAdd, WrappingMul, WrappingReduce, Reduce, Bounded, Low, High;
    HighBelow(d0);
    AddFits(d1, High(d0));
    var e1 := d1 + High(d0);
    HighBelow(e1);
    AddFits(d2, High(e1));
    var e2 := d2 + High(e1);
    HighBelow(e2);
    AddFits(d3, High(e2));
    var e3 := d3 + High(e2);
    HighBelow(e3);
    AddFits(d4, High(e3));
    var e4 := d4 + High(e3);
    HighBelow(e4);
    FiveFits(High(e4));
    AddFits(Low(d0), 5 * High(e4));
    var f0 := Low(d0) + 5 * High(e4);
    HighBelow(f0);
    AddFits(Low(e1), High(f0));
    WrappingIs(d0, d1, d2, d3, d4, e1, e2, e3, e4, f0);
    ReduceIs(d0, d1, d2, d3, d4, e1, e2, e3, e4, f0);
  }

  lemma WrappingIs(d0: U64, d1: U64, d2: U64, d3: U64, d4: U64, e1: U64, e2: U64, e3: U64, e4: U64, f0: U64)
    requires e1 == WrappingAdd(d1, High(d0)) && e2 == WrappingAdd(d2, High(e1)) && e3 == WrappingAdd(d3, High(e2))
    requires e4 == WrappingAdd(d4, High(e3)) && f0 == WrappingAdd(Low(d0), WrappingMul(High(e4), 5))
    ensures WrappingReduce(d0, d1, d2, d3, d4) ==
              Limbs(Low(f0), WrappingAdd(Low(e1), High(f0)), Low(e2), Low(e3), Low(e4))
  {
    hide WrappingAdd, WrappingMul;
  }

  lemma ReduceIs(d0: U64, d1: U64, d2: U64, d3: U64, d4: U64, e1: U64, e2: U64, e3: U64, e4: U64, f0: U64)
    requires e1 == d1 + High(d0) && e2 == d2 + High(e1) && e3 == d3 + High(e2) && e4 == d4 + High(e3)
    requires f0 == Low(d0) + 5 * High(e4)
    ensures Reduce(Limbs(d0, d1, d2, d3, d4)) == Limbs(Low(f0), Low(e1) + High(f0), Low(e2), Low(e3), Low(e4))
  {}

  lemma RoomLeft(d0: U64, d1: U64, d2: U64, d3: U64, d4: U64)
    requires Bounded(Limbs(d0, d1, d2, d3, d4))
    ensures d0 < TWO64 / 2 && d1 < TWO64 / 2 && d2 < TWO64 / 2 && d3 < TWO64 / 2 && d4 < TWO64 / 2
  {}

  lemma FiveFits(x: U64)
    requires 5 * x < TWO64
    ensures WrappingMul(x, 5) == 5 * x
  {}

  class Poly1305 {
    const h: array<U64>
    const buf: array<byte>
    const r: Limbs
    const s: seq<U32>
    var bufLen: nat
    ghost var fed: seq<byte>

    ghost predicate Shape()
    {
      h.Length == 5 && buf.Length == BLOCK && (h as object) != (buf as object) && Reduced(r) && |s| == 4
    }

    ghost function State(): Limbs
      reads h
      requires Shape()
    {
      Limbs(h[0], h[1], h[2], h[3], h[4])
    }

    ghost predicate Valid()
      reads this, h, buf
    {
      && Shape()
      && bufLen == |fed| - Whole(fed)
      && State() == Absorbed(r, fed[..Whole(fed)])
      && buf[..bufLen] == fed[Whole(fed)..]
    }

    constructor (key: Key)
      requires Reduced(key.r) && |key.s| == 4
      ensures Valid() && fresh(h) && fresh(buf)
      ensures fed == [] && r == key.r && s == key.s
    {
      h := new U64[5](_ => 0);
      buf := new byte[BLOCK](_ => 0);
      r := key.r;
      s := key.s;
      bufLen := 0;
      fed := [];
    }

    method MulR()
      requires Shape() && Loaded(State())
      modifies h
      ensures State() == PolyField.MulR(old(State()), r)
      ensures Bounded(Products(old(State()), r))
    {
      ProductsBounded(State(), r);
      ghost var p := Products(State(), r);
      hide Loaded, Reduce, Bounded;
      var r51: U64, r52: U64, r53: U64, r54: U64 := r.l1 * 5, r.l2 * 5, r.l3 * 5, r.l4 * 5;
      assert p.l0 < TWO64 && p.l1 < TWO64 && p.l2 < TWO64 && p.l3 < TWO64 && p.l4 < TWO64 by { BoundedFits(p); }
      var d0: U64 := h[0] * r.l0 + h[1] * r54 + h[2] * r53 + h[3] * r52 + h[4] * r51;
      var d1: U64 := h[0] * r.l1 + h[1] * r.l0 + h[2] * r54 + h[3] * r53 + h[4] * r52;
      var d2: U64 := h[0] * r.l2 + h[1] * r.l1 + h[2] * r.l0 + h[3] * r54 + h[4] * r53;
      var d3: U64 := h[0] * r.l3 + h[1] * r.l2 + h[2] * r.l1 + h[3] * r.l0 + h[4] * r54;
      var d4: U64 := h[0] * r.l4 + h[1] * r.l3 + h[2] * r.l2 + h[3] * r.l1 + h[4] * r.l0;
      assert p == Limbs(d0, d1, d2, d3, d4);
      hide Products;
      var c0 := d0 / LIMB; var h0 := d0 % LIMB; var e1 := WrappingAdd(d1, c0);
      var c1 := e1 / LIMB; var h1 := e1 % LIMB; var e2 := WrappingAdd(d2, c1);
      var c2 := e2 / LIMB; var h2 := e2 % LIMB; var e3 := WrappingAdd(d3, c2);
      var c3 := e3 / LIMB; var h3 := e3 % LIMB; var e4 := WrappingAdd(d4, c3);
      var c4 := e4 / LIMB; var h4 := e4 % LIMB;
      var f0 := WrappingAdd(h0, WrappingMul(c4, 5));
      var g0 := f0 / LIMB;
      h[0] := f0 % LIMB;
      h[1] := WrappingAdd(h1, g0);
      h[2], h[3], h[4] := h2, h3, h4;
      NoWrap(d0, d1, d2, d3, d4);
    }

    method ProcessBlock(block: seq<byte>, addHibit: bool)
      requires Shape() && |block| == BLOCK && Partial(State())
      modifies h
      ensures State() == Step(old(State()), r, block, addHibit)
      ensures Partial(State())
    {
      StepKeepsPartial(State(), r, block, addHibit);
      hide Partial, Loaded, PolyField.MulR, BlockLimbs;
      AddBlock(block, addHibit);
      MulR();
    }

    /** Splits the block into limbs and adds them. */
    method AddBlock(block: seq<byte>, addHibit: bool)
      requires Shape() && |block| == BLOCK && Partial(State())
      modifies h
      ensures State() == Add(old(State()), BlockLimbs(block, addHibit)) && Loaded(State())
    {
      hide Pow2, LE, Partial, Loaded, WrappingAdd, Split;
      ghost var before, n := State(), BlockLimbs(block, addHibit);
      BlockLoads(before, block, addHibit);
      LoadedFits(Add(before, n));
      LEBound(block);
      Pow2Words();
      var m := LE(block);
      var hiBit := if addHibit then 1 else 0;
      var x := Split(m);
      var x4: U64 := HighLimb(m, x.l4, hiBit);
      AddFits(h[0], x.l0); AddFits(h[1], x.l1); AddFits(h[2], x.l2); AddFits(h[3], x.l3); AddFits(h[4], x4);
      h[0] := WrappingAdd(h[0], x.l0);
      h[1] := WrappingAdd(h[1], x.l1);
      h[2] := WrappingAdd(h[2], x.l2);
      h[3] := WrappingAdd(h[3], x.l3);
      h[4] := WrappingAdd(h[4], x4);
    }

    /** Absorbs a chunk: the state afterwards is that of the concatenation. */
    method Update(msg: seq<byte>)
      requires Valid()
      modifies this, h, buf
      ensures Valid() && fed == old(fed) + msg
    {
      hide Step, Absorbed, Partial;
      if bufLen > 0 && |msg| < BLOCK - bufLen {
        Keep(msg);
        return;
      }
      var data := msg;
      ghost var total := fed + msg;
      ghost var done := fed[..Whole(fed)];
      if bufLen > 0 { done, data := CompleteBlock(msg); } else { AbsorbedPartial(r, done); }
      assert done + data == total;
      done, data := AbsorbBlocks(data, done);
      if data != [] {
        forall i | 0 <= i < |data| { buf[i] := data[i]; }
        bufLen := |data|;
      }
      fed := total;
      WholeIs(done, data);
    }

    /** A chunk too short to complete the buffered block. */
    method Keep(msg: seq<byte>)
      requires Valid() && |msg| < BLOCK - bufLen
      modifies this`bufLen, this`fed, buf
      ensures Valid() && fed == old(fed) + msg
    {
      hide Step, Absorbed;
      forall i | 0 <= i < |msg| { buf[bufLen + i] := msg[i]; }
      WholeUnchanged(fed, msg);
      bufLen := bufLen + |msg|;
      fed := fed + msg;
    }

    /** The buffered block is completed from the front of the chunk and absorbed. */
    method CompleteBlock(msg: seq<byte>) returns (ghost done: seq<byte>, rest: seq<byte>)
      requires Valid() && 0 < bufLen && |msg| >= BLOCK - bufLen
      modifies h, buf, this`bufLen
      ensures Shape() && bufLen == 0 && |done| % BLOCK == 0 && done + rest == fed + msg
      ensures State() == Absorbed(r, done) && Partial(State())
    {
      hide Step, Absorbed, Partial;
      var need := BLOCK - bufLen;
      done := fed[..Whole(fed)];
      AbsorbedPartial(r, done);
      forall i | 0 <= i < need { buf[bufLen + i] := msg[i]; }
      var b := buf[..];
      assert b == fed[Whole(fed)..] + msg[..need];
      AbsorbBlock(r, done, b);
      ProcessBlock(b, true);
      done := done + b;
      bufLen := 0;
      rest := msg[need..];
    }

    /** The loop of `Update` over complete blocks. */
    method AbsorbBlocks(data: seq<byte>, ghost done: seq<byte>) returns (ghost done': seq<byte>, rest: seq<byte>)
      requires Shape() && |done| % BLOCK == 0
      requires State() == Absorbed(r, done) && Partial(State())
      modifies h
      ensures |rest| < BLOCK && |done'| % BLOCK == 0 && done' + rest == done + data
      ensures State() == Absorbed(r, done')
    {
      hide Step, Absorbed, Partial;
      done', rest := done, data;
      while |rest| >= BLOCK
        invariant |done'| % BLOCK == 0 && done' + rest == done + data
        invariant State() == Absorbed(r, done') && Partial(State())
      {
        var block := rest[..BLOCK];
        AbsorbBlock(r, done', block);
        ProcessBlock(block, true);
        done' := done' + block;
        rest := rest[BLOCK..];
      }
    }

    method PropagateCarry()
      requires Shape() && Partial(State())
      modifies h
      ensures State() == Carry(old(State()))
    {
      ghost var before := State();
      ReduceReduces(before);
      for i := 0 to 2
        invariant i == 0 ==> State() == before
        invariant i == 1 ==> State() == Reduce(before)
        invariant i == 2 ==> State() == Carry(before)
        invariant Partial(State())
      {
        CarryPass();
      }
    }

    /** One pass of the carry loop. */
    method CarryPass()
      requires Shape() && Partial(State())
      modifies h
      ensures State() == Reduce(old(State())) && Reduced(State())
    {
      ReduceReduces(State());
      NoWrap(h[0], h[1], h[2], h[3], h[4]);
      hide Reduce, Partial, Reduced;
      var c0 := h[0] / LIMB; h[0] := h[0] % LIMB;
      h[1] := WrappingAdd(h[1], c0);
      var c1 := h[1] / LIMB; h[1] := h[1] % LIMB;
      h[2] := WrappingAdd(h[2], c1);
      var c2 := h[2] / LIMB; h[2] := h[2] % LIMB;
      h[3] := WrappingAdd(h[3], c2);
      var c3 := h[3] / LIMB; h[3] := h[3] % LIMB;
      h[4] := WrappingAdd(h[4], c3);
      var c4 := h[4] / LIMB; h[4] := h[4] % LIMB;
      h[0] := WrappingAdd(h[0], WrappingMul(c4, 5));
      c0 := h[0] / LIMB; h[0] := h[0] % LIMB;
      h[1] := WrappingAdd(h[1], c0);
    }

    /** The tag of everything fed so far. */
    method Finalize() returns (tag: seq<byte>)
      requires Valid()
      modifies this, h, buf
      ensures tag == Tag(Carry(Final(r, old(fed))), JoinS(s))
    {
      hide Step, Absorbed, Partial, JoinH, JoinS, Or, Carry, Reduced;
      ghost var done := fed[..Whole(fed)];
      AbsorbedPartial(r, done);
      FinalPartial(r, fed);
      if bufLen > 0 {
        var pad := buf[..bufLen] + [1] + Zeros(BLOCK - 1 - bufLen);
        ProcessBlock(pad, false);
      }
      assert State() == Final(r, fed);
      PropagateCarry();
      var h128 := JoinH(Limbs(h[0], h[1], h[2], h[3], h[4]));
      var s128 := JoinS(s);
      tag := ToLE((h128 + s128) % TWO128, TAG_LEN);
    }
  }

  /** Two authenticators with the same `r` that were fed the same octets, in whatever chunks,
      are in the same state. */
  lemma StateDependsOnConcatenation(p: Poly1305, q: Poly1305)
    requires p.Valid() && q.Valid() && p.r == q.r && p.fed == q.fed
    ensures p.State() == q.State() && p.bufLen == q.bufLen && p.buf[..p.bufLen] == q.buf[..q.bufLen]
  {}

  lemma AbsorbBlock(r: Limbs, done: seq<byte>, block: seq<byte>)
    requires |done| % BLOCK == 0 && |block| == BLOCK
    ensures |done + block| % BLOCK == 0
    ensures Absorbed(r, done + block) == Step(Absorbed(r, done), r, block, true)
  {
    hide Step;
    var m := done + block;
    assert m[..|m| - BLOCK] == done && m[|m| - BLOCK..] == block;
  }

  lemma WholeUnchanged(fed: seq<byte>, msg: seq<byte>)
    requires |fed| - Whole(fed) + |msg| < BLOCK
    ensures Whole(fed + msg) == Whole(fed)
    ensures (fed + msg)[..Whole(fed)] == fed[..Whole(fed)]
    ensures (fed + msg)[Whole(fed)..] == fed[Whole(fed)..] + msg
  {
    WholeIs(fed[..Whole(fed)], fed[Whole(fed)..] + msg);
    assert fed + msg == fed[..Whole(fed)] + (fed[Whole(fed)..] + msg);
  }

  lemma WholeIs(done: seq<byte>, rest: seq<byte>)
    requires |done| % BLOCK == 0 && |rest| < BLOCK
    ensures Whole(done + rest) == |done|
    ensures (done + rest)[..|done|] == done && (done + rest)[|done|..] == rest
  {}

  /** `Poly1305::mac`: the one-shot form. */
  method ComputeMac(key: seq<byte>, msg: seq<byte>) returns (tag: seq<byte>)
    requires |key| == KEY_LEN
    ensures tag == Mac(key, msg)
  {
    var ctx := new Poly1305(NewKey(key));
    ctx.Update(msg);
    assert [] + msg == msg;
    tag := ctx.Finalize();
  }

  /** `ct_eq_16`: the accumulated difference is zero exactly for equal tags. */
  method CtEq16(a: seq<byte>, b: seq<byte>) returns (eq: bool)
    requires |a| == 16 && |b| == 16
    ensures eq <==> a == b
  {
    var diff: nat := 0;
    for i := 0 to 16
      invariant diff == 0 <==> a[..i] == b[..i]
    {
      XorZeroIff(a[i], b[i]);
      OrZeroIff(diff, Xor(a[i], b[i]));
      diff := Or(diff, Xor(a[i], b[i]));
      assert a[..i + 1] == a[..i] + [a[i]] && b[..i + 1] == b[..i] + [b[i]];
    }
    assert a[..16] == a && b[..16] == b;
    eq := diff == 0;
  }

  /** `Poly1305::verify` accepts the computed tag and nothing else. */
  method VerifyTag(key: seq<byte>, msg: seq<byte>, expected: seq<byte>) returns (ok: bool)
    requires |key| == KEY_LEN && |expected| == TAG_LEN
    ensures ok <==> expected == Mac(key, msg)
  {
    var computed := ComputeMac(key, msg);
    ok := CtEq16(computed, expected);
  }

  /** The high bit, OR-ed in above the 24 bits of the last limb. */
  function HighLimb(m: nat, l4: nat, hiBit: nat): (t: U64)
    requires m < TWO128 && l4 == Split(m).l4 && hiBit <= 1
    ensures t == l4 + 0x100_0000 * hiBit
  {
    SplitVal(m);
    Pow2Words();
    OrIsAdd(l4, hiBit, 24);
    Or(l4, Shl(hiBit, 24))
  }

  lemma LoadedFits(d: Limbs)
    requires Loaded(d)
    ensures d.l0 < TWO64 && d.l1 < TWO64 && d.l2 < TWO64 && d.l3 < TWO64 && d.l4 < TWO64
  {}

  lemma BoundedFits(d: Limbs)
    requires Bounded(d)
    ensures d.l0 < TWO64 && d.l1 < TWO64 && d.l2 < TWO64 && d.l3 < TWO64 && d.l4 < TWO64
  {}
}
