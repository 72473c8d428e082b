/** One block of key from the simulated quantum link: sifting, error check, correction, compression.
    The quantum rounds themselves and the eavesdropper estimate are inputs. */
module Harvest {
  import opened Wrappers
  import opened Bits
  import opened Bytes
  import opened BitStrings
  import opened Toeplitz
  import Reconcile

  const MIN_CHECKS: nat := 256
  const MAX_ROUNDS: nat := 262144
  const QBER_ABORT_PPM: nat := 110000
  const PA_SAFETY_BITS: nat := 64

  /** The outcome of one quantum round at both ends. */
  datatype Round = Round(a: byte, b: byte, nbits: nat, sifted: bool)

  /** One iteration: the secret coin, and what the round it selects would yield. */
  datatype Draw = Draw(coin: bool, check: Round, key: Round)

  datatype PhyError =
    | NoDevice | QberExceeded(qberPpm: nat) | InsufficientSamples
    | ReconciliationFailed | InsufficientSecrecy(secureBits: nat)

  datatype KeyBlock = KeyBlock(seqNo: nat, a: seq<byte>, b: seq<byte>, qberPpm: nat, leakedBits: nat, secureBits: nat)

  // ---------- sifting ----------

  datatype Sift = Sift(a: seq<bool>, b: seq<bool>, checks: nat, errors: nat)

  predicate Enough(s: Sift) { |s.a| >= RAW_BITS && s.checks >= MIN_CHECKS }

  /** Key bits `k` onwards of a round, as far as the buffers have room. */
  function AddBits(s: Sift, r: Round, k: nat): Sift
    decreases r.nbits - k
  {
    if k >= r.nbits || |s.a| >= RAW_BITS then s
    else AddBits(s.(a := s.a + [Bit(r.a, k)], b := s.b + [Bit(r.b, k)]), r, k + 1)
  }

  function SiftStep(s: Sift, d: Draw): Sift
  {
    if Enough(s) then s
    else if d.coin || |s.a| >= RAW_BITS then
      if !d.check.sifted then s
      else s.(checks := s.checks + 1, errors := s.errors + if d.check.a != d.check.b then 1 else 0)
    else if !d.key.sifted then s
    else AddBits(s, d.key, 0)
  }

  function SiftAll(draws: seq<Draw>): Sift
  {
    if draws == [] then Sift([], [], 0, 0)
    else SiftStep(SiftAll(draws[..|draws| - 1]), draws[|draws| - 1])
  }

  lemma {:induction false} AddBitsShape(s: Sift, r: Round, k: nat)
    requires |s.a| == |s.b| <= RAW_BITS
    ensures var t := AddBits(s, r, k); |t.a| == |t.b| <= RAW_BITS && t.checks == s.checks && t.errors == s.errors
    decreases r.nbits - k
  {
    if k < r.nbits && |s.a| < RAW_BITS {
      AddBitsShape(s.(a := s.a + [Bit(r.a, k)], b := s.b + [Bit(r.b, k)]), r, k + 1);
    }
  }

  lemma {:induction false} SiftShape(draws: seq<Draw>)
    ensures var s := SiftAll(draws); |s.a| == |s.b| <= RAW_BITS && s.errors <= s.checks
  {
    if draws != [] {
      SiftShape(draws[..|draws| - 1]);
      AddBitsShape(SiftAll(draws[..|draws| - 1]), draws[|draws| - 1].key, 0);
    }
  }

  /** What a key round adds at one end: its `n` lowest bits, lowest first, which make the value modulo 2^n. */
  ghost predicate Adds(x: seq<bool>, v: byte, n: nat, x': seq<bool>)
  {
    |x| <= |x'| && x' == x + Digits(v, 0, n) && Number(x'[|x|..]) == v % Pow2(n)
  }

  lemma {:induction false} AddsDigits(s: Sift, r: Round, k: nat)
    requires |s.a| == |s.b| <= RAW_BITS && k <= r.nbits
    ensures var n := if r.nbits - k < RAW_BITS - |s.a| then r.nbits - k else RAW_BITS - |s.a|;
            AddBits(s, r, k) == s.(a := s.a + Digits(r.a, k, n), b := s.b + Digits(r.b, k, n))
    decreases r.nbits - k
  {
    hide Bit;
    var n := if r.nbits - k < RAW_BITS - |s.a| then r.nbits - k else RAW_BITS - |s.a|;
    if n > 0 {
      AddsDigits(s.(a := s.a + [Bit(r.a, k)], b := s.b + [Bit(r.b, k)]), r, k + 1);
      FirstDigit(s.a, r.a, k, n);
      FirstDigit(s.b, r.b, k, n);
    } else {
      assert s.a + Digits(r.a, k, 0) == s.a && s.b + Digits(r.b, k, 0) == s.b;
    }
  }

  lemma FirstDigit(x: seq<bool>, v: nat, k: nat, n: nat)
    requires n > 0
    ensures x + [Bit(v, k)] + Digits(v, k + 1, n - 1) == x + Digits(v, k, n)
  {
    hide Bit;
    assert Digits(v, k, n) == [Bit(v, k)] + Digits(v, k + 1, n - 1);
  }

  /** A sifted key round: each end gets the round's own bits there, nothing else changes. */
  lemma KeyRoundAdds(s: Sift, d: Draw)
    requires |s.a| == |s.b| < RAW_BITS && !d.coin && d.key.sifted
    ensures var n := if d.key.nbits < RAW_BITS - |s.a| then d.key.nbits else RAW_BITS - |s.a|; var t := SiftStep(s, d);
            && Adds(s.a, d.key.a, n, t.a) && Adds(s.b, d.key.b, n, t.b)
            && t.checks == s.checks && t.errors == s.errors
  {
    hide Digits, Number;
    var n := if d.key.nbits < RAW_BITS - |s.a| then d.key.nbits else RAW_BITS - |s.a|;
    AddsDigits(s, d.key, 0);
    DigitsMake(d.key.a, n);
    DigitsMake(d.key.b, n);
    assert (s.a + Digits(d.key.a, 0, n))[|s.a|..] == Digits(d.key.a, 0, n);
    assert (s.b + Digits(d.key.b, 0, n))[|s.b|..] == Digits(d.key.b, 0, n);
  }

  /** A check round, which is drawn by the coin or for want of room, counts when it is sifted, and counts
      one error exactly when the two ends saw different values.  A round that is not sifted, and any
      round once there is enough, changes nothing. */
  lemma CheckRoundCounts(s: Sift, d: Draw)
    requires |s.a| == |s.b| <= RAW_BITS
    ensures var t := SiftStep(s, d); var full := |s.a| == 4096; var check := d.coin || full;
            if (full && s.checks >= 256) || (check && !d.check.sifted) || (!check && !d.key.sifted) then t == s
            else if check then
              && t.a == s.a && t.b == s.b && t.checks == s.checks + 1
              && t.errors == s.errors + if d.check.a == d.check.b then 0 else 1
            else t.checks == s.checks && t.errors == s.errors
  {
    if !d.coin && |s.a| < RAW_BITS { AddBitsShape(s, d.key, 0); }
  }

  /** The loop stops early once there is enough; the remaining draws would change nothing. */
  lemma {:induction false} SiftStops(draws: seq<Draw>, n: nat)
    requires n <= |draws| && Enough(SiftAll(draws[..n]))
    ensures SiftAll(draws) == SiftAll(draws[..n])
    decreases |draws|
  {
    if n == |draws| {
      assert draws[..n] == draws;
    } else {
      var rest := draws[..|draws| - 1];
      assert rest[..n] == draws[..n];
      SiftStops(rest, n);
    }
  }

  // ---------- the link ----------

  /** `x` in a buffer of RAW_BITS bits, the rest still zero. */
  ghost function Padded(x: seq<bool>): (p: seq<bool>)
    requires |x| <= RAW_BITS
    ensures |p| == RAW_BITS
  {
    x + seq(RAW_BITS - |x|, _ => false)
  }

  lemma PaddedNext(x: seq<bool>, bit: bool)
    requires |x| < RAW_BITS
    ensures Padded(x + [bit]) == if bit then Padded(x)[|x| := !Padded(x)[|x|]] else Padded(x)
  {}

  ghost predicate Holds(buf: seq<byte>, x: seq<bool>)
  {
    |buf| == RAW_BYTES && |x| <= RAW_BITS && BitsOf(buf) == Padded(x)
  }

  /** `key` is the compressed form of the sifted bits `x`. */
  ghost predicate KeyOf(x: seq<bool>, key: seq<byte>)
  {
    exists raw :: Holds(raw, x) && Compresses(raw, key)
  }

  /** Secret bits left when the eavesdropper's share, the disclosed parities and a margin are gone. */
  function Budget(eveBits: nat, leaked: nat): nat
  {
    if eveBits + leaked + PA_SAFETY_BITS <= RAW_BITS then RAW_BITS - eveBits - leaked - PA_SAFETY_BITS else 0
  }

  /** The inner loop over the bits of one round. */
  method StoreBits(a: array<byte>, b: array<byte>, filled: nat, r: Round, ghost s: Sift) returns (filled': nat)
    requires a != b && a.Length == b.Length == RAW_BYTES && |s.a| == |s.b| == filled <= RAW_BITS
    requires Holds(a[..], s.a) && Holds(b[..], s.b)
    modifies a, b
    ensures var t := AddBits(s, r, 0);
            |t.a| == |t.b| == filled' <= RAW_BITS && Holds(a[..], t.a) && Holds(b[..], t.b)
  {
    hide BitsOf, Padded, Bit;
    filled' := filled;
    ghost var t := s;
    for k := 0 to r.nbits
      invariant |t.a| == |t.b| == filled' <= RAW_BITS && Holds(a[..], t.a) && Holds(b[..], t.b)
      invariant AddBits(t, r, k) == AddBits(s, r, 0)
    {
      if filled' >= RAW_BITS { break; }
      PaddedNext(t.a, Bit(r.a, k));
      PaddedNext(t.b, Bit(r.b, k));
      BitIsShift(r.a, k);
      BitIsShift(r.b, k);
      if r.a / Pow2(k) % 2 == 1 { FlipInPlace(a, filled'); }
      if r.b / Pow2(k) % 2 == 1 { FlipInPlace(b, filled'); }
      filled' := filled' + 1;
      t := t.(a := t.a + [Bit(r.a, k)], b := t.b + [Bit(r.b, k)]);
    }
  }

  /** The collection loop. */
  method Collect(draws: seq<Draw>, a: array<byte>, b: array<byte>) returns (filled: nat, checks: nat, errors: nat)
    requires a != b && a.Length == b.Length == RAW_BYTES && Holds(a[..], []) && Holds(b[..], [])
    modifies a, b
    ensures var s := SiftAll(draws);
            && filled == |s.a| && checks == s.checks && errors == s.errors
            && Holds(a[..], s.a) && Holds(b[..], s.b)
  {
    hide Holds, AddBits;
    filled, checks, errors := 0, 0, 0;
    SiftNone(draws);
    for i := 0 to |draws|
      invariant var s := SiftAll(draws[..i]);
                && filled == |s.a| == |s.b| <= RAW_BITS && checks == s.checks && errors == s.errors
                && Holds(a[..], s.a) && Holds(b[..], s.b)
    {
      ghost var s := SiftAll(draws[..i]);
      if filled >= RAW_BITS && checks >= MIN_CHECKS {
        SiftStops(draws, i);
        return;
      }
      SiftNext(draws, i);
      SiftShape(draws[..i + 1]);
      var d := draws[i];
      if d.coin || filled >= RAW_BITS {
        if d.check.sifted {
          checks := checks + 1;
          if d.check.a != d.check.b { errors := errors + 1; }
        }
        continue;
      }
      if !d.key.sifted { continue; }
      AddBitsShape(s, d.key, 0);
      filled := StoreBits(a, b, filled, d.key, s);
    }
    assert draws[..|draws|] == draws;
  }

  lemma SiftNone(draws: seq<Draw>)
    ensures SiftAll(draws[..0]) == Sift([], [], 0, 0)
  {}

  lemma SiftNext(draws: seq<Draw>, i: nat)
    requires i < |draws|
    ensures SiftAll(draws[..i + 1]) == SiftStep(SiftAll(draws[..i]), draws[i])
  {
    assert draws[..i + 1][..i] == draws[..i];
  }

  class SimQuantumLink {
    var nextSeq: nat

    constructor ()
      ensures nextSeq == 0
    {
      nextSeq := 0;
    }

    /** Every outcome and its exact condition, in the order of the code; a delivered block is the
        same at both ends, is the compression of A's sifted bits, and its secrecy budget balances. */
    method Harvest(draws: seq<Draw>, eveBits: nat) returns (r: Result<KeyBlock, PhyError>)
      requires |draws| == MAX_ROUNDS
      modifies this
      ensures var s := SiftAll(draws);
              && |s.a| == |s.b| <= RAW_BITS
              && if !Enough(s) then r == Err(InsufficientSamples)
                 else
                   var qber := s.errors * 1_000_000 / s.checks;
                   var outcome := DistillOutcome(s.a, s.b, eveBits);
                   if qber > QBER_ABORT_PPM then r == Err(QberExceeded(qber))
                   else if outcome.Err? then r == Err(outcome.error)
                   else
                     && r.Ok? && r.value.a == r.value.b && KeyOf(s.a, r.value.a)
                     && r.value.seqNo == old(nextSeq) && r.value.qberPpm == qber
                     && r.value.leakedBits == outcome.value.0 && r.value.secureBits == outcome.value.1
                     && r.value.leakedBits + eveBits + PA_SAFETY_BITS + r.value.secureBits == RAW_BITS
                     && KEY_BLOCK_BITS <= r.value.secureBits
      ensures Count(Differ(SiftAll(draws).a, SiftAll(draws).b)) <= 1 ==> r != Err(ReconciliationFailed)
      ensures nextSeq == if r.Ok? then old(nextSeq) + 1 else old(nextSeq)
    {
      hide BitsOf, SiftAll, Compresses, Count, Differ, Holds, KeyOf, Padded, DistillOutcome;
      var rawA, rawB := new byte[RAW_BYTES](_ => 0), new byte[RAW_BYTES](_ => 0);
      ZeroesHold(rawA[..]);
      ZeroesHold(rawB[..]);
      var filled, checks, errors := Collect(draws, rawA, rawB);
      ghost var s := SiftAll(draws);
      SiftShape(draws);
      if filled < RAW_BITS || checks < MIN_CHECKS { return Err(InsufficientSamples); }
      var qber := errors * 1_000_000 / checks;
      if qber > QBER_ABORT_PPM { return Err(QberExceeded(qber)); }
      var d := Distill(rawA, rawB, eveBits, s.a, s.b);
      if d.Err? { return Err(d.error); }
      r := Ok(KeyBlock(nextSeq, d.value.a, d.value.b, qber, d.value.leaked, d.value.secure));
      nextSeq := nextSeq + 1;
    }
  }

  /** The error rate at which a block is given up: from 110001 in a million on, a little over 11%. */
  lemma AbortsIff(errors: nat, checks: nat)
    requires checks > 0
    ensures errors * 1_000_000 / checks > QBER_ABORT_PPM <==> errors * 1_000_000 >= 110_001 * checks
  {
    var x := errors * 1_000_000;
    var q, r := x / checks, x % checks;
    assert x == checks * q + r;
    if q >= 110_001 { MulMono(checks, 110_001, q); } else { MulMono(checks, q, 110_000); }
  }

  datatype Distilled = Distilled(a: seq<byte>, b: seq<byte>, leaked: nat, secure: nat)

  /** Correction, comparison, the secrecy budget, compression. */
  method Distill(rawA: array<byte>, rawB: array<byte>, eveBits: nat, ghost x: seq<bool>, ghost y: seq<bool>)
    returns (r: Result<Distilled, PhyError>)
    requires rawA != rawB && |x| == |y| == RAW_BITS && Holds(rawA[..], x) && Holds(rawB[..], y)
    modifies rawB
    ensures Count(Differ(x, y)) <= 1 ==> r != Err(ReconciliationFailed)
    ensures match DistillOutcome(x, y, eveBits)
            case Err(e) => r == Err(e)
            case Ok((leaked, secure)) =>
              r.Ok? && r.value.a == r.value.b && KeyOf(x, r.value.a) && r.value.leaked == leaked
              && r.value.secure == secure
  {
    hide BitsOf, Compresses, Count, Differ, Holds, KeyOf, Padded, Reconcile.Corrects, Reconcile.Divides,
         Reconcile.Residue, Reconcile.Leak;
    RawSize();
    Full(rawA[..], x);
    Full(rawB[..], y);
    var leaked; ghost var rounds, flips;
    leaked, rounds, flips := Reconcile.Reconcile(rawA, rawB, RAW_BITS);
    Reconcile.NoneLeftIff(rawA[..], rawB[..]);
    if rawA[..] != rawB[..] { return Err(ReconciliationFailed); }
    var secure := SaturatingSub(SaturatingSub(SaturatingSub(RAW_BITS, eveBits), leaked), PA_SAFETY_BITS);
    if secure < KEY_BLOCK_BITS { return Err(InsufficientSecrecy(secure)); }
    var a, b := new byte[KEY_BLOCK_BYTES](_ => 0), new byte[KEY_BLOCK_BYTES](_ => 0);
    Compress(rawA[..], a);
    Compress(rawB[..], b);
    CompressionUnique(rawA[..], a[..], b[..]);
    KeyFrom(rawA[..], x, a[..]);
    return Ok(Distilled(a[..], b[..], leaked, secure));
  }

  /** What distilling the sifted bits `x` and `y` must come to: the disclosed parities and the secret
      bits left, or the error. */
  ghost function DistillOutcome(x: seq<bool>, y: seq<bool>, eveBits: nat): (o: Result<(nat, nat), PhyError>)
    requires |x| == |y| == RAW_BITS
    ensures o.Ok? ==> o.value.0 + eveBits + PA_SAFETY_BITS + o.value.1 == RAW_BITS && KEY_BLOCK_BITS <= o.value.1
  {
    var d := Differ(x, y);
    var leaked := Reconcile.Leak(d, 0);
    if Count(Reconcile.Residue(d, 0)) != 0 then Err(ReconciliationFailed)
    else if Budget(eveBits, leaked) < KEY_BLOCK_BITS then Err(InsufficientSecrecy(Budget(eveBits, leaked)))
    else Ok((leaked, Budget(eveBits, leaked)))
  }

  /** What a delivered block can have been through: each super-round costs 496 parities and each
      error at least four more, out of a budget of 1984.  So it took at most three super-rounds,
      and at most 372 of the 4096 sifted bits differed. */
  lemma DeliveredWithinThreeRounds(x: seq<bool>, y: seq<bool>, eveBits: nat)
    requires |x| == |y| == RAW_BITS && DistillOutcome(x, y, eveBits).Ok?
    ensures var d := Differ(x, y); var rounds := Reconcile.RoundsUsed(d, 0);
            496 * rounds + 4 * Count(d) + eveBits <= 1984 && rounds <= 3 && Count(d) <= 372
  {
    hide Count, Reconcile.Leak, Reconcile.Residue, Reconcile.RoundsUsed;
    var d := Differ(x, y);
    Reconcile.LeakAtLeast(d, 0);
    if Count(d) == 0 { Reconcile.Finished(d, 0); } else { Reconcile.NextRound(d, 0); }
  }

  lemma ZeroesHold(buf: seq<byte>)
    requires |buf| == RAW_BYTES && forall i :: 0 <= i < |buf| ==> buf[i] == 0
    ensures Holds(buf, [])
  {
    forall i | 0 <= i < RAW_BITS ensures BitsOf(buf)[i] == Padded([])[i] {
      BitOfZero(i % 8);
    }
  }

  lemma Full(buf: seq<byte>, x: seq<bool>)
    requires Holds(buf, x) && |x| == RAW_BITS
    ensures BitsOf(buf) == x
  {
    hide BitsOf;
  }

  lemma KeyFrom(raw: seq<byte>, x: seq<bool>, key: seq<byte>)
    requires Holds(raw, x) && Compresses(raw, key)
    ensures KeyOf(x, key)
  {}

  lemma RawSize()
    ensures Reconcile.Divides(RAW_BITS)
  {
    Pow2Add(8, 4);
    assert Pow2(8) == 256 && Pow2(4) == 16;
    assert RAW_BITS == Pow2(12);
  }
}
