/** Error correction between the two ends of the quantum link: `b` is brought into line with `a` by
    comparing parities of permuted chunks and bisecting the chunks that disagree. */
module Reconcile {
  import opened Bits
  import opened Bytes
  import opened BitStrings
  import opened Permutations

  const MAX_ROUNDS: nat := 12

  /** One pass: chunk length 2^log, permutation multiplier. */
  datatype Pass = Pass(log: nat, mul: nat)

  const PASSES: seq<Pass> := [Pass(4, 1), Pass(5, 1237), Pass(6, 797), Pass(7, 1531), Pass(8, 389)]

  ghost predicate EvenChunks(v: seq<bool>, chunk: nat, n: nat)
    requires n * chunk <= |v|
  {
    forall c :: 0 <= c < n ==> EvenChunk(v, chunk, c)
  }

  ghost predicate EvenChunk(v: seq<bool>, chunk: nat, c: nat)
  {
    (c + 1) * chunk <= |v| && 0 <= c * chunk <= (c + 1) * chunk && Count(v[c * chunk..(c + 1) * chunk]) % 2 == 0
  }

  /** `b'` differs from `a` only where `b` did, in `flips` fewer places. */
  ghost predicate Corrects(a: seq<bool>, b: seq<bool>, b': seq<bool>, flips: nat)
  {
    && |a| == |b| == |b'|
    && (forall i :: 0 <= i < |a| && b'[i] != b[i] ==> b'[i] == a[i])
    && Count(Differ(a, b')) + flips == Count(Differ(a, b))
  }

  lemma CorrectsTransitive(a: seq<bool>, b: seq<bool>, b': seq<bool>, b'': seq<bool>, m: nat, n: nat)
    requires Corrects(a, b, b', m) && Corrects(a, b', b'', n)
    ensures Corrects(a, b, b'', m + n)
  {}

  /** The permuted disagreements that a pass works on. */
  ghost function Errors(a: seq<bool>, b: seq<bool>, mul: nat, off: nat): (v: seq<bool>)
    requires |a| == |b| > 0
    ensures |v| == |a|
  {
    View(Differ(a, b), mul, off)
  }

  lemma ClearLowers(v: seq<bool>, i: nat)
    requires i < |v|
    ensures Count(v[i := false]) <= Count(v)
  {
    hide Count;
    if v[i] { CountClear(v, i); } else { assert v[i := false] == v; }
  }

  // ---------- what correction does to the disagreements ----------

  /** Where the binary search ends: into the first half when that is odd, else into the second. */
  ghost function Located(v: seq<bool>, start: nat, log: nat): (i: nat)
    requires start + Pow2(log) <= |v|
    ensures start <= i < start + Pow2(log)
    decreases log
  {
    if log == 0 then start
    else if Count(v[start..start + Pow2(log - 1)]) % 2 == 1 then Located(v, start, log - 1)
    else Located(v, start + Pow2(log - 1), log - 1)
  }

  /** The disagreements left once chunk `c` has been looked at: an odd chunk loses one. */
  ghost function ChunkDone(d: seq<bool>, mul: nat, off: nat, log: nat, c: nat): (d': seq<bool>)
    requires |d| > 0 && c * Pow2(log) + Pow2(log) <= |d|
    ensures |d'| == |d| && Count(d') <= Count(d)
  {
    var v, lo := View(d, mul, off), c * Pow2(log);
    if Count(v[lo..lo + Pow2(log)]) % 2 == 0 then d
    else
      ClearLowers(d, At(Located(v, lo, log), mul, off, |d|));
      d[At(Located(v, lo, log), mul, off, |d|) := false]
  }

  ghost function ChunksDone(d: seq<bool>, mul: nat, off: nat, log: nat, n: nat): (d': seq<bool>)
    requires |d| > 0 && n * Pow2(log) <= |d|
    ensures |d'| == |d| && Count(d') <= Count(d)
  {
    if n == 0 then d
    else
      assert (n - 1) * Pow2(log) + Pow2(log) == n * Pow2(log);
      ChunkDone(ChunksDone(d, mul, off, log, n - 1), mul, off, log, n - 1)
  }

  /** A whole pass. */
  ghost function PassDone(d: seq<bool>, mul: nat, off: nat, log: nat): (d': seq<bool>)
    requires |d| > 0
    ensures |d'| == |d| && Count(d') <= Count(d)
  {
    assert |d| / Pow2(log) * Pow2(log) <= |d| by {
      var q := |d| / Pow2(log);
      assert |d| == Pow2(log) * q + |d| % Pow2(log);
    }
    ChunksDone(d, mul, off, log, |d| / Pow2(log))
  }

  /** The first `k` passes of a super-round. */
  ghost function RoundDone(d: seq<bool>, round: nat, k: nat): (d': seq<bool>)
    requires |d| > 0 && k <= |PASSES|
    ensures |d'| == |d|
  {
    if k == 0 then d
    else PassDone(RoundDone(d, round, k - 1), PASSES[k - 1].mul * (1 + 2 * round), round * 101, PASSES[k - 1].log)
  }

  /** The permutations and chunk lengths of super-round `round`: chunks of 16, 32, 64, 128 and 256 bits,
      in that order, under an odd multiple of each pass's multiplier, from offset 101 times the round. */
  lemma RoundIs(d: seq<bool>, round: nat)
    requires |d| > 0
    ensures var m, off := 2 * round + 1, 101 * round;
            var d1 := PassDone(d, m, off, 4);
            var d2 := PassDone(d1, 1237 * m, off, 5);
            var d3 := PassDone(d2, 797 * m, off, 6);
            var d4 := PassDone(d3, 1531 * m, off, 7);
            RoundDone(d, round, 5) == PassDone(d4, 389 * m, off, 8)
  {
    hide PassDone;
    var d1 := RoundDone(d, round, 1);
    assert d1 == PassDone(RoundDone(d, round, 0), PASSES[0].mul * (1 + 2 * round), round * 101, PASSES[0].log);
    var d2 := RoundDone(d, round, 2);
    assert d2 == PassDone(d1, PASSES[1].mul * (1 + 2 * round), round * 101, PASSES[1].log);
    var d3 := RoundDone(d, round, 3);
    assert d3 == PassDone(d2, PASSES[2].mul * (1 + 2 * round), round * 101, PASSES[2].log);
    var d4 := RoundDone(d, round, 4);
    assert d4 == PassDone(d3, PASSES[3].mul * (1 + 2 * round), round * 101, PASSES[3].log);
  }

  /** Corrections made by pass `k` of a super-round. */
  ghost function PassFlips(d: seq<bool>, round: nat, k: nat): nat
    requires |d| > 0 && k < |PASSES|
  {
    Count(RoundDone(d, round, k)) - Count(RoundDone(d, round, k + 1))
  }

  function Quotient(n: nat, m: nat): nat
    requires m > 0
  {
    n / m
  }

  /** How many chunks of 2^log bits there are. */
  function ChunkCount(nbits: nat, log: nat): nat { Quotient(nbits, Pow2(log)) }

  /** Parities disclosed by a pass: one per chunk, and log2 of the chunk length for every correction. */
  function PassLeak(chunks: nat, log: nat, flips: nat): nat { chunks + log * flips }

  /** Parities disclosed by the first `k` passes of a super-round. */
  ghost function RoundLeak(d: seq<bool>, round: nat, k: nat): nat
    requires |d| > 0 && k <= |PASSES|
  {
    if k == 0 then 0
    else
      RoundLeak(d, round, k - 1)
      + PassLeak(ChunkCount(|d|, PASSES[k - 1].log), PASSES[k - 1].log, PassFlips(d, round, k - 1))
  }

  /** Super-rounds from number `round` on, as long as anything disagrees. */
  ghost function Residue(d: seq<bool>, round: nat): (d': seq<bool>)
    requires |d| > 0 && round <= MAX_ROUNDS
    ensures |d'| == |d|
    decreases MAX_ROUNDS - round
  {
    if round == MAX_ROUNDS || Count(d) == 0 then d else Residue(RoundDone(d, round, |PASSES|), round + 1)
  }

  /** Super-rounds follow one another until nothing disagrees, but no more than twelve. */
  lemma ResidueSteps(d: seq<bool>, round: nat)
    requires |d| > 0 && round <= 12
    ensures Residue(d, round) ==
              if Count(d) > 0 && round < 12 then Residue(RoundDone(d, round, 5), round + 1) else d
  {
    hide RoundDone, Count;
  }

  ghost function Leak(d: seq<bool>, round: nat): nat
    requires |d| > 0 && round <= MAX_ROUNDS
    decreases MAX_ROUNDS - round
  {
    if round == MAX_ROUNDS || Count(d) == 0 then 0
    else RoundLeak(d, round, |PASSES|) + Leak(RoundDone(d, round, |PASSES|), round + 1)
  }

  /** How many super-rounds there are from number `round` on. */
  ghost function RoundsUsed(d: seq<bool>, round: nat): (n: nat)
    requires |d| > 0 && round <= MAX_ROUNDS
    decreases MAX_ROUNDS - round
  {
    if round == MAX_ROUNDS || Count(d) == 0 then 0 else 1 + RoundsUsed(RoundDone(d, round, |PASSES|), round + 1)
  }

  // ---------- the passes ----------

  /** Correcting one disagreement clears one bit of the permuted string. */
  lemma FixOne(a: seq<bool>, b: seq<bool>, mul: nat, off: nat, i: nat)
    requires |a| == |b| && i < |a| && PowerOfTwo(|a|) && mul % 2 == 1
    requires Errors(a, b, mul, off)[i]
    ensures var j := At(i, mul, off, |a|); var b' := b[j := !b[j]];
            && Corrects(a, b, b', 1) && Errors(a, b', mul, off) == Errors(a, b, mul, off)[i := false]
            && Differ(a, b') == Differ(a, b)[j := false]
  {
    hide At;
    var j := At(i, mul, off, |a|);
    var b' := b[j := !b[j]];
    assert Differ(a, b)[j];
    assert Differ(a, b') == Differ(a, b)[j := false];
    CountClear(Differ(a, b), j);
    ViewClear(Differ(a, b), mul, off, i);
  }

  /** `par`: the parity of a range of permuted bits. */
  method Parity(buf: array<byte>, lo: nat, hi: nat, mul: nat, off: nat, nbits: nat) returns (p: nat)
    requires nbits == 8 * buf.Length > 0 && lo <= hi <= nbits
    ensures p == Count(View(BitsOf(buf[..]), mul, off)[lo..hi]) % 2
  {
    hide Count, At, BitsOf, GetBit;
    ghost var v := View(BitsOf(buf[..]), mul, off);
    p := 0;
    for i := lo to hi
      invariant p == Count(v[lo..i]) % 2
    {
      var j := At(i, mul, off, nbits);
      GetBitIs(buf[..], j);
      CountNext(v, lo, i);
      p := if p == GetBit(buf[..], j) then 0 else 1;
    }
  }

  /** Equal parities mean an even number of disagreements in the range. */
  lemma ParitiesCompare(a: seq<bool>, b: seq<bool>, mul: nat, off: nat, lo: nat, hi: nat)
    requires |a| == |b| > 0 && lo <= hi <= |a|
    ensures Count(View(a, mul, off)[lo..hi]) % 2 == Count(View(b, mul, off)[lo..hi]) % 2
       <==> Count(Errors(a, b, mul, off)[lo..hi]) % 2 == 0
  {
    hide *;
    ViewDiffers(a, b, mul, off);
    var p, q := View(a, mul, off), View(b, mul, off);
    DifferSlice(p, q, lo, hi);
    CountDiffer(p[lo..hi], q[lo..hi]);
    EvenSum(Count(p[lo..hi]), Count(q[lo..hi]), Count(Differ(p[lo..hi], q[lo..hi])));
  }

  lemma EvenSum(m: nat, n: nat, k: nat)
    requires (m + n + k) % 2 == 0
    ensures m % 2 == n % 2 <==> k % 2 == 0
  {}

  lemma ViewDiffers(a: seq<bool>, b: seq<bool>, mul: nat, off: nat)
    requires |a| == |b| > 0
    ensures Errors(a, b, mul, off) == Differ(View(a, mul, off), View(b, mul, off))
  {
    hide At;
  }

  lemma DifferSlice(p: seq<bool>, q: seq<bool>, lo: nat, hi: nat)
    requires |p| == |q| && lo <= hi <= |p|
    ensures Differ(p, q)[lo..hi] == Differ(p[lo..hi], q[lo..hi])
  {}

  /** Compares the parities of a range at both ends. */
  method Disagree(a: array<byte>, b: array<byte>, lo: nat, hi: nat, mul: nat, off: nat, nbits: nat) returns (odd: bool)
    requires nbits == 8 * a.Length == 8 * b.Length && 0 < nbits && lo <= hi <= nbits
    ensures odd <==> Count(Errors(BitsOf(a[..]), BitsOf(b[..]), mul, off)[lo..hi]) % 2 == 1
  {
    hide Errors, View, BitsOf, Count;
    var pa := Parity(a, lo, hi, mul, off, nbits);
    var pb := Parity(b, lo, hi, mul, off, nbits);
    ParitiesCompare(BitsOf(a[..]), BitsOf(b[..]), mul, off, lo, hi);
    return pa != pb;
  }

  /** The binary search: an odd range is halved, keeping the odd half, down to one disagreement. */
  method Bisect(a: array<byte>, b: array<byte>, start: nat, log: nat, mul: nat, off: nat, nbits: nat)
    returns (leaked: nat, lo: nat)
    requires nbits == 8 * a.Length == 8 * b.Length && 0 < nbits && start + Pow2(log) <= nbits
    requires Count(Errors(BitsOf(a[..]), BitsOf(b[..]), mul, off)[start..start + Pow2(log)]) % 2 == 1
    ensures leaked == log && lo == Located(Errors(BitsOf(a[..]), BitsOf(b[..]), mul, off), start, log)
    ensures Errors(BitsOf(a[..]), BitsOf(b[..]), mul, off)[lo]
  {
    hide Errors, View, BitsOf, Count, Pow2, Differ, Located;
    ghost var x, y := BitsOf(a[..]), BitsOf(b[..]);
    ghost var v := Errors(x, y, mul, off);
    var hi := start + Pow2(log);
    lo, leaked := start, 0;
    ghost var s: nat := log;
    while hi - lo > 1
      invariant start <= lo < hi <= start + Pow2(log) && hi - lo == Pow2(s) && s <= log && leaked == log - s
      invariant Count(v[lo..hi]) % 2 == 1 && Located(v, lo, s) == Located(v, start, log)
      decreases s
    {
      HalfPow2(s);
      var mid := (lo + hi) / 2;
      assert mid == lo + Pow2(s - 1) && hi == mid + Pow2(s - 1);
      leaked := leaked + 1;
      var odd := Disagree(a, b, lo, mid, mul, off, nbits);
      OddHalf(v, lo, mid, hi);
      LocatedHalf(v, lo, s);
      if odd { hi := mid; } else { lo := mid; }
      s := s - 1;
    }
    CountOne(v, lo);
    HalfPow2(s);
    LocatedHalf(v, lo, s);
  }

  /** An odd range has one odd half. */
  lemma OddHalf(v: seq<bool>, lo: nat, mid: nat, hi: nat)
    requires lo <= mid <= hi <= |v| && Count(v[lo..hi]) % 2 == 1
    ensures Count(v[lo..mid]) % 2 == 1 <==> Count(v[mid..hi]) % 2 == 0
  {
    hide Count;
    CountSplit(v, lo, mid, hi);
  }

  lemma LocatedHalf(v: seq<bool>, lo: nat, s: nat)
    requires lo + Pow2(s) <= |v|
    ensures s == 0 ==> Located(v, lo, s) == lo
    ensures s > 0 ==> Pow2(s) == 2 * Pow2(s - 1)
    ensures s > 0 && Count(v[lo..lo + Pow2(s - 1)]) % 2 == 1 ==> Located(v, lo, s) == Located(v, lo, s - 1)
    ensures s > 0 && Count(v[lo..lo + Pow2(s - 1)]) % 2 == 0 ==>
              Located(v, lo, s) == Located(v, lo + Pow2(s - 1), s - 1)
  {
    hide Count;
  }

  lemma HalfPow2(s: nat)
    ensures s == 0 ==> Pow2(s) == 1
    ensures s > 0 ==> Pow2(s) == 2 * Pow2(s - 1) > 1
  {}

  lemma ChunkBounds(v: seq<bool>, chunk: nat, c: nat, n: nat)
    requires c < n && n * chunk <= |v|
    ensures 0 <= c * chunk <= (c + 1) * chunk <= |v| && (c + 1) * chunk == c * chunk + chunk
  {
    MulMono(chunk, c + 1, n);
  }

  lemma EarlierChunk(v: seq<bool>, chunk: nat, c: nat, d: nat, i: nat)
    requires d < c && EvenChunk(v, chunk, d) && c * chunk <= i < |v|
    ensures EvenChunk(v[i := false], chunk, d)
  {
    hide Count;
    MulMono(chunk, d + 1, c);
    assert v[i := false][d * chunk..(d + 1) * chunk] == v[d * chunk..(d + 1) * chunk];
  }

  lemma ThisChunk(v: seq<bool>, lo: nat, hi: nat, i: nat)
    requires lo <= i < hi <= |v| && v[i]
    ensures Count(v[i := false][lo..hi]) == Count(v[lo..hi]) - 1
  {
    hide Count;
    var x := v[lo..hi];
    assert v[i := false][lo..hi] == x[i - lo := false];
    CountClear(x, i - lo);
  }

  /** Clearing one bit of the first odd chunk makes it even and touches no earlier chunk. */
  lemma ChunkFixed(v: seq<bool>, chunk: nat, c: nat, n: nat, i: nat)
    requires c < n && n * chunk <= |v| && EvenChunks(v, chunk, c)
    requires c * chunk <= i < (c + 1) * chunk <= |v| && v[i] && Count(v[c * chunk..(c + 1) * chunk]) % 2 == 1
    ensures (c + 1) * chunk <= |v| && EvenChunks(v[i := false], chunk, c + 1)
  {
    hide Count;
    var w := v[i := false];
    forall d | 0 <= d < c + 1 ensures EvenChunk(w, chunk, d) {
      if d < c {
        assert EvenChunk(v, chunk, d);
        EarlierChunk(v, chunk, c, d, i);
      } else {
        ThisChunk(v, c * chunk, (c + 1) * chunk, i);
      }
    }
  }

  lemma ChunkKept(x: seq<bool>, y: seq<bool>, mul: nat, off: nat, log: nat, c: nat)
    requires |x| == |y| > 0 && c * Pow2(log) + Pow2(log) <= |x|
    requires Count(Errors(x, y, mul, off)[c * Pow2(log)..c * Pow2(log) + Pow2(log)]) % 2 == 0
    ensures ChunkDone(Differ(x, y), mul, off, log, c) == Differ(x, y)
  {
    hide Count, View, Differ, At, Located;
  }

  lemma ChunkFlipped(x: seq<bool>, y: seq<bool>, mul: nat, off: nat, log: nat, c: nat)
    requires |x| == |y| > 0 && c * Pow2(log) + Pow2(log) <= |x|
    requires Count(Errors(x, y, mul, off)[c * Pow2(log)..c * Pow2(log) + Pow2(log)]) % 2 == 1
    ensures ChunkDone(Differ(x, y), mul, off, log, c) ==
              Differ(x, y)[At(Located(Errors(x, y, mul, off), c * Pow2(log), log), mul, off, |x|) := false]
  {
    hide Count, View, Differ, At, Located;
  }

  /** An odd chunk: bisect it and flip what is found. */
  method FixChunk(a: array<byte>, b: array<byte>, lo: nat, log: nat, mul: nat, off: nat, nbits: nat)
    returns (leaked: nat)
    requires a != b && nbits == 8 * a.Length == 8 * b.Length && 0 < nbits && lo + Pow2(log) <= nbits
    requires Count(Errors(BitsOf(a[..]), BitsOf(b[..]), mul, off)[lo..lo + Pow2(log)]) % 2 == 1
    modifies b
    ensures leaked == log
    ensures var y := old(BitsOf(b[..])); var v := Errors(BitsOf(a[..]), y, mul, off); var i := Located(v, lo, log);
            v[i] && BitsOf(b[..]) == y[At(i, mul, off, nbits) := !y[At(i, mul, off, nbits)]]
  {
    hide Errors, View, BitsOf, Count, At, Differ, Located, Pow2;
    var i;
    leaked, i := Bisect(a, b, lo, log, mul, off, nbits);
    FlipInPlace(b, At(i, mul, off, nbits));
  }

  lemma WholeChunks(nbits: nat, log: nat)
    requires nbits % Pow2(log) == 0
    ensures ChunkCount(nbits, log) == nbits / Pow2(log) && ChunkCount(nbits, log) * Pow2(log) == nbits
  {
    hide Pow2;
  }

  /** One pass over all chunks: afterwards every chunk agrees in parity. */
  method RunPass(a: array<byte>, b: array<byte>, pass: Pass, mul: nat, off: nat, nbits: nat)
    returns (leaked: nat, ghost flips: nat)
    requires a != b && nbits == 8 * a.Length == 8 * b.Length && PowerOfTwo(nbits) && mul % 2 == 1
    requires nbits % Pow2(pass.log) == 0 && nbits > 0
    modifies b
    ensures Corrects(BitsOf(a[..]), old(BitsOf(b[..])), BitsOf(b[..]), flips)
    ensures EvenChunks(Errors(BitsOf(a[..]), BitsOf(b[..]), mul, off), Pow2(pass.log), nbits / Pow2(pass.log))
    ensures leaked == ChunkCount(nbits, pass.log) + pass.log * flips && flips <= ChunkCount(nbits, pass.log)
    ensures Differ(BitsOf(a[..]), BitsOf(b[..])) ==
              PassDone(old(Differ(BitsOf(a[..]), BitsOf(b[..]))), mul, off, pass.log)
  {
    hide Errors, View, BitsOf, Count, At, Differ, PowerOfTwo, Corrects, Located, ChunkDone, Pow2, ChunkCount;
    WholeChunks(nbits, pass.log);
    ghost var x, before := BitsOf(a[..]), BitsOf(b[..]);
    var chunk := Pow2(pass.log);
    var n := nbits / chunk;
    leaked, flips := 0, 0;
    CorrectsNothing(x, before);
    for c := 0 to n
      invariant b.Length == a.Length && Corrects(x, before, BitsOf(b[..]), flips)
      invariant EvenChunks(Errors(x, BitsOf(b[..]), mul, off), chunk, c)
      invariant leaked == c + pass.log * flips && flips <= c
      invariant c * chunk <= nbits && Differ(x, BitsOf(b[..])) == ChunksDone(Differ(x, before), mul, off, pass.log, c)
    {
      ghost var y := BitsOf(b[..]);
      ghost var v := Errors(x, y, mul, off);
      ChunkBounds(v, chunk, c, n);
      var lo, hi := c * chunk, (c + 1) * chunk;
      leaked := leaked + 1;
      var odd := Disagree(a, b, lo, hi, mul, off, nbits);
      if !odd {
        assert EvenChunk(v, chunk, c);
        ChunkKept(x, y, mul, off, pass.log, c);
      } else {
        ghost var i := Located(v, lo, pass.log);
        var l := FixChunk(a, b, lo, pass.log, mul, off, nbits);
        leaked := leaked + l;
        FixOne(x, y, mul, off, i);
        ChunkFlipped(x, y, mul, off, pass.log, c);
        CorrectsTransitive(x, before, y, y[At(i, mul, off, nbits) := !y[At(i, mul, off, nbits)]], flips, 1);
        ChunkFixed(v, chunk, c, n, i);
        assert pass.log * (flips + 1) == pass.log * flips + pass.log;
        flips := flips + 1;
      }
    }
  }

  lemma CorrectsNothing(a: seq<bool>, b: seq<bool>)
    requires |a| == |b|
    ensures Corrects(a, b, b, 0)
  {}

  // ---------- a round of five passes ----------

  /** Even chunks add up to an even number of disagreements. */
  lemma {:induction false} EvenPrefix(v: seq<bool>, chunk: nat, n: nat)
    requires n * chunk <= |v| && EvenChunks(v, chunk, n)
    ensures Count(v[..n * chunk]) % 2 == 0
  {
    if n == 0 {
      assert v[..0] == [];
    } else {
      hide Count, EvenChunk, EvenChunks;
      NextMultiple(n - 1, chunk);
      FewerChunks(v, chunk, n);
      EvenPrefix(v, chunk, n - 1);
      OneMoreEven(v, (n - 1) * chunk, n * chunk);
    }
  }

  lemma FewerChunks(v: seq<bool>, chunk: nat, n: nat)
    requires n > 0 && 0 <= (n - 1) * chunk <= n * chunk <= |v| && EvenChunks(v, chunk, n)
    ensures EvenChunks(v, chunk, n - 1) && Count(v[(n - 1) * chunk..n * chunk]) % 2 == 0
  {
    hide Count;
    assert EvenChunk(v, chunk, n - 1);
  }

  lemma OneMoreEven(v: seq<bool>, lo: nat, hi: nat)
    requires lo <= hi <= |v| && Count(v[..lo]) % 2 == 0 && Count(v[lo..hi]) % 2 == 0
    ensures Count(v[..hi]) % 2 == 0
  {
    hide Count;
    CountSplit(v, 0, lo, hi);
    assert v[0..hi] == v[..hi] && v[0..lo] == v[..lo];
  }

  lemma EvenDistance(a: seq<bool>, b: seq<bool>, mul: nat, off: nat, chunk: nat)
    requires |a| == |b| > 0 && PowerOfTwo(|a|) && mul % 2 == 1 && chunk > 0 && |a| / chunk * chunk == |a|
    requires EvenChunks(Errors(a, b, mul, off), chunk, |a| / chunk)
    ensures Count(Differ(a, b)) % 2 == 0
  {
    hide Count, View, Differ, EvenChunks;
    var v := Errors(a, b, mul, off);
    EvenPrefix(v, chunk, |a| / chunk);
    assert v[..|a|] == v;
    ViewCount(Differ(a, b), mul, off);
  }

  function Sum(s: seq<nat>): nat
  {
    if s == [] then 0 else Sum(s[..|s| - 1]) + s[|s| - 1]
  }

  /** What the corrections of each pass cost: log2 of its chunk length apiece. */
  function Cost(flips: seq<nat>): nat
    requires |flips| <= |PASSES|
  {
    if flips == [] then 0 else Cost(flips[..|flips| - 1]) + PASSES[|flips| - 1].log * flips[|flips| - 1]
  }

  lemma NextPass(flips: seq<nat>, n: nat)
    requires |flips| < |PASSES|
    ensures Sum(flips + [n]) == Sum(flips) + n && Cost(flips + [n]) == Cost(flips) + PASSES[|flips|].log * n
  {
    assert (flips + [n])[..|flips|] == flips;
  }

  /** Corrections of several rounds, pass by pass. */
  ghost function Plus(f: seq<nat>, g: seq<nat>): (h: seq<nat>)
    requires |f| == |g|
    ensures |h| == |f|
  {
    seq(|f|, i requires 0 <= i < |f| => f[i] + g[i])
  }

  lemma {:induction false} PlusAdds(f: seq<nat>, g: seq<nat>)
    requires |f| == |g| <= |PASSES|
    ensures Sum(Plus(f, g)) == Sum(f) + Sum(g) && Cost(Plus(f, g)) == Cost(f) + Cost(g)
  {
    if f != [] {
      var n := |f| - 1;
      assert Plus(f, g)[..n] == Plus(f[..n], g[..n]);
      PlusAdds(f[..n], g[..n]);
      Distribute(PASSES[n].log, f[n], g[n]);
    }
  }

  lemma FiveCosts(f: seq<nat>)
    requires |f| == |PASSES|
    ensures Cost(f) == 4 * f[0] + 5 * f[1] + 6 * f[2] + 7 * f[3] + 8 * f[4]
    ensures Sum(f) == f[0] + f[1] + f[2] + f[3] + f[4]
  {
    hide Sum, Cost;
    NoneYet();
    NextPass([], f[0]);
    NextPass([f[0]], f[1]);
    NextPass([f[0], f[1]], f[2]);
    NextPass([f[0], f[1], f[2]], f[3]);
    NextPass([f[0], f[1], f[2], f[3]], f[4]);
    assert f == [f[0], f[1], f[2], f[3]] + [f[4]];
    assert [] + [f[0]] == [f[0]] && [f[0]] + [f[1]] == [f[0], f[1]] && [f[0], f[1]] + [f[2]] == [f[0], f[1], f[2]];
    assert [f[0], f[1], f[2]] + [f[3]] == [f[0], f[1], f[2], f[3]];
  }

  ghost function NoFlips(): (f: seq<nat>)
    ensures |f| == |PASSES| && Sum(f) == 0 && Cost(f) == 0
  {
    FiveCosts([0, 0, 0, 0, 0]);
    [0, 0, 0, 0, 0]
  }

  /** Chunks examined in the first `k` passes of a round. */
  function Chunks(nbits: nat, k: nat): nat
    requires k <= |PASSES|
  {
    if k == 0 then 0 else Chunks(nbits, k - 1) + ChunkCount(nbits, PASSES[k - 1].log)
  }

  /** The most that bisecting can cost in the first `k` passes: one flip per chunk. */
  function BisectionLimit(nbits: nat, k: nat): nat
    requires k <= |PASSES|
  {
    if k == 0 then 0 else BisectionLimit(nbits, k - 1) + PASSES[k - 1].log * ChunkCount(nbits, PASSES[k - 1].log)
  }

  ghost predicate Divides(nbits: nat)
  {
    nbits > 0 && PowerOfTwo(nbits) && nbits % 256 == 0
  }

  lemma PassFits(nbits: nat, k: nat)
    requires Divides(nbits) && k < |PASSES|
    ensures nbits % Pow2(PASSES[k].log) == 0 && PASSES[k].mul % 2 == 1 && PowerOfTwo(nbits)
    ensures nbits / Pow2(PASSES[k].log) * Pow2(PASSES[k].log) == nbits
  {
    PassSizes();
    hide Pow2;
    var q := nbits / 256;
    assert nbits == 256 * q;
    if k == 0 { QuotientUnique(nbits, 16, 16 * q, 0); }
    else if k == 1 { QuotientUnique(nbits, 32, 8 * q, 0); }
    else if k == 2 { QuotientUnique(nbits, 64, 4 * q, 0); }
    else if k == 3 { QuotientUnique(nbits, 128, 2 * q, 0); }
  }

  lemma OddProduct(m: nat, round: nat)
    requires m % 2 == 1
    ensures m * (1 + 2 * round) % 2 == 1
  {
    assert m * (1 + 2 * round) == m + 2 * (m * round);
  }

  /** Five passes with this round's permutations; `flips` counts the corrections of each. */
  method RunRound(a: array<byte>, b: array<byte>, round: nat, nbits: nat) returns (leaked: nat, ghost flips: seq<nat>)
    requires a != b && nbits == 8 * a.Length == 8 * b.Length && Divides(nbits)
    modifies b
    ensures |flips| == |PASSES| && Corrects(BitsOf(a[..]), old(BitsOf(b[..])), BitsOf(b[..]), Sum(flips))
    ensures Count(Differ(BitsOf(a[..]), BitsOf(b[..]))) % 2 == 0
    ensures leaked == Chunks(nbits, |PASSES|) + Cost(flips) && Cost(flips) <= BisectionLimit(nbits, |PASSES|)
    ensures Differ(BitsOf(a[..]), BitsOf(b[..])) ==
              RoundDone(old(Differ(BitsOf(a[..]), BitsOf(b[..]))), round, |PASSES|)
    ensures leaked == RoundLeak(old(Differ(BitsOf(a[..]), BitsOf(b[..]))), round, |PASSES|)
  {
    hide Errors, View, BitsOf, Count, At, Differ, PowerOfTwo, Corrects, Pow2, EvenChunks, Sum, Cost, PassDone,
         RoundDone, RoundLeak, Chunks, BisectionLimit, Divides;
    SomeBits(nbits);
    ghost var x, before := BitsOf(a[..]), BitsOf(b[..]);
    ghost var d := Differ(x, before);
    leaked, flips := 0, [];
    NoneYet();
    NoPass(d, round, nbits);
    CorrectsNothing(x, before);
    for k := 0 to |PASSES|
      invariant |flips| == k && Corrects(x, before, BitsOf(b[..]), Sum(flips))
      invariant leaked == Chunks(nbits, k) + Cost(flips) && Cost(flips) <= BisectionLimit(nbits, k)
      invariant k > 0 ==> Count(Differ(x, BitsOf(b[..]))) % 2 == 0
      invariant Differ(x, BitsOf(b[..])) == RoundDone(d, round, k) && leaked == RoundLeak(d, round, k)
    {
      ghost var y := BitsOf(b[..]);
      var mul, off := PASSES[k].mul * (1 + 2 * round), round * 101;
      PassFits(nbits, k);
      OddProduct(PASSES[k].mul, round);
      var l; ghost var n;
      l, n := RunPass(a, b, PASSES[k], mul, off, nbits);
      EvenDistance(x, BitsOf(b[..]), mul, off, Pow2(PASSES[k].log));
      CorrectsTransitive(x, before, y, BitsOf(b[..]), Sum(flips), n);
      FlipsOf(x, y, BitsOf(b[..]), n);
      MulMono(PASSES[k].log, n, ChunkCount(nbits, PASSES[k].log));
      NextPass(flips, n);
      OnePass(d, round, k, nbits);
      flips := flips + [n];
      leaked := leaked + l;
    }
  }

  lemma NoPass(d: seq<bool>, round: nat, nbits: nat)
    requires |d| > 0
    ensures RoundDone(d, round, 0) == d && RoundLeak(d, round, 0) == 0 && Chunks(nbits, 0) == 0
    ensures BisectionLimit(nbits, 0) == 0
  {}

  lemma OnePass(d: seq<bool>, round: nat, k: nat, nbits: nat)
    requires |d| == nbits > 0 && k < |PASSES|
    ensures RoundDone(d, round, k + 1) ==
              PassDone(RoundDone(d, round, k), PASSES[k].mul * (1 + 2 * round), round * 101, PASSES[k].log)
    ensures PassFlips(d, round, k) == Count(RoundDone(d, round, k)) - Count(RoundDone(d, round, k + 1))
    ensures RoundLeak(d, round, k + 1) ==
              RoundLeak(d, round, k) + PassLeak(ChunkCount(nbits, PASSES[k].log), PASSES[k].log, PassFlips(d, round, k))
    ensures Chunks(nbits, k + 1) == Chunks(nbits, k) + ChunkCount(nbits, PASSES[k].log)
    ensures BisectionLimit(nbits, k + 1) == BisectionLimit(nbits, k) + PASSES[k].log * ChunkCount(nbits, PASSES[k].log)
  {
    hide PassDone, Count, Pow2, PassLeak, ChunkCount;
  }

  lemma NoneYet()
    ensures Sum([]) == 0 && Cost([]) == 0
  {}

  lemma FlipsOf(a: seq<bool>, b: seq<bool>, b': seq<bool>, flips: nat)
    requires Corrects(a, b, b', flips)
    ensures flips == Count(Differ(a, b)) - Count(Differ(a, b'))
  {}

  /** Error correction.  `a` is not touched; every change to `b` removes one real disagreement; what
      is left and what was disclosed are the functions `Residue` and `Leak` of the disagreements; the
      residual distance is even; `flips[k]` counts the corrections made with chunks of 2^(4 + k) bits. */
  method Reconcile(a: array<byte>, b: array<byte>, nbits: nat)
    returns (leaked: nat, ghost rounds: nat, ghost flips: seq<nat>)
    requires a != b && nbits == 8 * a.Length == 8 * b.Length && Divides(nbits)
    modifies b
    ensures |flips| == |PASSES| && Corrects(BitsOf(a[..]), old(BitsOf(b[..])), BitsOf(b[..]), Sum(flips))
    ensures Count(Differ(BitsOf(a[..]), BitsOf(b[..]))) % 2 == 0
    ensures rounds == RoundsUsed(old(Differ(BitsOf(a[..]), BitsOf(b[..]))), 0)
    ensures rounds <= MAX_ROUNDS && leaked == rounds * Chunks(nbits, |PASSES|) + Cost(flips)
    ensures Cost(flips) <= rounds * BisectionLimit(nbits, |PASSES|)
    ensures rounds < MAX_ROUNDS ==> a[..] == b[..]
    ensures Count(Differ(BitsOf(a[..]), old(BitsOf(b[..])))) <= 1 ==> a[..] == b[..]
    ensures a[..] == old(b[..]) ==> leaked == 0
    ensures Differ(BitsOf(a[..]), BitsOf(b[..])) == Residue(old(Differ(BitsOf(a[..]), BitsOf(b[..]))), 0)
    ensures leaked == Leak(old(Differ(BitsOf(a[..]), BitsOf(b[..]))), 0)
    ensures nbits == 4096 ==>
              && leaked == 496 * rounds + 4 * flips[0] + 5 * flips[1] + 6 * flips[2] + 7 * flips[3] + 8 * flips[4]
              && leaked <= 34752
  {
    hide BitsOf, Count, Differ, Corrects, Sum, Cost, Chunks, BisectionLimit, RoundDone, RoundLeak,
         Residue, Leak, RoundsUsed, SoFar, Divides;
    ghost var x, before := BitsOf(a[..]), BitsOf(b[..]);
    ghost var d := Differ(x, before);
    SomeBits(nbits);
    leaked, rounds, flips := 0, 0, NoFlips();
    CorrectsNothing(x, before);
    NothingYet(d);
    for round := 0 to MAX_ROUNDS
      invariant rounds == round && |flips| == |PASSES| && Corrects(x, before, BitsOf(b[..]), Sum(flips))
      invariant round > 0 ==> Count(Differ(x, BitsOf(b[..]))) % 2 == 0 && a[..] != old(b[..])
      invariant leaked == rounds * Chunks(nbits, |PASSES|) + Cost(flips)
      invariant Cost(flips) <= rounds * BisectionLimit(nbits, |PASSES|)
      invariant round == 0 ==> leaked == 0 && b[..] == old(b[..])
      invariant SoFar(d, Differ(x, BitsOf(b[..])), round, leaked)
    {
      NoneLeftIff(a[..], b[..]);
      if a[..] == b[..] { break; }
      ghost var y := BitsOf(b[..]);
      var l; ghost var more;
      l, more := RunRound(a, b, round, nbits);
      CorrectsTransitive(x, before, y, BitsOf(b[..]), Sum(flips), Sum(more));
      PlusAdds(flips, more);
      NextSoFar(d, Differ(x, y), round, leaked);
      NextMultiple(rounds, Chunks(nbits, |PASSES|));
      NextMultiple(rounds, BisectionLimit(nbits, |PASSES|));
      leaked, flips, rounds := leaked + l, Plus(flips, more), rounds + 1;
    }
    NoneLeftIff(a[..], b[..]);
    AllDone(d, Differ(x, BitsOf(b[..])), rounds, leaked);
    FinalDistance(a[..], before, b[..], Sum(flips));
    if nbits == 4096 {
      LeakBound(rounds, Cost(flips));
      FiveCosts(flips);
    }
  }

  lemma SomeBits(nbits: nat)
    requires Divides(nbits)
    ensures nbits > 0
  {}

  lemma NextRound(d: seq<bool>, round: nat)
    requires |d| > 0 && round < MAX_ROUNDS && Count(d) != 0
    ensures Residue(d, round) == Residue(RoundDone(d, round, |PASSES|), round + 1)
    ensures Leak(d, round) == RoundLeak(d, round, |PASSES|) + Leak(RoundDone(d, round, |PASSES|), round + 1)
    ensures RoundsUsed(d, round) == 1 + RoundsUsed(RoundDone(d, round, |PASSES|), round + 1)
  {
    hide RoundDone, RoundLeak, Count;
  }

  /** After `round` super-rounds and `leaked` parities, disagreements `d` have come down to `now`. */
  ghost predicate SoFar(d: seq<bool>, now: seq<bool>, round: nat, leaked: nat)
    requires |d| > 0 && |now| > 0 && round <= MAX_ROUNDS
  {
    && Residue(now, round) == Residue(d, 0) && leaked + Leak(now, round) == Leak(d, 0)
    && round + RoundsUsed(now, round) == RoundsUsed(d, 0)
  }

  lemma NothingYet(d: seq<bool>)
    requires |d| > 0
    ensures SoFar(d, d, 0, 0)
  {
    hide Residue, Leak, RoundsUsed;
  }

  lemma NextSoFar(d: seq<bool>, now: seq<bool>, round: nat, leaked: nat)
    requires |d| > 0 && |now| > 0 && round < MAX_ROUNDS && Count(now) != 0 && SoFar(d, now, round, leaked)
    ensures SoFar(d, RoundDone(now, round, |PASSES|), round + 1, leaked + RoundLeak(now, round, |PASSES|))
  {
    hide Residue, Leak, RoundsUsed, RoundDone, RoundLeak, Count;
    NextRound(now, round);
  }

  lemma AllDone(d: seq<bool>, now: seq<bool>, round: nat, leaked: nat)
    requires |d| > 0 && |now| > 0 && round <= MAX_ROUNDS && (round == MAX_ROUNDS || Count(now) == 0)
    requires SoFar(d, now, round, leaked)
    ensures now == Residue(d, 0) && leaked == Leak(d, 0) && round == RoundsUsed(d, 0)
  {
    hide Residue, Leak, RoundsUsed, Count;
    Finished(now, round);
  }

  lemma Finished(d: seq<bool>, round: nat)
    requires |d| > 0 && round <= MAX_ROUNDS && (round == MAX_ROUNDS || Count(d) == 0)
    ensures Residue(d, round) == d && Leak(d, round) == 0 && RoundsUsed(d, round) == 0
  {
    hide RoundDone, RoundLeak, Count;
  }

  /** The buffers agree exactly when no bit differs. */
  lemma NoneLeftIff(a: seq<byte>, b: seq<byte>)
    requires |a| == |b|
    ensures a == b <==> Count(Differ(BitsOf(a), BitsOf(b))) == 0
  {
    CountZero(Differ(BitsOf(a), BitsOf(b)));
    hide BitsOf, Count;
    var d := Differ(BitsOf(a), BitsOf(b));
    if Count(d) == 0 {
      forall i | 0 <= i < 8 * |a| ensures BitsOf(a)[i] == BitsOf(b)[i] { assert !d[i]; }
      BitsDetermine(a, b);
    }
  }

  lemma NextMultiple(n: nat, x: nat)
    ensures (n + 1) * x == n * x + x
  {}

  lemma FinalDistance(a: seq<byte>, before: seq<bool>, b: seq<byte>, flips: nat)
    requires |a| == |b| && Corrects(BitsOf(a), before, BitsOf(b), flips) && Count(Differ(BitsOf(a), BitsOf(b))) % 2 == 0
    ensures Count(Differ(BitsOf(a), before)) <= 1 ==> a == b
  {
    NoneLeftIff(a, b);
  }

  /** For the 4096-bit raw key no more than 34752 parities are ever disclosed. */
  lemma LeakBound(rounds: nat, spent: nat)
    requires rounds <= MAX_ROUNDS && spent <= rounds * BisectionLimit(4096, |PASSES|)
    ensures Chunks(4096, |PASSES|) == 496
    ensures rounds * Chunks(4096, |PASSES|) + spent <= 34752
  {
    PassSizes();
    hide Pow2;
    assert Chunks(4096, 1) == 256;
    assert Chunks(4096, 2) == 384;
    assert Chunks(4096, 3) == 448;
    assert Chunks(4096, 4) == 480;
    assert Chunks(4096, 5) == 496;
    assert BisectionLimit(4096, 1) == 1024;
    assert BisectionLimit(4096, 2) == 1664;
    assert BisectionLimit(4096, 3) == 2048;
    assert BisectionLimit(4096, 4) == 2272;
    assert BisectionLimit(4096, 5) == 2400;
  }

  /** Every correction costs at least four parities, on top of one parity per chunk. */
  lemma {:induction false} RoundLeakAtLeast(d: seq<bool>, round: nat, k: nat)
    requires |d| > 0 && k <= |PASSES|
    ensures RoundLeak(d, round, k) + 4 * Count(RoundDone(d, round, k)) >= Chunks(|d|, k) + 4 * Count(d)
  {
    hide Count, RoundDone, RoundLeak, Chunks, BisectionLimit, ChunkCount, PassFlips;
    if k == 0 {
      NoPass(d, round, |d|);
    } else {
      RoundLeakAtLeast(d, round, k - 1);
      OnePass(d, round, k - 1, |d|);
      AtLeastFour(PASSES[k - 1].log, PassFlips(d, round, k - 1));
    }
  }

  lemma AtLeastFour(log: nat, flips: nat)
    requires log >= 4
    ensures log * flips >= 4 * flips
  {}

  lemma {:induction false} LeakAtLeast(d: seq<bool>, round: nat)
    requires |d| == 4096 && round <= MAX_ROUNDS
    ensures Leak(d, round) + 4 * Count(Residue(d, round)) >= 496 * RoundsUsed(d, round) + 4 * Count(d)
    decreases MAX_ROUNDS - round
  {
    hide Count, RoundDone, RoundLeak, Residue, Leak, RoundsUsed, Chunks, BisectionLimit;
    if round == MAX_ROUNDS || Count(d) == 0 {
      Finished(d, round);
    } else {
      NextRound(d, round);
      RoundLeakAtLeast(d, round, |PASSES|);
      LeakBound(0, 0);
      LeakAtLeast(RoundDone(d, round, |PASSES|), round + 1);
    }
  }

  lemma PassSizes()
    ensures Pow2(4) == 16 && Pow2(5) == 32 && Pow2(6) == 64 && Pow2(7) == 128 && Pow2(8) == 256
  {}
}
