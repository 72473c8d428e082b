/** `i -> (i * mul + off) mod n`: a bijection when `n` is a power of two and `mul` is odd. */
module Permutations {
  import opened Bits
  import opened BitStrings
  import opened Sets

  function At(i: nat, mul: nat, off: nat, n: nat): (j: nat)
    requires n > 0
    ensures j < n
  {
    (i * mul + off) % n
  }

  /** The places visited in order: the first is the offset, */
  lemma AtFirst(mul: nat, off: nat, n: nat)
    requires n > 0
    ensures At(0, mul, off, n) == off % n
  {}

  /** and each next one is a multiplier further on, around the end. */
  lemma AtNext(i: nat, mul: nat, off: nat, n: nat)
    requires n > 0
    ensures At(i + 1, mul, off, n) == (At(i, mul, off, n) + mul) % n
  {
    hide At;
    var x := i * mul + off;
    AtOf(i, mul, off, n, x);
    Distribute(mul, i, 1);
    AtOf(i + 1, mul, off, n, x + mul);
    AddMod(x, At(i, mul, off, n), mul, n);
  }

  lemma AtOf(i: nat, mul: nat, off: nat, n: nat, x: nat)
    requires n > 0 && x == i * mul + off
    ensures At(i, mul, off, n) == x % n
  {}

  lemma AddMod(x: nat, r: nat, m: nat, n: nat)
    requires n > 0 && r == x % n
    ensures (x + m) % n == (r + m) % n
  {
    var q, q', r' := x / n, (r + m) / n, (r + m) % n;
    Distribute(n, q, q');
    QuotientUnique(x + m, n, q + q', r');
  }

  ghost predicate PowerOfTwo(n: nat) { exists k: nat :: n == Pow2(k) }

  /** An odd factor can be cancelled modulo a power of two. */
  lemma {:induction false} OddCancels(k: nat, m: nat, d: nat)
    requires m % 2 == 1 && m * d % Pow2(k) == 0
    ensures d % Pow2(k) == 0
  {
    if k > 0 {
      var p := Pow2(k - 1);
      var q := m * d / (2 * p);
      assert m * d == 2 * (p * q) by { Assoc(2, p, q); }
      var h := d / 2;
      assert d % 2 == 0 by { OddTimes(m, d); }
      assert m * d == 2 * (m * h) by { Scale2(m, h); }
      assert m * h == p * q;
      MultipleModZero(p, q);
      OddCancels(k - 1, m, h);
      var r := h / p;
      assert h == p * r;
      Assoc(2, p, r);
      MultipleModZero(2 * p, r);
    }
  }

  lemma OddTimes(m: nat, d: nat)
    requires m % 2 == 1 && m * d % 2 == 0
    ensures d % 2 == 0
  {
    var t := m / 2;
    assert m * d == 2 * (t * d) + d by { Distribute(d, 2 * t, 1); Assoc(2, t, d); }
  }

  lemma Scale2(m: int, h: int)
    ensures m * (2 * h) == 2 * (m * h)
  {}

  lemma MultipleModZero(p: nat, q: int)
    requires p > 0
    ensures p * q % p == 0
  {
    QuotientUnique(p * q, p, q, 0);
  }

  lemma Injective(i: nat, j: nat, mul: nat, off: nat, n: nat)
    requires PowerOfTwo(n) && mul % 2 == 1 && i < n && j < n && At(i, mul, off, n) == At(j, mul, off, n)
    ensures i == j
  {
    if i > j {
      InjectiveOrdered(j, i, mul, off, n);
    } else if j > i {
      InjectiveOrdered(i, j, mul, off, n);
    }
  }

  lemma InjectiveOrdered(i: nat, j: nat, mul: nat, off: nat, n: nat)
    requires PowerOfTwo(n) && mul % 2 == 1 && i < j < n
    ensures At(i, mul, off, n) != At(j, mul, off, n)
  {
    var k: nat :| n == Pow2(k);
    hide Pow2;
    if At(i, mul, off, n) == At(j, mul, off, n) {
      SameResidue(i * mul + off, j * mul + off, n);
      assert j * mul - i * mul == mul * (j - i) by { Factor(mul, i, j); }
      MulMono(mul, 0, j - i);
      OddCancels(k, mul, j - i);
      SmallResidue(j - i, n);
      assert false;
    }
  }

  lemma Factor(m: nat, i: nat, j: nat)
    ensures j * m - i * m == m * (j - i)
  {}

  lemma SmallResidue(x: nat, n: nat)
    requires 0 < x < n
    ensures x % n != 0
  {}

  lemma SameResidue(x: nat, y: nat, n: nat)
    requires n > 0 && x % n == y % n
    ensures (y - x) % n == 0
  {
    var p, q := x / n, y / n;
    assert x == n * p + x % n && y == n * q + y % n;
    assert y - x == n * (q - p) by { Distribute(n, q, 0 - p); }
    MultipleModZero(n, q - p);
  }

  // ---------- a permuted bit string ----------

  /** `v` read in the order of the permutation. */
  function View(v: seq<bool>, mul: nat, off: nat): (w: seq<bool>)
    requires |v| > 0
    ensures |w| == |v|
  {
    seq(|v|, i requires 0 <= i < |v| => v[At(i, mul, off, |v|)])
  }

  /** Clearing one bit clears one bit of the view. */
  lemma ViewClear(v: seq<bool>, mul: nat, off: nat, i: nat)
    requires i < |v| && PowerOfTwo(|v|) && mul % 2 == 1
    ensures View(v[At(i, mul, off, |v|) := false], mul, off) == View(v, mul, off)[i := false]
  {
    hide At;
    var w := v[At(i, mul, off, |v|) := false];
    forall j | 0 <= j < |v| ensures View(w, mul, off)[j] == View(v, mul, off)[i := false][j] {
      if At(j, mul, off, |v|) == At(i, mul, off, |v|) { Injective(j, i, mul, off, |v|); }
    }
  }

  /** Every position is reached, so no bit is lost from view. */
  lemma ViewCount(v: seq<bool>, mul: nat, off: nat)
    requires |v| > 0 && PowerOfTwo(|v|) && mul % 2 == 1
    ensures Count(View(v, mul, off)) == Count(v)
    decreases Count(View(v, mul, off))
  {
    hide At, Count;
    var w := View(v, mul, off);
    CountZero(w);
    if Count(w) == 0 {
      forall j | 0 <= j < |v| ensures !v[j] {
        var i := Preimage(j, mul, off, |v|);
        assert !w[i];
      }
      CountZero(v);
    } else {
      var i :| 0 <= i < |w| && w[i];
      var j := At(i, mul, off, |v|);
      ViewClear(v, mul, off, i);
      CountClear(w, i);
      CountClear(v, j);
      ViewCount(v[j := false], mul, off);
    }
  }

  /** Some position is mapped to `j`. */
  ghost predicate Hit(j: nat, mul: nat, off: nat, n: nat)
    requires n > 0
  {
    exists i :: 0 <= i < n && At(i, mul, off, n) == j
  }

  lemma Preimage(j: nat, mul: nat, off: nat, n: nat) returns (i: nat)
    requires j < n && PowerOfTwo(n) && mul % 2 == 1
    ensures i < n && At(i, mul, off, n) == j
  {
    hide At, PowerOfTwo;
    if forall i :: 0 <= i < n ==> At(i, mul, off, n) != j {
      var image := Image(n, mul, off, n);
      hide Below;
      assert j in Below(n) && j !in image;
      SubsetSize(image, Below(n) - {j});
      assert false;
    }
    i :| 0 <= i < n && At(i, mul, off, n) == j;
  }

  /** The values at the first `m` positions: all different. */
  lemma {:induction false} Image(m: nat, mul: nat, off: nat, n: nat) returns (image: set<nat>)
    requires m <= n && 0 < n && PowerOfTwo(n) && mul % 2 == 1
    ensures |image| == m && forall x :: x in image ==> x < n
    ensures forall x :: x in image <==> exists i :: 0 <= i < m && At(i, mul, off, n) == x
  {
    hide At, PowerOfTwo, Below;
    if m == 0 {
      image := {};
    } else {
      var rest := Image(m - 1, mul, off, n);
      var x := At(m - 1, mul, off, n);
      if x in rest {
        var i :| 0 <= i < m - 1 && At(i, mul, off, n) == x;
        Injective(i, m - 1, mul, off, n);
      }
      image := rest + {x};
    }
  }

  /** The permutation is a bijection of the positions below `n`. */
  lemma Bijective(mul: nat, off: nat, n: nat)
    requires 0 < n && PowerOfTwo(n) && mul % 2 == 1
    ensures forall i, j :: 0 <= i < n && 0 <= j < n && At(i, mul, off, n) == At(j, mul, off, n) ==> i == j
    ensures forall j :: 0 <= j < n ==> Hit(j, mul, off, n)
  {
    hide At, PowerOfTwo;
    forall i, j | 0 <= i < n && 0 <= j < n && At(i, mul, off, n) == At(j, mul, off, n) ensures i == j {
      Injective(i, j, mul, off, n);
    }
    forall j | 0 <= j < n ensures Hit(j, mul, off, n) {
      var i := Preimage(j, mul, off, n);
    }
  }
}
