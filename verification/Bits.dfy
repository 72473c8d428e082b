/** Machine words as natural numbers, and the bit operators the kernel uses on them.

    `x >> k` is division and `x << k` multiplication by `Pow2(k)`; the bitwise operators are
    defined bit by bit, and the lemmas say what each does to bit `i`. */
module Bits {

  function Pow2(n: nat): (p: nat)
    ensures p > 0
  {
    if n == 0 then 1 else 2 * Pow2(n - 1)
  }

  function Shl(x: nat, k: nat): nat { x * Pow2(k) }

  /** Bit `i` of `a`, counted from the least significant. */
  predicate Bit(a: nat, i: nat)
  {
    if i == 0 then a % 2 == 1 else Bit(a / 2, i - 1)
  }

  function And(a: nat, b: nat): nat
  {
    if a == 0 then 0
    else 2 * And(a / 2, b / 2) + if a % 2 == 1 && b % 2 == 1 then 1 else 0
  }

  function Or(a: nat, b: nat): nat
  {
    if a == 0 then b
    else 2 * Or(a / 2, b / 2) + if a % 2 == 1 || b % 2 == 1 then 1 else 0
  }

  function Xor(a: nat, b: nat): nat
  {
    if a == 0 then b
    else 2 * Xor(a / 2, b / 2) + if a % 2 != b % 2 then 1 else 0
  }

  lemma {:induction false} BitOfZero(i: nat)
    ensures !Bit(0, i)
  {
    if i > 0 { BitOfZero(i - 1); }
  }

  lemma {:induction false} BitAnd(a: nat, b: nat, i: nat)
    ensures Bit(And(a, b), i) <==> Bit(a, i) && Bit(b, i)
  {
    if a == 0 {
      BitOfZero(i);
    } else if i > 0 {
      BitAnd(a / 2, b / 2, i - 1);
    }
  }

  lemma {:induction false} BitOr(a: nat, b: nat, i: nat)
    ensures Bit(Or(a, b), i) <==> Bit(a, i) || Bit(b, i)
  {
    if a == 0 {
      BitOfZero(i);
    } else if i > 0 {
      BitOr(a / 2, b / 2, i - 1);
    }
  }

  lemma {:induction false} BitXor(a: nat, b: nat, i: nat)
    ensures Bit(Xor(a, b), i) <==> Bit(a, i) != Bit(b, i)
  {
    if a == 0 {
      BitOfZero(i);
    } else if i > 0 {
      BitXor(a / 2, b / 2, i - 1);
    }
  }

  lemma {:induction false} BitPow2(k: nat, i: nat)
    ensures Bit(Pow2(k), i) <==> i == k
  {
    if k == 0 && i > 0 {
      BitOfZero(i - 1);
    } else if i > 0 {
      BitPow2(k - 1, i - 1);
    }
  }

  /** `!x` on a `k`-bit word. */
  lemma {:induction false} BitNot(x: nat, k: nat, i: nat)
    requires x < Pow2(k) && i < k
    ensures Bit(Pow2(k) - 1 - x, i) <==> !Bit(x, i)
  {
    if i > 0 {
      assert (Pow2(k) - 1 - x) / 2 == Pow2(k - 1) - 1 - x / 2;
      BitNot(x / 2, k - 1, i - 1);
    }
  }

  lemma {:induction false} Pow2Add(m: nat, n: nat)
    ensures Pow2(m + n) == Pow2(m) * Pow2(n)
  {
    if m > 0 { Pow2Add(m - 1, n); }
  }

  lemma Pow2Words()
    ensures Pow2(8) == 0x100 && Pow2(16) == 0x1_0000 && Pow2(24) == 0x100_0000 && Pow2(26) == 0x400_0000
    ensures Pow2(32) == 0x1_0000_0000 && Pow2(52) == 0x10_0000_0000_0000 && Pow2(64) == 0x1_0000_0000_0000_0000
    ensures Pow2(78) == 0x4000_0000_0000_0000_0000 && Pow2(96) == 0x1_0000_0000_0000_0000_0000_0000
    ensures Pow2(104) == 0x100_0000_0000_0000_0000_0000_0000
    ensures Pow2(128) == 0x1_0000_0000_0000_0000_0000_0000_0000_0000
  {
    assert Pow2(2) == 4 && Pow2(8) == 0x100;
    hide Pow2;
    Pow2Add(8, 8); Pow2Add(16, 8); Pow2Add(24, 2); Pow2Add(16, 16); Pow2Add(26, 26); Pow2Add(32, 32);
    Pow2Add(52, 26); Pow2Add(64, 32); Pow2Add(52, 52); Pow2Add(64, 64);
  }

  lemma {:induction false} Pow2Monotone(m: nat, n: nat)
    requires m <= n
    ensures Pow2(m) <= Pow2(n)
    decreases n
  {
    if m < n { Pow2Monotone(m, n - 1); }
  }

  /** `(x >> i) & 1` is bit `i`. */
  lemma {:induction false} BitIsShift(x: nat, i: nat)
    ensures Bit(x, i) <==> x / Pow2(i) % 2 == 1
  {
    if i > 0 {
      BitIsShift(x / 2, i - 1);
      DivDiv(x, 2, Pow2(i - 1));
    }
  }

  lemma DivDiv(x: nat, a: nat, b: nat)
    requires a > 0 && b > 0
    ensures a * b > 0 && x / a / b == x / (a * b)
  {
    var q, s := x / a / b, x / a % b;
    assert x == a * (b * q + s) + x % a;
    assert a * (b * q + s) == (a * b) * q + a * s by { Distribute(a, b * q, s); Assoc(a, b, q); }
    assert 0 <= a * s + x % a < a * b by {
      assert s + 1 <= b;
      MulMono(a, s + 1, b);
      Distribute(a, s, 1);
    }
    QuotientUnique(x, a * b, q, a * s + x % a);
  }

  lemma Distribute(a: int, b: int, c: int)
    ensures a * (b + c) == a * b + a * c
  {}

  lemma Assoc(a: int, b: int, c: int)
    ensures a * (b * c) == (a * b) * c
  {}

  lemma MulMono(a: int, b: int, c: int)
    requires 0 <= a && b <= c
    ensures a * b <= a * c
  {}

  lemma QuotientUnique(x: int, d: int, q: int, r: int)
    requires d > 0 && x == d * q + r && 0 <= r < d
    ensures x / d == q && x % d == r
  {
    var q', r' := x / d, x % d;
    assert d * (q - q') == r' - r;
    if q > q' { MulMono(d, 1, q - q'); }
    if q < q' { MulMono(d, 1, q' - q); }
  }

  lemma {:induction false} XorZero(a: nat)
    ensures Xor(a, 0) == a
  {
    if a > 0 { XorZero(a / 2); }
  }

  /** XOR with the same pad twice gives the text back: what makes `open` undo `seal`. */
  lemma {:induction false} XorInvolution(a: nat, b: nat)
    ensures Xor(Xor(a, b), b) == a
  {
    if a == 0 {
      XorSelf(b);
    } else {
      hide Xor;
      var x, half := Xor(a, b), Xor(a / 2, b / 2);
      XorHalves(a, b);
      XorHalves(x, b);
      assert x / 2 == half && x % 2 == if a % 2 != b % 2 then 1 else 0;
      XorInvolution(a / 2, b / 2);
    }
  }

  lemma XorHalves(a: nat, b: nat)
    ensures Xor(a, b) == 2 * Xor(a / 2, b / 2) + if a % 2 != b % 2 then 1 else 0
  {}

  lemma {:induction false} XorSwap(a: nat, b: nat)
    ensures Xor(a, b) == Xor(b, a)
  {
    if a != 0 || b != 0 { XorSwap(a / 2, b / 2); }
  }

  lemma {:induction false} XorSelf(a: nat)
    ensures Xor(a, a) == 0
  {
    if a > 0 { XorSelf(a / 2); }
  }

  lemma {:induction false} XorBound(a: nat, b: nat, k: nat)
    requires a < Pow2(k) && b < Pow2(k)
    ensures Xor(a, b) < Pow2(k)
  {
    if k > 0 && a > 0 { XorBound(a / 2, b / 2, k - 1); }
  }

  lemma {:induction false} OrBound(a: nat, b: nat, k: nat)
    requires a < Pow2(k) && b < Pow2(k)
    ensures Or(a, b) < Pow2(k)
  {
    if k > 0 && a > 0 { OrBound(a / 2, b / 2, k - 1); }
  }

  /** `diff |= a ^ b` stays zero exactly while the words agree. */
  lemma {:induction false} XorZeroIff(a: nat, b: nat)
    ensures Xor(a, b) == 0 <==> a == b
  {
    if a > 0 { XorZeroIff(a / 2, b / 2); }
  }

  lemma {:induction false} OrZeroIff(a: nat, b: nat)
    ensures Or(a, b) == 0 <==> a == 0 && b == 0
  {
    if a > 0 { OrZeroIff(a / 2, b / 2); }
  }

  lemma {:induction false} AndAtMost(a: nat, b: nat)
    ensures And(a, b) <= a
  {
    if a > 0 { AndAtMost(a / 2, b / 2); }
  }

  /** `x & (2^k - 1)` is the remainder: the 26-bit limb masks, and `!(align - 1)` below. */
  lemma {:induction false} AndMask(x: nat, k: nat)
    ensures And(x, Pow2(k) - 1) == x % Pow2(k)
  {
    if k == 0 {
      AndZero(x);
    } else {
      hide And;
      var p := Pow2(k - 1);
      AndMask(x / 2, k - 1);
      AndHalves(x, x / 2, 2 * p - 1, p - 1);
      ModTwice(x, p);
    }
  }

  lemma ModTwice(x: nat, p: nat)
    requires p > 0
    ensures x % (2 * p) == 2 * (x / 2 % p) + x % 2
  {
    var h := x / 2;
    var q, s := h / p, h % p;
    assert h == p * q + s;
    Assoc(2, p, q);
    QuotientUnique(x, 2 * p, q, 2 * s + x % 2);
  }

  lemma {:induction false} AndZero(x: nat)
    ensures And(x, 0) == 0
  {
    if x > 0 { AndZero(x / 2); }
  }

  /** Joining two words whose bits do not overlap: `lo | (hi << k)` is `lo + hi * 2^k`. */
  lemma {:induction false} OrIsAdd(lo: nat, hi: nat, k: nat)
    requires lo < Pow2(k)
    ensures Or(lo, hi * Pow2(k)) == lo + hi * Pow2(k)
  {
    if lo > 0 {
      assert k > 0;
      assert hi * Pow2(k) == 2 * (hi * Pow2(k - 1));
      OrIsAdd(lo / 2, hi, k - 1);
    }
  }

  /** A mask applied to a two-part word can be applied to the parts. */
  lemma {:induction false} AndParts(a: nat, b: nat, c: nat, d: nat, k: nat)
    requires a < Pow2(k) && c < Pow2(k)
    ensures And(a + b * Pow2(k), c + d * Pow2(k)) == And(a, c) + And(b, d) * Pow2(k)
  {
    if k > 0 {
      hide And;
      var p := Pow2(k - 1);
      AndParts(a / 2, b, c / 2, d, k - 1);
      AndPartsStep(a, b, c, d, p);
    }
  }

  lemma AndPartsStep(a: nat, b: nat, c: nat, d: nat, p: nat)
    requires And(a / 2 + b * p, c / 2 + d * p) == And(a / 2, c / 2) + And(b, d) * p
    ensures And(a + b * (2 * p), c + d * (2 * p)) == And(a, c) + And(b, d) * (2 * p)
  {
    hide And;
    var bp, dp, np := b * p, d * p, And(b, d) * p;
    assert b * (2 * p) == 2 * bp && d * (2 * p) == 2 * dp && And(b, d) * (2 * p) == 2 * np;
    AndHalves(a + 2 * bp, a / 2 + bp, c + 2 * dp, c / 2 + dp);
    AndHalves(a, a / 2, c, c / 2);
  }

  lemma AndHalves(a: nat, a': nat, b: nat, b': nat)
    requires a' == a / 2 && b' == b / 2
    ensures And(a, b) == 2 * And(a', b') + if a % 2 == 1 && b % 2 == 1 then 1 else 0
  {}

  /** `w & (1 << b)` isolates bit `b`. */
  lemma {:induction false} AndPow2(w: nat, b: nat)
    ensures And(w, Pow2(b)) == if Bit(w, b) then Pow2(b) else 0
  {
    if w == 0 {
      BitOfZero(b);
    } else if b == 0 {
      AndZero(w / 2);
    } else {
      AndPow2(w / 2, b - 1);
    }
  }

  /** Clearing the low `k` bits of an `n`-bit word rounds down to a multiple of 2^k. */
  lemma {:induction false} AndHighMask(y: nat, k: nat, n: nat)
    requires k <= n && y < Pow2(n)
    ensures Pow2(k) <= Pow2(n) && And(y, Pow2(n) - Pow2(k)) == y - y % Pow2(k)
  {
    hide And, Pow2;
    Pow2Monotone(k, n);
    if k == 0 {
      PowZero();
      AndMask(y, n);
      SmallMod(y, Pow2(n));
    } else {
      TwicePow2(k);
      TwicePow2(n);
      Pow2Monotone(k - 1, n - 1);
      AndHighMask(y / 2, k - 1, n - 1);
      HighMaskStep(y, Pow2(k - 1), Pow2(n - 1));
    }
  }

  lemma PowZero()
    ensures Pow2(0) == 1
  {}

  lemma TwicePow2(k: nat)
    requires k > 0
    ensures Pow2(k) == 2 * Pow2(k - 1)
  {}

  lemma SmallMod(y: nat, n: nat)
    requires y < n
    ensures y % n == y && y % 1 == 0
  {}

  lemma HighMaskStep(y: nat, p: nat, q: nat)
    requires 0 < p <= q && And(y / 2, q - p) == y / 2 - y / 2 % p
    ensures And(y, 2 * q - 2 * p) == y - y % (2 * p)
  {
    hide And;
    AndHalves(y, y / 2, 2 * q - 2 * p, q - p);
    ModTwice(y, p);
  }

  lemma {:induction false} BitShl(x: nat, k: nat, i: nat)
    ensures Bit(x * Pow2(k), i) <==> i >= k && Bit(x, i - k)
  {
    if k > 0 {
      var h := x * Pow2(k - 1);
      assert x * Pow2(k) == 2 * h by { Assoc(x, Pow2(k - 1), 2); }
      if i > 0 { BitShl(x, k - 1, i - 1); }
    }
  }

  lemma {:induction false} BitShr(x: nat, k: nat, i: nat)
    ensures 0 <= x / Pow2(k) && (Bit(x / Pow2(k), i) <==> Bit(x, i + k))
  {
    if k > 0 {
      DivDiv(x, 2, Pow2(k - 1));
      BitShr(x / 2, k - 1, i);
    }
  }

  lemma {:induction false} BitLow(x: nat, n: nat, i: nat)
    requires i < n
    ensures Bit(x % Pow2(n), i) <==> Bit(x, i)
  {
    var p, y := Pow2(n - 1), x / 2 % Pow2(n - 1);
    ModTwice(x, p);
    if i > 0 {
      BitLow(x / 2, n - 1, i - 1);
      Halved(x, y, i);
    } else {
      Halved(x, y, 0);
    }
  }

  lemma Halved(x: nat, y: nat, i: nat)
    requires i > 0 ==> (Bit(y, i - 1) <==> Bit(x / 2, i - 1))
    ensures Bit(2 * y + x % 2, i) <==> Bit(x, i)
  {
    assert (2 * y + x % 2) / 2 == y;
  }

  lemma {:induction false} BitHigh(x: nat, n: nat, i: nat)
    requires x < Pow2(n) && i >= n
    ensures !Bit(x, i)
  {
    if n == 0 { BitOfZero(i); } else { BitHigh(x / 2, n - 1, i - 1); }
  }

  /** The number of one bits at the low end. */
  function TrailingOnes(w: nat): nat
  {
    if w % 2 == 1 then 1 + TrailingOnes(w / 2) else 0
  }

  /** A word that is not all ones has its lowest clear bit right after its trailing ones. */
  lemma {:induction false} LowestClearBit(w: nat, k: nat)
    requires w < Pow2(k)
    ensures w != Pow2(k) - 1 ==> TrailingOnes(w) < k && !Bit(w, TrailingOnes(w))
    ensures forall i :: 0 <= i < TrailingOnes(w) ==> Bit(w, i)
    ensures w == Pow2(k) - 1 ==> forall i :: 0 <= i < k ==> Bit(w, i)
  {
    if k > 0 && w % 2 == 1 {
      LowestClearBit(w / 2, k - 1);
      forall i | 0 <= i < TrailingOnes(w) ensures Bit(w, i) {
        if i > 0 { assert Bit(w / 2, i - 1); }
      }
      if w == Pow2(k) - 1 {
        forall i | 0 <= i < k ensures Bit(w, i) {
          if i > 0 { assert Bit(w / 2, i - 1); }
        }
      }
    }
  }
}
