/** Congruences, as far as the one's-complement checksum (modulo 65535) and the
    Poly1305 field (modulo 2^130 - 5) need them. */
module Modular {
  import opened Bits

  predicate Congruent(a: int, b: int, n: int)
    requires n > 0
  {
    a % n == b % n
  }

  lemma DropMultiple(a: int, k: int, n: int)
    requires n > 0
    ensures (a + k * n) % n == a % n
  {
    var q, r := a / n, a % n;
    assert a + k * n == n * (q + k) + r by { Distribute(n, q, k); }
    QuotientUnique(a + k * n, n, q + k, r);
  }

  lemma CongruentSum(a: int, b: int, c: int, d: int, n: int)
    requires n > 0 && Congruent(a, b, n) && Congruent(c, d, n)
    ensures Congruent(a + c, b + d, n)
  {
    var k := (a / n - b / n) + (c / n - d / n);
    assert a + c == b + d + k * n by {
      assert a == n * (a / n) + a % n && b == n * (b / n) + b % n;
      assert c == n * (c / n) + c % n && d == n * (d / n) + d % n;
    }
    DropMultiple(b + d, k, n);
  }

  lemma CongruentProduct(a: int, b: int, c: int, n: int)
    requires n > 0 && Congruent(a, b, n)
    ensures Congruent(a * c, b * c, n)
  {
    var k := a / n - b / n;
    assert a == b + k * n;
    assert a * c == b * c + (k * c) * n;
    DropMultiple(b * c, k * c, n);
  }

  lemma ModSum(a: int, b: int, n: int)
    requires n > 0
    ensures (a % n + b) % n == (a + b) % n
  {
    assert a + b == (a % n + b) + (a / n) * n;
    DropMultiple(a % n + b, a / n, n);
  }
}
