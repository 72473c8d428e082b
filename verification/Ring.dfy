/** A circular buffer seen from its read position.  `Rotate(s, r)` is the content of the
    cells in reading order; the lemmas say what one store and one step of the read
    position do to it. */
module Ring {

  function Rotate<T>(s: seq<T>, r: nat): (t: seq<T>)
    requires r <= |s|
    ensures |t| == |s|
  {
    s[r..] + s[..r]
  }

  lemma Slot(r: nat, k: nat, n: nat)
    requires r < n && k <= n
    ensures (r + k) % n == if r + k < n then r + k else r + k - n
  {
    if r + k >= n { AddModulus(r + k - n, n); }
  }

  lemma AddModulus(x: nat, n: nat)
    requires x < n
    ensures (x + n) % n == x
  {}

  lemma RotateAt<T>(s: seq<T>, r: nat, k: nat)
    requires r < |s| && k < |s|
    ensures (r + k) % |s| < |s| && Rotate(s, r)[k] == s[(r + k) % |s|]
  {
    Slot(r, k, |s|);
  }

  /** A store `k` cells after the read position. */
  lemma RotateStore<T>(s: seq<T>, r: nat, k: nat, v: T)
    requires r < |s| && k < |s|
    ensures (r + k) % |s| < |s| && Rotate(s[(r + k) % |s| := v], r) == Rotate(s, r)[k := v]
  {
    Slot(r, k, |s|);
  }

  /** One step of the read position moves the first cell to the end. */
  lemma RotateStep<T>(s: seq<T>, r: nat)
    requires r < |s|
    ensures (r + 1) % |s| < |s| && Rotate(s, (r + 1) % |s|) == Rotate(s, r)[1..] + [Rotate(s, r)[0]]
  {
    if |s| > 1 { Slot(r, 1, |s|); } else { assert (r + 1) % |s| == 0; }
  }

  /** Overwriting the first cell and stepping past it. */
  lemma RotateErase<T>(s: seq<T>, r: nat, v: T)
    requires r < |s|
    ensures (r + 1) % |s| < |s| && Rotate(s[r := v], (r + 1) % |s|) == Rotate(s, r)[1..] + [v]
  {
    RotateStep(s[r := v], r);
  }

  /** Stepping a position already `k` cells on. */
  lemma SlotStep(r: nat, k: nat, n: nat)
    requires r < n && k < n
    ensures ((r + k) % n + 1) % n == (r + k + 1) % n
  {
    Slot(r, k, n);
    Slot(r, k + 1, n);
    if r + k + 1 == n { AddModulus(0, n); }
    if r + k >= n { Slot(r + k - n, 1, n); }
  }
}
