/** The one's-complement checksum of the Internet protocols (section 1 of RFC 1071): a 32-bit
    running sum of 16-bit words, folded by a loop and complemented. */
module Checksum {
  import opened Bits
  import opened Bytes
  import opened Modular

  /** The words of `data`, an odd last octet counting as the high half of one. */
  function WordSum(data: seq<byte>): nat
  {
    if |data| == 0 then 0
    else if |data| == 1 then 256 * data[0]
    else Be16(data[0], data[1]) + WordSum(data[2..])
  }

  lemma {:induction false} WordSumBound(data: seq<byte>)
    ensures 2 * WordSum(data) <= 65535 * (|data| + 1)
  {
    if |data| >= 2 { WordSumBound(data[2..]); }
  }

  lemma {:induction false} WordSumAppend(a: seq<byte>, b: seq<byte>)
    requires |a| % 2 == 0
    ensures WordSum(a + b) == WordSum(a) + WordSum(b)
  {
    if a == [] {
      assert a + b == b;
    } else {
      assert (a + b)[2..] == a[2..] + b;
      WordSumAppend(a[2..], b);
    }
  }

  /** Folding the carries back in until the sum fits 16 bits. */
  function Fold(sum: nat): (f: nat)
    ensures f < 65536
  {
    if sum < 65536 then sum else Fold(sum % 65536 + sum / 65536)
  }

  /** The loop computes the residue modulo 65535, with 65535 standing for a non-zero multiple. */
  lemma {:induction false} FoldIsResidue(sum: nat)
    ensures Fold(sum) == if sum == 0 then 0 else 1 + (sum - 1) % 65535
  {
    if sum >= 65536 {
      var next := sum % 65536 + sum / 65536;
      FoldIsResidue(next);
      assert sum - 1 == (next - 1) + (sum / 65536) * 65535;
      DropMultiple(next - 1, sum / 65536, 65535);
    }
  }

  function Finish(sum: nat): (c: U16) { 65535 - Fold(sum) }

  /** A sum verifies when it is a non-zero multiple of 65535. */
  lemma FinishZeroIff(sum: nat)
    ensures Finish(sum) == 0 <==> sum > 0 && sum % 65535 == 0
  {
    FoldIsResidue(sum);
    if sum > 0 {
      var q, r := (sum - 1) / 65535, (sum - 1) % 65535;
      assert sum == 65535 * q + (r + 1);
      if r + 1 < 65535 { QuotientUnique(sum, 65535, q, r + 1); } else { QuotientUnique(sum, 65535, q + 1, 0); }
    }
  }

  /** The checksum that makes a block verify is the computed one, and 0xFFFF in place of 0: nothing else. */
  lemma ChecksumVerifiesIff(sum: nat, c: U16)
    ensures Finish(sum + c) == 0 <==> c == Finish(sum) || (Finish(sum) == 0 && c == 65535)
  {
    FinishZeroIff(sum + c);
    FoldIsResidue(sum);
    if sum > 0 {
      var q, r := (sum - 1) / 65535, (sum - 1) % 65535;
      assert sum + c == 65535 * q + (r + 1 + c);
      var t := r + 1 + c;
      DropMultiple(t, q, 65535);
      assert t < 3 * 65535;
    }
  }

  /** A 16-bit field at an even offset contributes its own value to the sum. */
  lemma FieldSum(a: seq<byte>, c: U16, b: seq<byte>)
    requires |a| % 2 == 0
    ensures WordSum(a + Be16Bytes(c) + b) == WordSum(a + Be16Bytes(0) + b) + c
  {
    hide *;
    WordSumAppend(a + Be16Bytes(c), b);
    WordSumAppend(a + Be16Bytes(0), b);
    WordSumAppend(a, Be16Bytes(c));
    WordSumAppend(a, Be16Bytes(0));
    WordOfField(c);
    WordOfField(0);
  }

  lemma WordOfField(c: U16)
    ensures WordSum(Be16Bytes(c)) == c
  {
    assert Be16Bytes(c)[2..] == [];
  }

  // ---------- which changes are noticed ----------

  /** A change of the sum by less than 65535 never goes unnoticed. */
  lemma SmallChangeDetected(sum: nat, sum': nat)
    requires Finish(sum) == 0 && sum != sum' && sum - 65535 < sum' < sum + 65535
    ensures Finish(sum') != 0
  {
    FinishZeroIff(sum);
    FinishZeroIff(sum');
    var q, q' := sum / 65535, sum' / 65535;
    assert sum == 65535 * q;
    assert sum' == 65535 * q' + sum' % 65535;
  }

  /** Altering one word of a verifying block goes unnoticed exactly when the word is changed from 0
      to 0xFFFF, or back while another word is not zero. */
  lemma WordChangeUnnoticedIff(a: seq<byte>, x: U16, y: U16, b: seq<byte>)
    requires |a| % 2 == 0 && x != y && Finish(WordSum(a + Be16Bytes(x) + b)) == 0
    ensures Finish(WordSum(a + Be16Bytes(y) + b)) == 0 <==>
            (x == 0 && y == 65535) || (x == 65535 && y == 0 && WordSum(a + Be16Bytes(0) + b) > 0)
  {
    hide WordSum, Finish, Be16Bytes;
    FieldSum(a, x, b);
    FieldSum(a, y, b);
    SumChangeUnnoticedIff(WordSum(a + Be16Bytes(0) + b), x, y);
  }

  lemma SumChangeUnnoticedIff(rest: nat, x: U16, y: U16)
    requires x != y && Finish(rest + x) == 0
    ensures Finish(rest + y) == 0 <==> (x == 0 && y == 65535) || (x == 65535 && y == 0 && rest > 0)
  {
    hide Finish;
    FinishZeroIff(rest + x);
    FinishZeroIff(rest + y);
    if x == 0 && y == 65535 {
      DropMultiple(rest, 1, 65535);
    } else if x == 65535 && y == 0 {
      DropMultiple(rest, 1, 65535);
    } else {
      SmallChangeDetected(rest + x, rest + y);
    }
  }

  /** The block FF FF 00 00 verifies, and still does with its second word altered to FF FF. */
  lemma AlteredWordUnnoticed()
    ensures Finish(WordSum([0xFF, 0xFF, 0, 0])) == 0 && Finish(WordSum([0xFF, 0xFF, 0xFF, 0xFF])) == 0
  {
    hide Finish;
    WordSumAppend([0xFF, 0xFF], [0, 0]);
    WordSumAppend([0xFF, 0xFF], [0xFF, 0xFF]);
    FinishZeroIff(65535);
    FinishZeroIff(131070);
    assert [0xFF, 0xFF] + [0, 0] == [0xFF, 0xFF, 0, 0] && [0xFF, 0xFF] + [0xFF, 0xFF] == [0xFF, 0xFF, 0xFF, 0xFF];
  }

  /** The octet after `a` counts with weight 256 at an even offset and 1 at an odd one. */
  lemma OctetSum(a: seq<byte>, x: byte, b: seq<byte>)
    ensures WordSum(a + [x] + b) == WordSum(a + [0] + b) + x * if |a| % 2 == 0 then 256 else 1
  {
    var k := |a| - |a| % 2;
    assert a == a[..k] + a[k..];
    assert a + [x] + b == a[..k] + (a[k..] + [x] + b) && a + [0] + b == a[..k] + (a[k..] + [0] + b);
    WordSumAppend(a[..k], a[k..] + [x] + b);
    WordSumAppend(a[..k], a[k..] + [0] + b);
    OctetInFirstWord(a[k..], x, b);
  }

  lemma OctetInFirstWord(h: seq<byte>, x: byte, b: seq<byte>)
    requires |h| <= 1
    ensures WordSum(h + [x] + b) == WordSum(h + [0] + b) + x * if h == [] then 256 else 1
  {
    if h == [] {
      if b != [] { assert (h + [x] + b)[2..] == b[1..] && (h + [0] + b)[2..] == b[1..]; }
    } else {
      assert (h + [x] + b)[2..] == b && (h + [0] + b)[2..] == b;
    }
  }

  /** Altering one octet of a verifying block is always noticed. */
  lemma OctetChangeDetected(a: seq<byte>, x: byte, y: byte, b: seq<byte>)
    requires x != y && Finish(WordSum(a + [x] + b)) == 0
    ensures Finish(WordSum(a + [y] + b)) != 0
  {
    hide WordSum, Finish;
    OctetSum(a, x, b);
    OctetSum(a, y, b);
    SmallChangeDetected(WordSum(a + [x] + b), WordSum(a + [y] + b));
  }

  method ChecksumAdd(sum: U32, data: seq<byte>) returns (r: U32)
    requires sum + WordSum(data) < 0x1_0000_0000
    ensures r == sum + WordSum(data)
  {
    r := sum;
    var rest := data;
    while |rest| >= 2
      invariant r + WordSum(rest) == sum + WordSum(data)
    {
      r := r + Be16(rest[0], rest[1]);
      rest := rest[2..];
    }
    if |rest| == 1 {
      r := r + Be16(rest[0], 0);
    }
  }

  method ChecksumFinish(sum: U32) returns (c: U16)
    ensures c == Finish(sum)
  {
    var s: nat := sum;
    while s / 65536 != 0
      invariant Fold(s) == Fold(sum)
      decreases s
    {
      s := s % 65536 + s / 65536;
    }
    c := 65535 - s;
  }
}
