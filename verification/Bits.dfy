/**
 Bitmaps packed into machine words.

 The frame allocator keeps one bit per frame in 32-bit (or 64-bit) words and ArthicFS keeps one
 bit per block in bytes. Both use the same three expressions: `word >> i & 1`, `word |= 1 << i`
 and `word &= ~(1 << i)`, with the word picked by division and the bit by remainder.
 */
module Bits {

  /** `(w >> i) & 1` */
  predicate Bit(w: nat, i: nat)
    decreases i
  {
    if i == 0 then w % 2 == 1 else Bit(w / 2, i - 1)
  }

  /** `w | (1 << i)` when `v`, and `w & ~(1 << i)` otherwise. */
  function SetBit(w: nat, i: nat, v: bool): nat
    decreases i
  {
    if i == 0 then w - w % 2 + (if v then 1 else 0)
    else 2 * SetBit(w / 2, i - 1, v) + w % 2
  }

  function Pow2(n: nat): (p: nat)
    ensures p > 0
  {
    if n == 0 then 1 else 2 * Pow2(n - 1)
  }

  /** Writing bit `i` changes that bit and no other. */
  lemma {:induction false} SetBitReads(w: nat, i: nat, v: bool, j: nat)
    ensures Bit(SetBit(w, i, v), j) == if i == j then v else Bit(w, j)
    decreases i
  {
    if i == 0 {
      assert SetBit(w, i, v) / 2 == w / 2;
    } else {
      var inner := SetBit(w / 2, i - 1, v);
      assert (2 * inner + w % 2) / 2 == inner && (2 * inner + w % 2) % 2 == w % 2;
      if j > 0 {
        SetBitReads(w / 2, i - 1, v, j - 1);
      }
    }
  }

  /** A word keeps its width. */
  lemma {:induction false} SetBitFits(w: nat, i: nat, v: bool, width: nat)
    requires i < width && w < Pow2(width)
    ensures SetBit(w, i, v) < Pow2(width)
    decreases i
  {
    if i > 0 {
      SetBitFits(w / 2, i - 1, v, width - 1);
    }
  }

  /** Bit `n` of the bitmap: word `n / width`, bit `n % width`. */
  predicate Test(words: seq<nat>, width: nat, n: nat)
    requires width > 0 && n / width < |words|
  {
    Bit(words[n / width], n % width)
  }

  function Mark(words: seq<nat>, width: nat, n: nat, v: bool): (r: seq<nat>)
    requires width > 0 && n / width < |words|
    ensures |r| == |words|
  {
    words[n / width := SetBit(words[n / width], n % width, v)]
  }

  lemma DivModUnique(m: nat, n: nat, width: nat)
    requires width > 0 && m / width == n / width && m % width == n % width
    ensures m == n
  {
    assert m == (m / width) * width + m % width;
    assert n == (n / width) * width + n % width;
  }

  /** Marking bit `n` of the bitmap changes bit `n` and no other. */
  lemma MarkReads(words: seq<nat>, width: nat, n: nat, v: bool, m: nat)
    requires width > 0 && n / width < |words| && m / width < |words|
    ensures Test(Mark(words, width, n, v), width, m) == if m == n then v else Test(words, width, m)
  {
    if m / width == n / width {
      SetBitReads(words[n / width], n % width, v, m % width);
      if m % width == n % width {
        DivModUnique(m, n, width);
      }
    }
  }

  /** Number of set bits among the first `n`. */
  function Count(words: seq<nat>, width: nat, n: nat): (c: nat)
    requires width > 0 && n <= width * |words|
    ensures c <= n
  {
    if n == 0 then 0
    else
      WordInRange(n - 1, width, |words|);
      Count(words, width, n - 1) + if Test(words, width, n - 1) then 1 else 0
  }

  lemma WordInRange(n: nat, width: nat, words: nat)
    requires width > 0 && n < width * words
    ensures n / width < words
  {
    assert n == (n / width) * width + n % width;
  }

  lemma {:induction false} CountAgree(a: seq<nat>, b: seq<nat>, width: nat, n: nat)
    requires width > 0 && |a| == |b| && n <= width * |a|
    requires forall m: nat :: m < n && m / width < |a| ==> Test(a, width, m) == Test(b, width, m)
    ensures Count(a, width, n) == Count(b, width, n)
  {
    if n > 0 {
      WordInRange(n - 1, width, |a|);
      CountAgree(a, b, width, n - 1);
    }
  }

  /** Flipping one bit moves the count by exactly one; rewriting a bit leaves it. */
  lemma {:induction false} CountMark(words: seq<nat>, width: nat, n: nat, m: nat, v: bool)
    requires width > 0 && m < n <= width * |words| && m / width < |words|
    ensures Count(Mark(words, width, m, v), width, n)
         == Count(words, width, n) + (if v then 1 else 0) - (if Test(words, width, m) then 1 else 0)
  {
    WordInRange(n - 1, width, |words|);
    MarkReads(words, width, m, v, n - 1);
    if m == n - 1 {
      forall k: nat | k < n - 1 && k / width < |words|
        ensures Test(Mark(words, width, m, v), width, k) == Test(words, width, k)
      {
        MarkReads(words, width, m, v, k);
      }
      CountAgree(Mark(words, width, m, v), words, width, n - 1);
    } else {
      CountMark(words, width, n - 1, m, v);
    }
  }

  lemma {:induction false} CountZero(words: seq<nat>, width: nat, n: nat)
    requires width > 0 && n <= width * |words|
    ensures Count(words, width, n) == 0 <==> forall m: nat :: m < n && m / width < |words| ==> !Test(words, width, m)
  {
    if n > 0 {
      WordInRange(n - 1, width, |words|);
      CountZero(words, width, n - 1);
    }
  }

  lemma {:induction false} CountFull(words: seq<nat>, width: nat, n: nat)
    requires width > 0 && n <= width * |words|
    ensures Count(words, width, n) == n <==> forall m: nat :: m < n && m / width < |words| ==> Test(words, width, m)
  {
    if n > 0 {
      WordInRange(n - 1, width, |words|);
      CountFull(words, width, n - 1);
    }
  }
}
