/**
 Sequences without repetitions, and rotations of rings.
 */
module Seqs {

  predicate Distinct<T(==)>(s: seq<T>) {
    forall i, j :: 0 <= i < j < |s| ==> s[i] != s[j]
  }

  lemma {:induction false} DistinctCounts<T>(s: seq<T>, x: T)
    requires Distinct(s)
    ensures multiset(s)[x] <= 1
  {
    if s != [] {
      var init, last := s[..|s| - 1], s[|s| - 1];
      assert s == init + [last];
      DistinctCounts(init, x);
      if x == last {
        assert x !in init;
        assert x !in multiset(init);
      }
    }
  }

  /** A rearrangement of a sequence without repetitions has none either. */
  lemma DistinctPermuted<T>(s: seq<T>, t: seq<T>)
    requires Distinct(s) && multiset(s) == multiset(t)
    ensures Distinct(t)
  {
    forall i, j | 0 <= i < j < |t|
      ensures t[i] != t[j]
    {
      DistinctCounts(s, t[i]);
      var a, b, c := t[..i], t[i + 1..j], t[j + 1..];
      assert t == a + [t[i]] + b + [t[j]] + c;
      assert multiset(t) == multiset(a) + multiset{t[i]} + multiset(b) + multiset{t[j]} + multiset(c);
    }
  }

  lemma SameElements<T>(s: seq<T>, t: seq<T>)
    requires multiset(s) == multiset(t)
    ensures forall x :: x in s <==> x in t
  {
    forall x
      ensures x in s <==> x in t
    {
      assert x in s <==> x in multiset(s);
      assert x in t <==> x in multiset(t);
    }
  }

  lemma DistinctParts<T>(a: seq<T>, b: seq<T>)
    requires Distinct(a + b)
    ensures Distinct(a) && Distinct(b)
    ensures forall x :: x in a ==> x !in b
  {
    var s := a + b;
    forall i, j | 0 <= i < j < |a|
      ensures a[i] != a[j]
    {
      assert s[i] == a[i] && s[j] == a[j];
    }
    forall i, j | 0 <= i < j < |b|
      ensures b[i] != b[j]
    {
      assert s[|a| + i] == b[i] && s[|a| + j] == b[j];
    }
    forall x | x in a
      ensures x !in b
    {
      var i :| 0 <= i < |a| && a[i] == x;
      forall j | 0 <= j < |b|
        ensures b[j] != x
      {
        assert s[i] == x && s[|a| + j] == b[j];
      }
    }
  }

  lemma DistinctConcat<T>(a: seq<T>, b: seq<T>)
    requires Distinct(a) && Distinct(b) && forall x :: x in a ==> x !in b
    ensures Distinct(a + b)
  {
    var s := a + b;
    forall i, j | 0 <= i < j < |s|
      ensures s[i] != s[j]
    {
      if i < |a| <= j {
        assert s[i] in a && s[j] in b;
      }
    }
  }

  /** A ring without repetitions, divided in two. */
  lemma SplitRing<T>(ring: seq<T>, stay: seq<T>, leave: seq<T>)
    requires Distinct(ring) && multiset(stay + leave) == multiset(ring)
    ensures Distinct(stay) && Distinct(leave)
    ensures forall x :: x in stay ==> x in ring && x !in leave
    ensures forall x :: x in leave ==> x in ring
    ensures forall x :: x in ring ==> x in stay || x in leave
  {
    DistinctPermuted(ring, stay + leave);
    DistinctParts(stay, leave);
    SameElements(ring, stay + leave);
  }

  /** The ring read from its j-th element on. */
  function Rotate<T>(ring: seq<T>, j: nat): (r: seq<T>)
    requires j <= |ring|
    ensures |r| == |ring|
  {
    ring[j..] + ring[..j]
  }

  lemma RotateSame<T>(ring: seq<T>, j: nat)
    requires j <= |ring|
    ensures multiset(Rotate(ring, j)) == multiset(ring)
    ensures forall x :: x in Rotate(ring, j) <==> x in ring
  {
    assert ring == ring[..j] + ring[j..];
    assert multiset(ring) == multiset(ring[..j]) + multiset(ring[j..]);
    forall x
      ensures x in Rotate(ring, j) <==> x in ring
    {
      assert x in ring <==> x in ring[..j] || x in ring[j..];
    }
  }

  lemma RotateDistinct<T>(ring: seq<T>, j: nat)
    requires j <= |ring| && Distinct(ring)
    ensures Distinct(Rotate(ring, j))
  {
    RotateSame(ring, j);
    DistinctPermuted(ring, Rotate(ring, j));
  }

  /** Position of x in a sequence that holds it. */
  function IndexOf<T(==)>(s: seq<T>, x: T): (i: nat)
    requires x in s
    ensures i < |s| && s[i] == x
    ensures x !in s[..i]
  {
    if s[0] == x then 0 else 1 + IndexOf(s[1..], x)
  }

  lemma IndexIs<T>(s: seq<T>, i: nat)
    requires Distinct(s) && i < |s|
    ensures IndexOf(s, s[i]) == i
  {
  }
}
