/**
 * Reference operations on sequences. The playlist's link rewiring is proved
 * to act on its canonical ordering exactly as these operations do.
 */
module Sequences {

  /** No element occurs twice. */
  predicate Distinct<T(==)>(s: seq<T>) {
    forall i, j | 0 <= i < j < |s| :: s[i] != s[j]
  }

  /** The set of elements of `s`. */
  function Elems<T>(s: seq<T>): set<T> {
    set x | x in s
  }

  /** The position of the first occurrence of `x` in `s`. */
  function IndexOf<T(==)>(s: seq<T>, x: T): (i: nat)
    requires x in s
    ensures i < |s| && s[i] == x
    ensures forall k | 0 <= k < i :: s[k] != x
  {
    IndexFrom(s, x, 0)
  }

  /** The position of the first occurrence of `x` in `s` at or after `from`. */
  function IndexFrom<T(==)>(s: seq<T>, x: T, from: nat): (i: nat)
    requires from <= |s| && exists k | from <= k < |s| :: s[k] == x
    ensures from <= i < |s| && s[i] == x
    ensures forall k | from <= k < i :: s[k] != x
    decreases |s| - from
  {
    if s[from] == x then from else IndexFrom(s, x, from + 1)
  }

  /** In a sequence without repetitions, every position is its element's index. */
  lemma IndexOfDistinct<T>(s: seq<T>, k: nat)
    requires Distinct(s) && k < |s|
    ensures IndexOf(s, s[k]) == k
  {
  }

  /** Appending an element not yet present keeps the sequence repetition-free. */
  lemma AppendFresh<T>(s: seq<T>, x: T)
    requires Distinct(s) && x !in s
    ensures Distinct(s + [x])
    ensures Elems(s + [x]) == Elems(s) + {x}
  {
  }

  /** `s` without the element at position `i`. */
  function RemoveAt<T>(s: seq<T>, i: nat): (r: seq<T>)
    requires i < |s|
    ensures |r| == |s| - 1
    ensures forall k | 0 <= k < i :: r[k] == s[k]
    ensures forall k | i <= k < |r| :: r[k] == s[k + 1]
  {
    seq(|s| - 1, k requires 0 <= k < |s| - 1 => if k < i then s[k] else s[k + 1])
  }

  /** Removing a position from a repetition-free sequence removes exactly its element. */
  lemma RemoveAtElems<T>(s: seq<T>, i: nat)
    requires Distinct(s) && i < |s|
    ensures Distinct(RemoveAt(s, i))
    ensures Elems(RemoveAt(s, i)) == Elems(s) - {s[i]}
    ensures multiset(RemoveAt(s, i)) == multiset(s) - multiset{s[i]}
  {
    var r := RemoveAt(s, i);
    assert s == s[..i] + [s[i]] + s[i + 1..];
    assert r == s[..i] + s[i + 1..];
    forall x | x in Elems(s) - {s[i]}
      ensures x in r
    {
      var k :| 0 <= k < |s| && s[k] == x;
      if k < i {
        assert r[k] == x;
      } else {
        assert r[k - 1] == x;
      }
    }
  }

  /** The first element moves to the end: the cursor steps forward. */
  function RotateLeft<T>(s: seq<T>): (r: seq<T>)
    requires |s| > 0
    ensures |r| == |s| && r[|r| - 1] == s[0]
    ensures forall k | 0 <= k < |s| - 1 :: r[k] == s[k + 1]
  {
    seq(|s|, k requires 0 <= k < |s| => if k < |s| - 1 then s[k + 1] else s[0])
  }

  /** The last element moves to the front: the cursor steps back. */
  function RotateRight<T>(s: seq<T>): (r: seq<T>)
    requires |s| > 0
    ensures |r| == |s| && r[0] == s[|s| - 1]
    ensures forall k | 0 < k < |s| :: r[k] == s[k - 1]
  {
    seq(|s|, k requires 0 <= k < |s| => if k == 0 then s[|s| - 1] else s[k - 1])
  }

  /** The two rotations undo each other and keep the elements. */
  lemma RotateInverse<T>(s: seq<T>)
    requires |s| > 0
    ensures RotateRight(RotateLeft(s)) == s
    ensures RotateLeft(RotateRight(s)) == s
    ensures multiset(RotateLeft(s)) == multiset(s)
    ensures multiset(RotateRight(s)) == multiset(s)
  {
    assert s == [s[0]] + s[1..];
    assert s == s[..|s| - 1] + [s[|s| - 1]];
    assert RotateLeft(s) == s[1..] + [s[0]];
    assert RotateRight(s) == [s[|s| - 1]] + s[..|s| - 1];
  }

  /** Rotating left keeps the elements and their distinctness. */
  lemma RotationKeeps<T>(s: seq<T>)
    requires |s| > 0
    ensures Elems(RotateLeft(s)) == Elems(s)
    ensures Distinct(s) <==> Distinct(RotateLeft(s))
  {
    var t := RotateLeft(s);
    assert s == [s[0]] + s[1..];
    assert t == s[1..] + [s[0]];
    assert multiset(t) == multiset(s);
    assert forall x :: x in multiset(t) <==> x in multiset(s);
    if Distinct(s) {
      forall i, j | 0 <= i < j < |t|
        ensures t[i] != t[j]
      {
        if j == |t| - 1 {
          assert t[i] == s[i + 1];
        }
      }
    }
    if Distinct(t) {
      forall i, j | 0 <= i < j < |s|
        ensures s[i] != s[j]
      {
        assert s[j] == t[j - 1];
        if i == 0 {
          assert s[0] == t[|t| - 1];
        } else {
          assert s[i] == t[i - 1];
        }
      }
    }
  }

  /** The elements at positions `i` and `i + 1` trade places. */
  function SwapAdjacent<T>(s: seq<T>, i: nat): (r: seq<T>)
    requires i + 1 < |s|
    ensures |r| == |s| && r[i] == s[i + 1] && r[i + 1] == s[i]
    ensures forall k | 0 <= k < |s| && k != i && k != i + 1 :: r[k] == s[k]
  {
    seq(|s|, k requires 0 <= k < |s| => if k == i then s[i + 1] else if k == i + 1 then s[i] else s[k])
  }

  /** Swapping the same pair twice restores the sequence. */
  lemma SwapAdjacentTwice<T>(s: seq<T>, i: nat)
    requires i + 1 < |s|
    ensures SwapAdjacent(SwapAdjacent(s, i), i) == s
  {
  }

  /** A swap is a permutation of the sequence. */
  lemma SwapAdjacentMultiset<T>(s: seq<T>, i: nat)
    requires i + 1 < |s|
    ensures multiset(SwapAdjacent(s, i)) == multiset(s)
  {
    var a, b := s[..i], s[i + 2..];
    var pair, swapped := [s[i], s[i + 1]], [s[i + 1], s[i]];
    assert s == a + pair + b;
    assert SwapAdjacent(s, i) == a + swapped + b;
    assert multiset(swapped) == multiset(pair);
    calc {
      multiset(a + swapped + b);
      multiset(a + swapped) + multiset(b);
      multiset(a) + multiset(swapped) + multiset(b);
      multiset(a) + multiset(pair) + multiset(b);
      multiset(a + pair) + multiset(b);
      multiset(a + pair + b);
    }
  }

  /** A swap is a permutation, so it keeps the elements and their distinctness. */
  lemma SwapAdjacentFacts<T>(s: seq<T>, i: nat)
    requires i + 1 < |s|
    ensures multiset(SwapAdjacent(s, i)) == multiset(s)
    ensures Elems(SwapAdjacent(s, i)) == Elems(s)
    ensures Distinct(s) ==> Distinct(SwapAdjacent(s, i))
  {
    var r := SwapAdjacent(s, i);
    SwapAdjacentMultiset(s, i);
    assert forall x :: x in r <==> x in multiset(r);
    assert forall x :: x in s <==> x in multiset(s);
    if Distinct(s) {
      forall a, b | 0 <= a < b < |r|
        ensures r[a] != r[b]
      {
        var a' := if a == i then i + 1 else if a == i + 1 then i else a;
        var b' := if b == i then i + 1 else if b == i + 1 then i else b;
        assert r[a] == s[a'] && r[b] == s[b'] && a' != b';
      }
    }
  }
}
