/**
 * The `siguiente` and `anterior` references of a ring of nodes, as maps from
 * node to node, and how splicing a node in, out, or past its neighbour
 * changes them. These facts are independent of the playlist's other fields.
 */
module Links {
  import opened Sequences

  /** The identity of a song node; handed out by the arena, never reused. */
  type NodeId = nat

  /** `sig` links every element of `s` to the one after it, and the last to the first. */
  predicate NextLinks(sig: map<NodeId, NodeId>, s: seq<NodeId>) {
    && (forall k {:trigger s[k] in sig} | 0 <= k < |s| :: s[k] in sig)
    && (forall k {:trigger sig[s[k]]} | 0 <= k < |s| - 1 :: sig[s[k]] == s[k + 1])
    && (0 < |s| ==> sig[s[|s| - 1]] == s[0])
  }

  /** `ant` links every element of `s` to the one before it, and the first to the last. */
  predicate PrevLinks(ant: map<NodeId, NodeId>, s: seq<NodeId>) {
    && (forall k {:trigger s[k] in ant} | 0 <= k < |s| :: s[k] in ant)
    && (forall k {:trigger ant[s[k]]} | 0 < k < |s| :: ant[s[k]] == s[k - 1])
    && (0 < |s| ==> ant[s[0]] == s[|s| - 1])
  }

  /** The element before position `i` on the ring `s`. */
  function Before(s: seq<NodeId>, i: nat): NodeId
    requires i < |s|
  {
    if i == 0 then s[|s| - 1] else s[i - 1]
  }

  /** The element after position `i` on the ring `s`. */
  function After(s: seq<NodeId>, i: nat): NodeId
    requires i < |s|
  {
    if i == |s| - 1 then s[0] else s[i + 1]
  }

  /** In a ring, `siguiente` of position `i` is `After(s, i)`. */
  lemma NextAt(sig: map<NodeId, NodeId>, s: seq<NodeId>, i: nat)
    requires NextLinks(sig, s) && i < |s|
    ensures s[i] in sig && sig[s[i]] == After(s, i)
  {
  }

  /** In a ring, `anterior` of position `i` is `Before(s, i)`. */
  lemma PrevAt(ant: map<NodeId, NodeId>, s: seq<NodeId>, i: nat)
    requires PrevLinks(ant, s) && i < |s|
    ensures s[i] in ant && ant[s[i]] == Before(s, i)
  {
  }

  /** Splicing a new node `n` in after the last element: the tail and `n` are relinked. */
  lemma AppendNext(sig: map<NodeId, NodeId>, s: seq<NodeId>, n: NodeId)
    requires NextLinks(sig, s) && Distinct(s) && 0 < |s| && n !in s
    ensures NextLinks(sig[s[|s| - 1] := n][n := s[0]], s + [n])
  {
    var m := |s|;
    var sig' := sig[s[m - 1] := n][n := s[0]];
    var t := s + [n];
    forall k | 0 <= k < |t| - 1
      ensures sig'[t[k]] == t[k + 1]
    {
      if k < m - 1 {
        assert t[k] == s[k] && t[k + 1] == s[k + 1];
        assert s[k] != s[m - 1];
      } else {
        assert t[k] == s[m - 1];
      }
    }
    forall k | 0 <= k < |t|
      ensures t[k] in sig'
    {
      if k < m {
        assert t[k] == s[k];
      }
    }
  }

  /** Splicing a new node `n` in before the first element: the head and `n` are relinked. */
  lemma AppendPrev(ant: map<NodeId, NodeId>, s: seq<NodeId>, n: NodeId)
    requires PrevLinks(ant, s) && Distinct(s) && 0 < |s| && n !in s
    ensures PrevLinks(ant[n := s[|s| - 1]][s[0] := n], s + [n])
  {
    var m := |s|;
    var ant' := ant[n := s[m - 1]][s[0] := n];
    var t := s + [n];
    forall k | 0 < k < |t|
      ensures ant'[t[k]] == t[k - 1]
    {
      if k < m {
        assert t[k] == s[k] && t[k - 1] == s[k - 1];
        assert s[k] != s[0];
      } else {
        assert t[k - 1] == s[m - 1];
      }
    }
    forall k | 0 <= k < |t|
      ensures t[k] in ant'
    {
      if k < m {
        assert t[k] == s[k];
      }
    }
  }

  /** The `siguiente` map after unlinking position `i`. */
  function RemovedNext(sig: map<NodeId, NodeId>, s: seq<NodeId>, i: nat): map<NodeId, NodeId>
    requires i < |s|
  {
    sig[Before(s, i) := After(s, i)] - {s[i]}
  }

  /** The `anterior` map after unlinking position `i`. */
  function RemovedPrev(ant: map<NodeId, NodeId>, s: seq<NodeId>, i: nat): map<NodeId, NodeId>
    requires i < |s|
  {
    ant[After(s, i) := Before(s, i)] - {s[i]}
  }

  lemma RemoveNextAt(sig: map<NodeId, NodeId>, s: seq<NodeId>, i: nat, k: nat)
    requires NextLinks(sig, s) && Distinct(s) && 2 <= |s| && i < |s| && k < |s| - 1
    ensures RemoveAt(s, i)[k] in RemovedNext(sig, s, i)
    ensures RemovedNext(sig, s, i)[RemoveAt(s, i)[k]] == After(RemoveAt(s, i), k)
  {
    var n := |s|;
    var a := Before(s, i);
    var t := RemoveAt(s, i);
    var j := if k < i then k else k + 1;
    assert t[k] == s[j] && j != i;
    NextAt(sig, s, j);
    if s[j] != a {
      if k < n - 2 {
        assert t[k + 1] == s[j + 1];
      } else {
        assert t[0] == s[0];
      }
    }
  }

  lemma RemovePrevAt(ant: map<NodeId, NodeId>, s: seq<NodeId>, i: nat, k: nat)
    requires PrevLinks(ant, s) && Distinct(s) && 2 <= |s| && i < |s| && k < |s| - 1
    ensures RemoveAt(s, i)[k] in RemovedPrev(ant, s, i)
    ensures RemovedPrev(ant, s, i)[RemoveAt(s, i)[k]] == Before(RemoveAt(s, i), k)
  {
    var n := |s|;
    var b := After(s, i);
    var t := RemoveAt(s, i);
    var j := if k < i then k else k + 1;
    assert t[k] == s[j] && j != i;
    PrevAt(ant, s, j);
    if s[j] != b {
      if k > 0 {
        assert t[k - 1] == s[j - 1];
      } else {
        assert t[n - 2] == s[n - 1];
      }
    }
  }

  /** Unlinking position `i` of a ring of two or more: its neighbours point at each other. */
  lemma RemoveNext(sig: map<NodeId, NodeId>, s: seq<NodeId>, i: nat)
    requires NextLinks(sig, s) && Distinct(s) && 2 <= |s| && i < |s|
    ensures NextLinks(RemovedNext(sig, s, i), RemoveAt(s, i))
  {
    var t := RemoveAt(s, i);
    var sig' := RemovedNext(sig, s, i);
    forall k | 0 <= k < |t|
      ensures t[k] in sig'
    {
      RemoveNextAt(sig, s, i, k);
    }
    forall k | 0 <= k < |t| - 1
      ensures sig'[t[k]] == t[k + 1]
    {
      RemoveNextAt(sig, s, i, k);
    }
    RemoveNextAt(sig, s, i, |t| - 1);
  }

  /** Unlinking position `i` of a ring of two or more: its neighbours point at each other. */
  lemma RemovePrev(ant: map<NodeId, NodeId>, s: seq<NodeId>, i: nat)
    requires PrevLinks(ant, s) && Distinct(s) && 2 <= |s| && i < |s|
    ensures PrevLinks(RemovedPrev(ant, s, i), RemoveAt(s, i))
  {
    var t := RemoveAt(s, i);
    var ant' := RemovedPrev(ant, s, i);
    forall k | 0 <= k < |t|
      ensures t[k] in ant'
    {
      RemovePrevAt(ant, s, i, k);
    }
    forall k | 0 < k < |t|
      ensures ant'[t[k]] == t[k - 1]
    {
      RemovePrevAt(ant, s, i, k);
    }
    RemovePrevAt(ant, s, i, 0);
  }

  /** Moving the cursor forward does not change the links. */
  lemma RotateLeftLinks(sig: map<NodeId, NodeId>, ant: map<NodeId, NodeId>, s: seq<NodeId>)
    requires NextLinks(sig, s) && PrevLinks(ant, s) && 0 < |s|
    ensures NextLinks(sig, RotateLeft(s)) && PrevLinks(ant, RotateLeft(s))
  {
    var t := RotateLeft(s);
    var n := |s|;
    forall k | 0 <= k < n
      ensures t[k] in sig && t[k] in ant
    {
      if k < n - 1 {
        assert t[k] == s[k + 1];
      }
    }
    forall k | 0 <= k < n - 1
      ensures sig[t[k]] == t[k + 1]
    {
      assert t[k] == s[k + 1];
      if k < n - 2 {
        assert t[k + 1] == s[k + 2];
      }
    }
    forall k | 0 < k < n
      ensures ant[t[k]] == t[k - 1]
    {
      assert t[k - 1] == s[k];
      if k < n - 1 {
        assert t[k] == s[k + 1];
      }
    }
    if n > 1 {
      assert t[0] == s[1];
    }
  }

  /** Moving the cursor back does not change the links. */
  lemma RotateRightLinks(sig: map<NodeId, NodeId>, ant: map<NodeId, NodeId>, s: seq<NodeId>)
    requires NextLinks(sig, s) && PrevLinks(ant, s) && 0 < |s|
    ensures NextLinks(sig, RotateRight(s)) && PrevLinks(ant, RotateRight(s))
  {
    var t := RotateRight(s);
    var n := |s|;
    forall k | 0 <= k < n
      ensures t[k] in sig && t[k] in ant
    {
      if k > 0 {
        assert t[k] == s[k - 1];
      }
    }
    forall k | 0 <= k < n - 1
      ensures sig[t[k]] == t[k + 1]
    {
      assert t[k + 1] == s[k];
      if k > 0 {
        assert t[k] == s[k - 1];
      }
    }
    forall k | 0 < k < n
      ensures ant[t[k]] == t[k - 1]
    {
      assert t[k] == s[k - 1];
      if k > 1 {
        assert t[k - 1] == s[k - 2];
      }
    }
    if n > 1 {
      assert t[n - 1] == s[n - 2];
    }
  }

  /** The relinked `siguiente` map of `SwapNext`. */
  function SwappedNext(sig: map<NodeId, NodeId>, s: seq<NodeId>, j: nat): map<NodeId, NodeId>
    requires j + 1 < |s|
  {
    sig[Before(s, j) := s[j + 1]][s[j + 1] := s[j]][s[j] := After(s, j + 1)]
  }

  /** The relinked `anterior` map of `SwapPrev`. */
  function SwappedPrev(ant: map<NodeId, NodeId>, s: seq<NodeId>, j: nat): map<NodeId, NodeId>
    requires j + 1 < |s|
  {
    ant[s[j + 1] := Before(s, j)][After(s, j + 1) := s[j]][s[j] := s[j + 1]]
  }

  lemma SwapNextAt(sig: map<NodeId, NodeId>, s: seq<NodeId>, j: nat, k: nat)
    requires NextLinks(sig, s) && Distinct(s) && 3 <= |s| && j + 1 < |s| && k < |s|
    ensures SwapAdjacent(s, j)[k] in SwappedNext(sig, s, j)
    ensures SwappedNext(sig, s, j)[SwapAdjacent(s, j)[k]] == After(SwapAdjacent(s, j), k)
  {
    var n := |s|;
    var p, x, y, q := Before(s, j), s[j], s[j + 1], After(s, j + 1);
    var t := SwapAdjacent(s, j);
    assert p != x && p != y && x != y;
    NextAt(sig, s, k);
    if k == j {
      assert t[k] == y && After(t, k) == x;
    } else if k == j + 1 {
      assert t[k] == x;
      assert After(t, k) == q;
    } else if After(s, k) == x {
      assert t[k] == s[k] == p;
      assert After(t, k) == y;
    } else {
      assert t[k] == s[k] != p;
      assert After(t, k) == After(s, k);
    }
  }

  lemma SwapPrevAt(ant: map<NodeId, NodeId>, s: seq<NodeId>, j: nat, k: nat)
    requires PrevLinks(ant, s) && Distinct(s) && 3 <= |s| && j + 1 < |s| && k < |s|
    ensures SwapAdjacent(s, j)[k] in SwappedPrev(ant, s, j)
    ensures SwappedPrev(ant, s, j)[SwapAdjacent(s, j)[k]] == Before(SwapAdjacent(s, j), k)
  {
    var n := |s|;
    var p, x, y, q := Before(s, j), s[j], s[j + 1], After(s, j + 1);
    var t := SwapAdjacent(s, j);
    assert q != x && q != y && x != y;
    PrevAt(ant, s, k);
    if k == j {
      assert t[k] == y;
      assert Before(t, k) == p;
    } else if k == j + 1 {
      assert t[k] == x && Before(t, k) == y;
    } else if Before(s, k) == y {
      assert t[k] == s[k] == q;
      assert Before(t, k) == x;
    } else {
      assert t[k] == s[k] != q;
      assert Before(t, k) == Before(s, k);
    }
  }

  /**
   * Exchanging positions `j` and `j + 1` of a ring of three or more: the node
   * before the pair and the pair itself get new `siguiente` links.
   */
  lemma SwapNext(sig: map<NodeId, NodeId>, s: seq<NodeId>, j: nat)
    requires NextLinks(sig, s) && Distinct(s) && 3 <= |s| && j + 1 < |s|
    ensures NextLinks(SwappedNext(sig, s, j), SwapAdjacent(s, j))
  {
    var n := |s|;
    var t := SwapAdjacent(s, j);
    var sig' := SwappedNext(sig, s, j);
    forall k | 0 <= k < n
      ensures t[k] in sig'
    {
      SwapNextAt(sig, s, j, k);
    }
    forall k | 0 <= k < n - 1
      ensures sig'[t[k]] == t[k + 1]
    {
      SwapNextAt(sig, s, j, k);
    }
    SwapNextAt(sig, s, j, n - 1);
  }

  /**
   * Exchanging positions `j` and `j + 1` of a ring of three or more: the pair and
   * the node after it get new `anterior` links.
   */
  lemma SwapPrev(ant: map<NodeId, NodeId>, s: seq<NodeId>, j: nat)
    requires PrevLinks(ant, s) && Distinct(s) && 3 <= |s| && j + 1 < |s|
    ensures PrevLinks(SwappedPrev(ant, s, j), SwapAdjacent(s, j))
  {
    var n := |s|;
    var t := SwapAdjacent(s, j);
    var ant' := SwappedPrev(ant, s, j);
    forall k | 0 <= k < n
      ensures t[k] in ant'
    {
      SwapPrevAt(ant, s, j, k);
    }
    forall k | 0 < k < n
      ensures ant'[t[k]] == t[k - 1]
    {
      SwapPrevAt(ant, s, j, k);
    }
    SwapPrevAt(ant, s, j, 0);
  }
}
