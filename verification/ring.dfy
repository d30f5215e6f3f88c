/**
 * The playlist of main.py (`ListaReproduccion`) as an arena: every song node
 * has a handle, and its `siguiente`/`anterior` references become maps from
 * handle to handle. `LinkedAs(l, s)` says that the arena is exactly the
 * circular doubly-linked ring visiting the handles of `s` in order, starting
 * at the cursor `PTR`.
 */
module Ring {
  import opened Wrappers
  import opened Sequences
  import opened Records
  import opened Links

  datatype ListaReproduccion = ListaReproduccion(
    data: map<NodeId, Cancion>,          // the song each live node holds
    siguiente: map<NodeId, NodeId>,      // node.siguiente
    anterior: map<NodeId, NodeId>,       // node.anterior
    ptr: Option<NodeId>,                 // PTR, the current node
    longitud: nat,                       // the node count kept by the list
    nextId: nat)                          // the next unused handle


  /**
   * Follows `siguiente` links `k` times from `from`, collecting every visited
   * node. A dangling link, which a well-formed arena never has, ends the walk.
   */
  function Walk(siguiente: map<NodeId, NodeId>, from: NodeId, k: nat): (w: seq<NodeId>)
    ensures |w| <= k && (k > 0 ==> 0 < |w|)
    ensures forall j | 0 <= j < |w| :: w[j] == Advance(siguiente, from, j)
    decreases k
  {
    if k == 0 then []
    else if from !in siguiente then [from]
    else [from] + Walk(siguiente, siguiente[from], k - 1)
  }

  /** `recorrer`: `longitud` nodes starting at `PTR`, or none when there is no current node. */
  function Recorrer(l: ListaReproduccion): (s: seq<NodeId>)
    ensures |s| <= l.longitud
    ensures l.ptr.None? ==> s == []
    ensures l.ptr.Some? ==> (l.longitud > 0 ==> 0 < |s|) && forall j | 0 <= j < |s| :: s[j] == Advance(l.siguiente, l.ptr.value, j)
  {
    match l.ptr
    case None => []
    case Some(p) => Walk(l.siguiente, p, l.longitud)
  }

  /** The count, handles and cursor of the arena agree with the ring `s`. */
  predicate Shape(l: ListaReproduccion, s: seq<NodeId>) {
    && |s| == l.longitud
    && Distinct(s)
    && (forall k | 0 <= k < |s| :: s[k] < l.nextId)
    && l.ptr == (if |s| == 0 then None else Some(s[0]))
  }

  /** The live nodes of the arena are exactly the elements of `s`. */
  predicate Domain(l: ListaReproduccion, s: seq<NodeId>) {
    && l.data.Keys == Elems(s)
    && l.siguiente.Keys == Elems(s)
    && l.anterior.Keys == Elems(s)
  }

  /** The arena is exactly the ring `s`, with `s[0]` as the current node. */
  predicate LinkedAs(l: ListaReproduccion, s: seq<NodeId>) {
    && Shape(l, s)
    && Domain(l, s)
    && NextLinks(l.siguiente, s)
    && PrevLinks(l.anterior, s)
  }

  /** The list is a well-formed ring whose traversal is what `recorrer` returns. */
  predicate Valid(l: ListaReproduccion) {
    LinkedAs(l, Recorrer(l))
  }

  /** `__init__`: no current node and no songs, which is the valid empty ring. */
  function Nueva(): (l: ListaReproduccion)
    ensures l.ptr == None && l.longitud == 0
    ensures Valid(l) && Recorrer(l) == []
  {
    ListaReproduccion(map[], map[], map[], None, 0, 0)
  }

  /** The songs in traversal order. */
  function Tracks(l: ListaReproduccion): (ts: seq<Cancion>)
    requires Valid(l)
    ensures |ts| == l.longitud
  {
    var s := Recorrer(l);
    seq(|s|, k requires 0 <= k < |s| => l.data[s[k]])
  }

  /** Walking `k` steps from position `j` of the ring reads off `s[j..j + k]`. */
  lemma {:induction false} WalkAlong(l: ListaReproduccion, s: seq<NodeId>, j: nat, k: nat)
    requires LinkedAs(l, s)
    requires j < |s| && j + k <= |s|
    ensures Walk(l.siguiente, s[j], k) == s[j..j + k]
    decreases k
  {
    if k > 0 {
      assert s[j] in Elems(s);
      if k > 1 {
        WalkAlong(l, s, j + 1, k - 1);
        assert l.siguiente[s[j]] == s[j + 1];
        assert s[j..j + k] == [s[j]] + s[j + 1..j + k];
      }
    }
  }

  /** An arena that is the ring `s` is valid, and `recorrer` returns exactly `s`. */
  lemma LinkedAsRecorrer(l: ListaReproduccion, s: seq<NodeId>)
    requires LinkedAs(l, s)
    ensures Recorrer(l) == s
    ensures Valid(l)
  {
    if |s| > 0 {
      WalkAlong(l, s, 0, |s|);
      assert s[0..|s|] == s;
    }
  }

  /** The ring order, the songs and the handle counter determine the whole list. */
  lemma LinkedAsDetermines(l1: ListaReproduccion, l2: ListaReproduccion, s: seq<NodeId>)
    requires LinkedAs(l1, s) && LinkedAs(l2, s)
    requires l1.data == l2.data && l1.nextId == l2.nextId
    ensures l1 == l2
  {
    forall x | x in l1.siguiente
      ensures l1.siguiente[x] == l2.siguiente[x] && l1.anterior[x] == l2.anterior[x]
    {
      var k :| 0 <= k < |s| && s[k] == x;
      if k < |s| - 1 {
        assert l1.siguiente[s[k]] == s[k + 1] == l2.siguiente[s[k]];
      }
      if k > 0 {
        assert l1.anterior[s[k]] == s[k - 1] == l2.anterior[s[k]];
      }
    }
    assert l1.siguiente == l2.siguiente;
    assert l1.anterior == l2.anterior;
  }

  /**
   * An arena `r` with the songs and handles of the ring `s`, whose links and
   * cursor describe a reordering `t` of the same nodes, is the ring `t`.
   */
  lemma LinkedAsReordered(l: ListaReproduccion, s: seq<NodeId>, r: ListaReproduccion, t: seq<NodeId>)
    requires LinkedAs(l, s) && 0 < |t| == |s| && Distinct(t) && Elems(t) == Elems(s)
    requires r.data == l.data && r.longitud == l.longitud && r.nextId == l.nextId
    requires r.siguiente.Keys == Elems(s) && r.anterior.Keys == Elems(s)
    requires NextLinks(r.siguiente, t) && PrevLinks(r.anterior, t) && r.ptr == Some(t[0])
    ensures LinkedAs(r, t)
  {
    forall k | 0 <= k < |t|
      ensures t[k] < r.nextId
    {
      assert t[k] in Elems(s);
    }
  }

  /** A valid list is determined by its traversal, its songs and its handle counter. */
  lemma ValidDetermines(l1: ListaReproduccion, l2: ListaReproduccion)
    requires Valid(l1) && Valid(l2) && Recorrer(l1) == Recorrer(l2)
    requires l1.data == l2.data && l1.nextId == l2.nextId
    ensures l1 == l2
  {
    LinkedAsDetermines(l1, l2, Recorrer(l1));
  }

  /** `k` steps along `siguiente`. */
  function Advance(siguiente: map<NodeId, NodeId>, x: NodeId, k: nat): NodeId
    decreases k
  {
    if k == 0 || x !in siguiente then x else Advance(siguiente, siguiente[x], k - 1)
  }

  lemma {:induction false} AdvanceAlong(l: ListaReproduccion, s: seq<NodeId>, j: nat, k: nat)
    requires LinkedAs(l, s)
    requires j + k < |s|
    ensures Advance(l.siguiente, s[j], k) == s[j + k]
    decreases k
  {
    if k > 0 {
      assert s[j] in Elems(s);
      AdvanceAlong(l, s, j + 1, k - 1);
    }
  }

  lemma {:induction false} AdvanceAdd(siguiente: map<NodeId, NodeId>, x: NodeId, a: nat, b: nat)
    ensures Advance(siguiente, x, a + b) == Advance(siguiente, Advance(siguiente, x, a), b)
    decreases a
  {
    if a > 0 && x in siguiente {
      AdvanceAdd(siguiente, siguiente[x], a - 1, b);
    }
  }

  /** In the ring `s` every `siguiente` link is undone by `anterior`, and vice versa. */
  lemma LinksInverse(l: ListaReproduccion, s: seq<NodeId>)
    requires LinkedAs(l, s)
    ensures forall x {:trigger l.anterior[l.siguiente[x]]} | x in l.siguiente :: l.siguiente[x] in l.siguiente && l.anterior[l.siguiente[x]] == x
    ensures forall x {:trigger l.siguiente[l.anterior[x]]} | x in l.anterior :: l.anterior[x] in l.anterior && l.siguiente[l.anterior[x]] == x
  {
    var n := |s|;
    forall x {:trigger l.anterior[l.siguiente[x]]} | x in l.siguiente
      ensures l.siguiente[x] in l.siguiente && l.anterior[l.siguiente[x]] == x
    {
      var k :| 0 <= k < n && s[k] == x;
      if k < n - 1 {
        assert s[k + 1] in Elems(s);
      } else {
        assert s[0] in Elems(s);
      }
    }
    forall x {:trigger l.siguiente[l.anterior[x]]} | x in l.anterior
      ensures l.anterior[x] in l.anterior && l.siguiente[l.anterior[x]] == x
    {
      var k :| 0 <= k < n && s[k] == x;
      if k > 0 {
        assert s[k - 1] in Elems(s);
      } else {
        assert s[n - 1] in Elems(s);
      }
    }
  }

  /** In the ring `s`, `|s|` steps along `siguiente` from any node come back to it. */
  lemma AdvanceReturns(l: ListaReproduccion, s: seq<NodeId>)
    requires LinkedAs(l, s)
    ensures forall x | x in l.siguiente :: Advance(l.siguiente, x, |s|) == x
  {
    var n := |s|;
    forall x | x in l.siguiente
      ensures Advance(l.siguiente, x, n) == x
    {
      var j :| 0 <= j < n && s[j] == x;
      assert s[n - 1] in Elems(s);
      AdvanceAlong(l, s, j, n - 1 - j);
      AdvanceAdd(l.siguiente, x, n - 1 - j, 1 + j);
      AdvanceAlong(l, s, 0, j);
      AdvanceAdd(l.siguiente, s[n - 1], 1, j);
    }
  }

  /**
   * `longitud == 0` exactly when there is no current node, the current node is
   * live, and a single node is linked to itself both ways.
   */
  lemma CursorInvariant(l: ListaReproduccion)
    requires Valid(l)
    ensures l.longitud == 0 <==> l.ptr.None?
    ensures l.ptr.Some? ==> l.ptr.value in l.data
    ensures l.data.Keys == l.siguiente.Keys == l.anterior.Keys
    ensures l.longitud == 1 ==> l.ptr.Some? && l.siguiente[l.ptr.value] == l.ptr.value == l.anterior[l.ptr.value]
  {
    var s := Recorrer(l);
    if |s| > 0 {
      assert s[0] in Elems(s);
    }
  }

  /** Ring integrity: every node's `siguiente.anterior` and `anterior.siguiente` is the node itself. */
  lemma RingIntegrity(l: ListaReproduccion)
    requires Valid(l)
    ensures forall x {:trigger l.anterior[l.siguiente[x]]} | x in l.siguiente :: l.siguiente[x] in l.siguiente && l.anterior[l.siguiente[x]] == x
    ensures forall x {:trigger l.siguiente[l.anterior[x]]} | x in l.anterior :: l.anterior[x] in l.anterior && l.siguiente[l.anterior[x]] == x
  {
    LinksInverse(l, Recorrer(l));
  }

  /** On a valid list the cursor's two neighbours link back to it; nothing is claimed otherwise. */
  lemma CursorLinksBack(l: ListaReproduccion)
    ensures Valid(l) && l.ptr.Some? ==>
      var p := l.ptr.value;
      && p in l.siguiente && l.siguiente[p] in l.anterior && l.anterior[l.siguiente[p]] == p
      && p in l.anterior && l.anterior[p] in l.siguiente && l.siguiente[l.anterior[p]] == p
  {
    if Valid(l) && l.ptr.Some? {
      CursorInvariant(l);
      RingIntegrity(l);
    }
  }

  /** Following `siguiente` `longitud` times from any node of the list returns to that node. */
  lemma FullTurn(l: ListaReproduccion)
    requires Valid(l)
    ensures forall x | x in l.siguiente :: Advance(l.siguiente, x, l.longitud) == x
  {
    AdvanceReturns(l, Recorrer(l));
  }

  /** `recorrer` returns `longitud` nodes, starting at `PTR`, each the `siguiente` of the one before. */
  lemma RecorrerShape(l: ListaReproduccion)
    requires Valid(l)
    ensures |Recorrer(l)| == l.longitud
    ensures l.ptr.None? ==> Recorrer(l) == []
    ensures l.ptr.Some? ==> Recorrer(l)[0] == l.ptr.value
    ensures forall k {:trigger l.siguiente[Recorrer(l)[k]]} | 0 <= k < |Recorrer(l)| - 1 :: l.siguiente[Recorrer(l)[k]] == Recorrer(l)[k + 1]
  {
  }
}
