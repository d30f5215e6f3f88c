/**
 * The methods of `ListaReproduccion` that change the ring: `agregar`,
 * `eliminar`, `siguiente`, `anterior` and `vaciar`. Each function performs
 * the same link assignments, in the same order, as main.py; the lemmas state
 * the effect on the traversal returned by `recorrer`.
 */
module Operations {
  import opened Wrappers
  import opened Sequences
  import opened Records
  import opened Links
  import opened Ring

  /**
   * `agregar`: a new node holding `c`. An empty list makes it the current node,
   * linked to itself; otherwise it is spliced in between the tail (`PTR.anterior`)
   * and `PTR`. Returns the list and the new node.
   */
  function Agregar(l: ListaReproduccion, c: Cancion): (r: (ListaReproduccion, NodeId))
    requires l.ptr.Some? ==> l.ptr.value in l.anterior
    ensures r.1 == l.nextId && r.0.nextId == l.nextId + 1
    ensures r.0.data == l.data[r.1 := c] && r.0.longitud == l.longitud + 1
    ensures r.1 in r.0.siguiente && r.1 in r.0.anterior
    ensures l.ptr.None? ==> r.0.ptr == Some(r.1) && r.0.siguiente[r.1] == r.1 && r.0.anterior[r.1] == r.1
    ensures l.ptr.Some? && l.ptr.value != r.1 && l.anterior[l.ptr.value] != r.1 ==>
      && r.0.ptr == l.ptr && l.ptr.value in r.0.anterior && l.anterior[l.ptr.value] in r.0.siguiente
      && r.0.siguiente[r.1] == l.ptr.value && r.0.anterior[l.ptr.value] == r.1
      && r.0.anterior[r.1] == l.anterior[l.ptr.value] && r.0.siguiente[l.anterior[l.ptr.value]] == r.1
  {
    var n := l.nextId;
    match l.ptr
    case None =>
      (ListaReproduccion(l.data[n := c], l.siguiente[n := n], l.anterior[n := n], Some(n), l.longitud + 1, n + 1), n)
    case Some(p) =>
      var fin := l.anterior[p];
      var sig1 := l.siguiente[fin := n];   // FINAL.siguiente = cancion
      var ant1 := l.anterior[n := fin];    // cancion.anterior = FINAL
      var sig2 := sig1[n := p];            // cancion.siguiente = PTR
      var ant2 := ant1[p := n];            // PTR.anterior = cancion
      (ListaReproduccion(l.data[n := c], sig2, ant2, l.ptr, l.longitud + 1, n + 1), n)
  }

  lemma AgregarShape(l: ListaReproduccion, s: seq<NodeId>, c: Cancion)
    requires Shape(l, s) && (l.ptr.Some? ==> l.ptr.value in l.anterior)
    ensures Shape(Agregar(l, c).0, s + [l.nextId])
  {
    var n := l.nextId;
    assert n !in s;
    AppendFresh(s, n);
  }

  lemma AgregarDomain(l: ListaReproduccion, s: seq<NodeId>, c: Cancion)
    requires Domain(l, s) && PrevLinks(l.anterior, s) && l.ptr == (if |s| == 0 then None else Some(s[0]))
    ensures l.ptr.Some? ==> l.ptr.value in l.anterior
    ensures Domain(Agregar(l, c).0, s + [l.nextId])
  {
    if |s| > 0 {
      PrevAt(l.anterior, s, 0);
      assert s[|s| - 1] in Elems(s);
    }
    assert Elems(s + [l.nextId]) == Elems(s) + {l.nextId};
  }

  /** Appending to the ring `s` gives the ring `s + [n]`, where `n` is the new node. */
  lemma AgregarLinked(l: ListaReproduccion, s: seq<NodeId>, c: Cancion)
    requires LinkedAs(l, s)
    ensures l.ptr.Some? ==> l.ptr.value in l.anterior
    ensures LinkedAs(Agregar(l, c).0, s + [l.nextId])
  {
    var m := |s|;
    var n := l.nextId;
    AgregarDomain(l, s, c);
    AgregarShape(l, s, c);
    var r := Agregar(l, c).0;
    if m > 0 {
      assert n !in s;
      PrevAt(l.anterior, s, 0);
      assert r.siguiente == l.siguiente[s[m - 1] := n][n := s[0]];
      assert r.anterior == l.anterior[n := s[m - 1]][s[0] := n];
      AppendNext(l.siguiente, s, n);
      AppendPrev(l.anterior, s, n);
    }
  }

  /**
   * `agregar` appends the new node at the end of the traversal and leaves the
   * cursor where it was; on an empty list the node becomes the cursor and links
   * to itself. The new node was not in the list, and `longitud` grows by one.
   */
  lemma AgregarAppends(l: ListaReproduccion, c: Cancion)
    requires Valid(l)
    ensures l.ptr.Some? ==> l.ptr.value in l.anterior
    ensures Valid(Agregar(l, c).0)
    ensures Recorrer(Agregar(l, c).0) == Recorrer(l) + [Agregar(l, c).1]
    ensures Agregar(l, c).1 !in Recorrer(l)
    ensures Tracks(Agregar(l, c).0) == Tracks(l) + [c]
    ensures Agregar(l, c).0.longitud == l.longitud + 1
    ensures l.ptr.Some? ==> Agregar(l, c).0.ptr == l.ptr
    ensures l.ptr.None? ==>
      var (r, n) := Agregar(l, c);
      r.ptr == Some(n) && r.siguiente[n] == n && r.anterior[n] == n
  {
    var s := Recorrer(l);
    AgregarLinked(l, s, c);
    var (r, n) := Agregar(l, c);
    LinkedAsRecorrer(r, s + [n]);
    assert n !in s;
    TracksAppend(l, r, n, c);
  }

  /** A traversal that gains a fresh node at the end gains its song at the end. */
  lemma TracksAppend(l: ListaReproduccion, r: ListaReproduccion, n: NodeId, c: Cancion)
    requires Valid(l) && Valid(r)
    requires Recorrer(r) == Recorrer(l) + [n] && n !in Recorrer(l)
    requires r.data == l.data[n := c]
    ensures Tracks(r) == Tracks(l) + [c]
  {
    var s := Recorrer(l);
    assert forall k | 0 <= k < |s| :: Recorrer(r)[k] == s[k] && s[k] != n;
  }

  /**
   * `eliminar`: nothing happens on an empty list. Removing the only node (when it
   * is `PTR`) leaves no current node; otherwise the node's neighbours are linked
   * to each other, and `PTR` first moves to the node's successor if the node was
   * current. `longitud` drops by one. The unlinked node leaves the arena.
   */
  function Eliminar(l: ListaReproduccion, id: NodeId): (r: ListaReproduccion)
    requires l.longitud > 0 ==> id in l.siguiente && id in l.anterior
    ensures l.longitud == 0 ==> r == l
    ensures l.longitud > 0 ==>
      && r.longitud == l.longitud - 1 && r.nextId == l.nextId
      && r.data == l.data - {id} && id !in r.siguiente && id !in r.anterior
    ensures l.longitud == 1 && l.ptr == Some(id) ==> r.ptr == None
    ensures l.longitud > 0 && !(l.longitud == 1 && l.ptr == Some(id)) ==>
      && r.ptr == (if l.ptr == Some(id) then Some(l.siguiente[id]) else l.ptr)
      && (l.anterior[id] != id ==> l.anterior[id] in r.siguiente && r.siguiente[l.anterior[id]] == l.siguiente[id])
      && (l.siguiente[id] != id ==> l.siguiente[id] in r.anterior && r.anterior[l.siguiente[id]] == l.anterior[id])
  {
    if l.longitud == 0 then l
    else if l.longitud == 1 && l.ptr == Some(id) then
      l.(data := l.data - {id}, siguiente := l.siguiente - {id}, anterior := l.anterior - {id},
         ptr := None, longitud := 0)
    else
      var ptr' := if l.ptr == Some(id) then Some(l.siguiente[id]) else l.ptr;
      var sig1 := l.siguiente[l.anterior[id] := l.siguiente[id]];   // cancion.anterior.siguiente = cancion.siguiente
      var ant1 := l.anterior[sig1[id] := l.anterior[id]];           // cancion.siguiente.anterior = cancion.anterior
      l.(data := l.data - {id}, siguiente := sig1 - {id}, anterior := ant1 - {id},
         ptr := ptr', longitud := l.longitud - 1)
  }

  /** On an empty list `eliminar` changes nothing. */
  lemma EliminarEmpty(l: ListaReproduccion, id: NodeId)
    requires Valid(l) && l.longitud == 0
    ensures Eliminar(l, id) == l
    ensures Recorrer(Eliminar(l, id)) == []
  {
  }

  lemma EliminarShape(l: ListaReproduccion, s: seq<NodeId>, i: nat)
    requires Shape(l, s) && NextLinks(l.siguiente, s) && PrevLinks(l.anterior, s) && i < |s|
    ensures Shape(Eliminar(l, s[i]), RemoveAt(s, i))
  {
    var t := RemoveAt(s, i);
    RemoveAtElems(s, i);
    if |s| > 1 {
      NextAt(l.siguiente, s, i);
      if i > 0 {
        assert t[0] == s[0] != s[i];
      }
    }
    forall k | 0 <= k < |t|
      ensures t[k] < l.nextId
    {
      if k >= i {
        assert t[k] == s[k + 1];
      }
    }
  }

  lemma EliminarDomainLinked(l: ListaReproduccion, s: seq<NodeId>, i: nat)
    requires Domain(l, s) && NextLinks(l.siguiente, s) && PrevLinks(l.anterior, s)
    requires Distinct(s) && i < |s| && 1 < |s| && l.longitud == |s|
    ensures Domain(Eliminar(l, s[i]), RemoveAt(s, i))
  {
    RemoveAtElems(s, i);
    EliminarMaps(l, s, i);
    assert Before(s, i) in Elems(s) && After(s, i) in Elems(s);
  }

  /** With two or more nodes, `eliminar` relinks the neighbours of the node and drops it. */
  lemma EliminarMaps(l: ListaReproduccion, s: seq<NodeId>, i: nat)
    requires NextLinks(l.siguiente, s) && PrevLinks(l.anterior, s)
    requires Distinct(s) && i < |s| && 1 < |s| && l.longitud == |s|
    ensures s[i] in l.siguiente && s[i] in l.anterior
    ensures Eliminar(l, s[i]).siguiente == RemovedNext(l.siguiente, s, i)
    ensures Eliminar(l, s[i]).anterior == RemovedPrev(l.anterior, s, i)
  {
    NextAt(l.siguiente, s, i);
    PrevAt(l.anterior, s, i);
    assert Before(s, i) != s[i];
  }

  lemma EliminarDomain(l: ListaReproduccion, s: seq<NodeId>, i: nat)
    requires Domain(l, s) && NextLinks(l.siguiente, s) && PrevLinks(l.anterior, s)
    requires Distinct(s) && i < |s| && l.longitud == |s|
    requires l.ptr == (if |s| == 0 then None else Some(s[0]))
    ensures Domain(Eliminar(l, s[i]), RemoveAt(s, i))
  {
    if |s| > 1 {
      EliminarDomainLinked(l, s, i);
    } else {
      assert s[i] in Elems(s);
      assert Elems(s) == {s[i]};
      RemoveAtElems(s, i);
    }
  }

  /** The bookkeeping of `eliminar` on position `i` of the ring `s`. */
  lemma EliminarFields(l: ListaReproduccion, s: seq<NodeId>, i: nat)
    requires LinkedAs(l, s) && i < |s|
    ensures s[i] in l.siguiente && s[i] in l.anterior
    ensures Eliminar(l, s[i]).longitud == l.longitud - 1
    ensures Eliminar(l, s[i]).data == l.data - {s[i]}
    ensures l.longitud == 1 ==> Eliminar(l, s[i]).ptr == None
    ensures l.longitud > 1 && l.ptr == Some(s[i]) ==> Eliminar(l, s[i]).ptr == Some(l.siguiente[s[i]])
    ensures l.ptr != Some(s[i]) ==> Eliminar(l, s[i]).ptr == l.ptr
  {
    assert s[i] in Elems(s);
  }

  /** Unlinking position `i` of the ring `s` gives the ring `s` without that position. */
  lemma EliminarLinked(l: ListaReproduccion, s: seq<NodeId>, i: nat)
    requires LinkedAs(l, s) && i < |s|
    ensures s[i] in l.siguiente && s[i] in l.anterior
    ensures LinkedAs(Eliminar(l, s[i]), RemoveAt(s, i))
  {
    assert s[i] in Elems(s);
    EliminarShape(l, s, i);
    EliminarDomain(l, s, i);
    if |s| > 1 {
      EliminarMaps(l, s, i);
      RemoveNext(l.siguiente, s, i);
      RemovePrev(l.anterior, s, i);
    }
  }

  /**
   * Removing a node of the list removes exactly that node from the traversal,
   * keeping the order of the rest. If it was the only node the list is left
   * without a current node; if it was `PTR` among several, `PTR` becomes its
   * successor; otherwise `PTR` stays.
   */
  lemma EliminarRemoves(l: ListaReproduccion, id: NodeId)
    requires Valid(l) && id in l.data
    ensures id in l.siguiente && id in l.anterior
    ensures Valid(Eliminar(l, id))
    ensures Recorrer(Eliminar(l, id)) == RemoveAt(Recorrer(l), IndexOf(Recorrer(l), id))
    ensures Eliminar(l, id).longitud == l.longitud - 1
    ensures Eliminar(l, id).data == l.data - {id}
    ensures l.longitud == 1 ==> Eliminar(l, id).ptr == None
    ensures l.longitud > 1 && l.ptr == Some(id) ==> Eliminar(l, id).ptr == Some(l.siguiente[id])
    ensures l.ptr != Some(id) ==> Eliminar(l, id).ptr == l.ptr
  {
    var s := Recorrer(l);
    assert id in Elems(s);
    var i := IndexOf(s, id);
    EliminarFields(l, s, i);
    EliminarLinked(l, s, i);
    LinkedAsRecorrer(Eliminar(l, id), RemoveAt(s, i));
  }

  /** `siguiente`: the cursor moves to `PTR.siguiente`; nothing happens without a cursor. */
  function Siguiente(l: ListaReproduccion): (r: ListaReproduccion)
    requires l.ptr.Some? ==> l.ptr.value in l.siguiente
    ensures r.(ptr := l.ptr) == l
    ensures l.ptr.None? <==> r.ptr.None?
    ensures l.ptr.Some? ==> r.ptr == Some(Advance(l.siguiente, l.ptr.value, 1))
    ensures Valid(l) && l.ptr.Some? ==> r.ptr.value in l.anterior && l.anterior[r.ptr.value] == l.ptr.value
  {
    match l.ptr
    case None => l
    case Some(p) =>
      CursorLinksBack(l);
      l.(ptr := Some(l.siguiente[p]))
  }

  /** `anterior`: the cursor moves to `PTR.anterior`; nothing happens without a cursor. */
  function Anterior(l: ListaReproduccion): (r: ListaReproduccion)
    requires l.ptr.Some? ==> l.ptr.value in l.anterior
    ensures r.(ptr := l.ptr) == l
    ensures l.ptr.None? <==> r.ptr.None?
    ensures Valid(l) && l.ptr.Some? ==> r.ptr.value in l.siguiente && Advance(l.siguiente, r.ptr.value, 1) == l.ptr.value
  {
    match l.ptr
    case None => l
    case Some(p) =>
      CursorLinksBack(l);
      l.(ptr := Some(l.anterior[p]))
  }

  lemma SiguienteLinked(l: ListaReproduccion, s: seq<NodeId>)
    requires LinkedAs(l, s) && 0 < |s|
    ensures s[0] in l.siguiente
    ensures LinkedAs(Siguiente(l), RotateLeft(s))
  {
    RotateLeftLinks(l.siguiente, l.anterior, s);
    NextAt(l.siguiente, s, 0);
    RotationKeeps(s);
    LinkedAsReordered(l, s, Siguiente(l), RotateLeft(s));
  }

  lemma AnteriorLinked(l: ListaReproduccion, s: seq<NodeId>)
    requires LinkedAs(l, s) && 0 < |s|
    ensures s[0] in l.anterior
    ensures LinkedAs(Anterior(l), RotateRight(s))
  {
    var t := RotateRight(s);
    RotateRightLinks(l.siguiente, l.anterior, s);
    PrevAt(l.anterior, s, 0);
    RotateInverse(s);
    RotationKeeps(t);
    LinkedAsReordered(l, s, Anterior(l), t);
  }

  /** `siguiente` rotates the traversal left by one and keeps `longitud` and the songs. */
  lemma SiguienteRotates(l: ListaReproduccion)
    requires Valid(l)
    ensures l.ptr.Some? ==> l.ptr.value in l.siguiente
    ensures Valid(Siguiente(l))
    ensures l.ptr.None? ==> Siguiente(l) == l
    ensures l.ptr.Some? ==> Recorrer(Siguiente(l)) == RotateLeft(Recorrer(l))
    ensures Siguiente(l).longitud == l.longitud && Siguiente(l).data == l.data
  {
    var s := Recorrer(l);
    if |s| > 0 {
      SiguienteLinked(l, s);
      LinkedAsRecorrer(Siguiente(l), RotateLeft(s));
    }
  }

  /** `anterior` rotates the traversal right by one and keeps `longitud` and the songs. */
  lemma AnteriorRotates(l: ListaReproduccion)
    requires Valid(l)
    ensures l.ptr.Some? ==> l.ptr.value in l.anterior
    ensures Valid(Anterior(l))
    ensures l.ptr.None? ==> Anterior(l) == l
    ensures l.ptr.Some? ==> Recorrer(Anterior(l)) == RotateRight(Recorrer(l))
    ensures Anterior(l).longitud == l.longitud && Anterior(l).data == l.data
  {
    var s := Recorrer(l);
    if |s| > 0 {
      AnteriorLinked(l, s);
      LinkedAsRecorrer(Anterior(l), RotateRight(s));
    }
  }

  /** `siguiente` followed by `anterior`, or the other way round, restores the list. */
  lemma SiguienteAnterior(l: ListaReproduccion)
    requires Valid(l)
    ensures Valid(Siguiente(l)) && Anterior(Siguiente(l)) == l
    ensures Valid(Anterior(l)) && Siguiente(Anterior(l)) == l
  {
    SiguienteRotates(l);
    AnteriorRotates(l);
    if l.ptr.Some? {
      RingIntegrity(l);
      CursorInvariant(l);
    }
  }

  /** `vaciar`: no current node and `longitud` 0; every node leaves the arena. */
  function Vaciar(l: ListaReproduccion): (r: ListaReproduccion)
    ensures Valid(r) && r.ptr.None? && r.longitud == 0 && Recorrer(r) == []
  {
    ListaReproduccion(map[], map[], map[], None, 0, l.nextId)
  }
}
