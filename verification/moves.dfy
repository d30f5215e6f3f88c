/**
 * Reordering the playlist from the interface: `mover_arriba` moves a song one
 * place towards the front of the traversal and `mover_abajo` one place towards
 * the back. Both rewire the ring in place with the same six link assignments
 * and, when the pair they exchange starts at `PTR`, move `PTR` as well.
 */
module Reorder {
  import opened Wrappers
  import opened Sequences
  import opened Links
  import opened Ring

  /** `canciones.index(cancion)` raises `ValueError` for a node that is not in the list. */
  datatype MoveError = NotInPlaylist

  /**
   * The link assignments that put `y` in front of `x`, its predecessor on the
   * ring, in the order `mover_arriba` makes them (with `x` the previous song and
   * `y` the moved one) and, identically, `mover_abajo` (with `x` the moved song
   * and `y` the next one).
   */
  function Intercambiar(sig: map<NodeId, NodeId>, ant: map<NodeId, NodeId>, x: NodeId, y: NodeId)
    : (r: (map<NodeId, NodeId>, map<NodeId, NodeId>))
    requires x in ant && y in sig
    ensures var p, q := ant[x], sig[y];
      x != y && p != x && p != y && q != x && q != y ==>
        && r.0.Keys == sig.Keys + {p, x} && r.1.Keys == ant.Keys + {y, q}
        && r.0[p] == y && r.0[y] == x && r.0[x] == q
        && r.1[q] == x && r.1[x] == y && r.1[y] == p
        && (forall k | k in sig && k != p && k != x && k != y :: r.0[k] == sig[k])
        && (forall k | k in ant && k != q && k != x && k != y :: r.1[k] == ant[k])
    ensures x != y && x in sig && y in ant && sig[x] == y && sig[y] == x && ant[x] == y && ant[y] == x ==> r == (sig, ant)
  {
    var sig1 := sig[ant[x] := y];     // x.anterior.siguiente = y
    var ant1 := ant[y := ant[x]];     // y.anterior = x.anterior
    var sig2 := sig1[x := sig1[y]];   // x.siguiente = y.siguiente
    var ant2 := ant1[sig2[y] := x];   // y.siguiente.anterior = x
    var sig3 := sig2[y := x];         // y.siguiente = x
    var ant3 := ant2[x := y];         // x.anterior = y
    assert x != y && x in sig && y in ant && sig[x] == y && sig[y] == x && ant[x] == y && ant[y] == x ==>
      sig3 == sig && ant3 == ant;
    (sig3, ant3)
  }

  /** The rewiring, plus `PTR := y` when `x` was the first song. */
  function Adelantar(l: ListaReproduccion, x: NodeId, y: NodeId, esPrimera: bool): ListaReproduccion
    requires x in l.anterior && y in l.siguiente
  {
    var (sig, ant) := Intercambiar(l.siguiente, l.anterior, x, y);
    l.(siguiente := sig, anterior := ant, ptr := if esPrimera then Some(y) else l.ptr)
  }

  /**
   * `mover_arriba`: nothing happens on a list of at most one song or for the
   * first song; a node that is not in the list is an error; otherwise the song
   * trades places with the one before it, and becomes `PTR` if that one was.
   */
  function MoverArriba(l: ListaReproduccion, id: NodeId): (r: Result<ListaReproduccion, MoveError>)
    requires Valid(l)
    ensures r.Failure? <==> 1 < l.longitud && id !in Recorrer(l)
    ensures l.longitud <= 1 || (0 < |Recorrer(l)| && Recorrer(l)[0] == id) ==> r == Success(l)
    ensures r.Success? ==> r.value.data == l.data && r.value.longitud == l.longitud && r.value.nextId == l.nextId
  {
    if l.longitud <= 1 then Success(l)
    else
      var s := Recorrer(l);
      if id !in s then Failure(NotInPlaylist)
      else
        var i := IndexOf(s, id);
        if i == 0 then Success(l)
        else
          assert s[i - 1] in Elems(s) && s[i] in Elems(s);
          Success(Adelantar(l, s[i - 1], id, i == 1))
  }

  /**
   * `mover_abajo`: nothing happens on a list of at most one song or for the
   * last song; a node that is not in the list is an error; otherwise the song
   * trades places with the one after it, which becomes `PTR` if the moved song was.
   */
  function MoverAbajo(l: ListaReproduccion, id: NodeId): (r: Result<ListaReproduccion, MoveError>)
    requires Valid(l)
    ensures r.Failure? <==> 1 < l.longitud && id !in Recorrer(l)
    ensures l.longitud <= 1 || (0 < |Recorrer(l)| && Recorrer(l)[|Recorrer(l)| - 1] == id) ==> r == Success(l)
    ensures r.Success? ==> r.value.data == l.data && r.value.longitud == l.longitud && r.value.nextId == l.nextId
  {
    if l.longitud <= 1 then Success(l)
    else
      var s := Recorrer(l);
      if id !in s then Failure(NotInPlaylist)
      else
        var i := IndexOf(s, id);
        if i == |s| - 1 then Success(l)
        else
          assert s[i] in Elems(s) && s[i + 1] in Elems(s);
          Success(Adelantar(l, id, s[i + 1], i == 0))
  }

  /** On a ring of three or more, the rewiring relinks exactly the pair and its two neighbours. */
  lemma IntercambiarAnillo(sig: map<NodeId, NodeId>, ant: map<NodeId, NodeId>, s: seq<NodeId>, j: nat)
    requires NextLinks(sig, s) && PrevLinks(ant, s) && Distinct(s) && 3 <= |s| && j + 1 < |s|
    ensures s[j] in ant && s[j + 1] in sig
    ensures Intercambiar(sig, ant, s[j], s[j + 1]) == (SwappedNext(sig, s, j), SwappedPrev(ant, s, j))
  {
    var p, x, y, q := Before(s, j), s[j], s[j + 1], After(s, j + 1);
    PrevAt(ant, s, j);
    NextAt(sig, s, j + 1);
    assert p != x && p != y && q != x && q != y && x != y;
    var sig1 := sig[p := y];
    assert sig1[y] == q;
    var sig2 := sig1[x := q];
    assert sig2[y] == q;
    assert sig2[y := x] == SwappedNext(sig, s, j);
    assert ant[y := p][q := x][x := y] == SwappedPrev(ant, s, j);
  }

  /** On a ring of two, the rewiring leaves every link as it was. */
  lemma IntercambiarPar(sig: map<NodeId, NodeId>, ant: map<NodeId, NodeId>, s: seq<NodeId>)
    requires NextLinks(sig, s) && PrevLinks(ant, s) && Distinct(s) && |s| == 2
    ensures s[0] in ant && s[1] in sig
    ensures Intercambiar(sig, ant, s[0], s[1]) == (sig, ant)
  {
    var x, y := s[0], s[1];
    assert x != y;
    assert sig[y := y][x := y][y := x] == sig;
    assert ant[y := y][y := x][x := y] == ant;
  }

  /** The node handles of the rewired ring are those of the original. */
  lemma SwappedKeys(l: ListaReproduccion, s: seq<NodeId>, j: nat)
    requires LinkedAs(l, s) && 3 <= |s| && j + 1 < |s|
    ensures SwappedNext(l.siguiente, s, j).Keys == Elems(s)
    ensures SwappedPrev(l.anterior, s, j).Keys == Elems(s)
  {
    assert Before(s, j) in Elems(s) && After(s, j + 1) in Elems(s);
    assert s[j] in Elems(s) && s[j + 1] in Elems(s);
  }

  /** Putting `s[j + 1]` in front of `s[j]` on the ring `s` gives the ring with the two exchanged. */
  lemma AdelantarLinked(l: ListaReproduccion, s: seq<NodeId>, j: nat)
    requires LinkedAs(l, s) && j + 1 < |s|
    ensures s[j] in l.anterior && s[j + 1] in l.siguiente
    ensures LinkedAs(Adelantar(l, s[j], s[j + 1], j == 0), SwapAdjacent(s, j))
  {
    assert s[j] in Elems(s) && s[j + 1] in Elems(s);
    var t := SwapAdjacent(s, j);
    var r := Adelantar(l, s[j], s[j + 1], j == 0);
    SwapAdjacentFacts(s, j);
    if |s| == 2 {
      IntercambiarPar(l.siguiente, l.anterior, s);
      assert t == RotateLeft(s);
      RotateLeftLinks(l.siguiente, l.anterior, s);
    } else {
      IntercambiarAnillo(l.siguiente, l.anterior, s, j);
      SwappedKeys(l, s, j);
      SwapNext(l.siguiente, s, j);
      SwapPrev(l.anterior, s, j);
      if j > 0 {
        assert t[0] == s[0];
      }
    }
    LinkedAsReordered(l, s, r, t);
  }

  /** The cases where `mover_arriba` leaves the list alone or fails. */
  lemma MoverArribaSinEfecto(l: ListaReproduccion, id: NodeId)
    requires Valid(l)
    ensures l.longitud <= 1 ==> MoverArriba(l, id) == Success(l)
    ensures 1 < l.longitud && id !in Recorrer(l) ==> MoverArriba(l, id) == Failure(NotInPlaylist)
    ensures 1 < l.longitud && id in Recorrer(l) && IndexOf(Recorrer(l), id) == 0 ==> MoverArriba(l, id) == Success(l)
  {
  }

  /** The cases where `mover_abajo` leaves the list alone or fails. */
  lemma MoverAbajoSinEfecto(l: ListaReproduccion, id: NodeId)
    requires Valid(l)
    ensures l.longitud <= 1 ==> MoverAbajo(l, id) == Success(l)
    ensures 1 < l.longitud && id !in Recorrer(l) ==> MoverAbajo(l, id) == Failure(NotInPlaylist)
    ensures 1 < l.longitud && id in Recorrer(l) && IndexOf(Recorrer(l), id) == l.longitud - 1 ==> MoverAbajo(l, id) == Success(l)
  {
  }

  /**
   * `mover_arriba` of the song at position `i > 0` of the traversal trades it
   * with position `i - 1`. The result is a valid list with the same songs, count
   * and handles; `PTR` becomes the moved song exactly when it reaches the front.
   */
  lemma MoverArribaSwaps(l: ListaReproduccion, id: NodeId)
    requires Valid(l) && id in Recorrer(l) && 0 < IndexOf(Recorrer(l), id)
    ensures MoverArriba(l, id).Success?
    ensures Valid(MoverArriba(l, id).value)
    ensures Recorrer(MoverArriba(l, id).value) == SwapAdjacent(Recorrer(l), IndexOf(Recorrer(l), id) - 1)
    ensures MoverArriba(l, id).value.data == l.data
    ensures MoverArriba(l, id).value.longitud == l.longitud
    ensures MoverArriba(l, id).value.nextId == l.nextId
    ensures MoverArriba(l, id).value.ptr == (if IndexOf(Recorrer(l), id) == 1 then Some(id) else l.ptr)
  {
    var s := Recorrer(l);
    var i := IndexOf(s, id);
    var r := Adelantar(l, s[i - 1], id, i == 1);
    MoverArribaAdelanta(l, id);
    AdelantarLinked(l, s, i - 1);
    LinkedAsRecorrer(r, SwapAdjacent(s, i - 1));
  }

  /** Away from the trivial cases, `mover_arriba` rewires the song with the one before it. */
  lemma MoverArribaAdelanta(l: ListaReproduccion, id: NodeId)
    requires Valid(l) && id in Recorrer(l) && 0 < IndexOf(Recorrer(l), id)
    ensures var s := Recorrer(l); var i := IndexOf(s, id);
      MoverArriba(l, id) == Success(Adelantar(l, s[i - 1], id, i == 1))
  {
  }

  /**
   * `mover_abajo` of the song at position `i` of the traversal, other than the
   * last, trades it with position `i + 1`. The result is a valid list with the
   * same songs, count and handles; `PTR` becomes the next song exactly when the
   * moved song was `PTR`.
   */
  lemma MoverAbajoSwaps(l: ListaReproduccion, id: NodeId)
    requires Valid(l) && id in Recorrer(l) && IndexOf(Recorrer(l), id) < l.longitud - 1
    ensures MoverAbajo(l, id).Success?
    ensures Valid(MoverAbajo(l, id).value)
    ensures Recorrer(MoverAbajo(l, id).value) == SwapAdjacent(Recorrer(l), IndexOf(Recorrer(l), id))
    ensures MoverAbajo(l, id).value.data == l.data
    ensures MoverAbajo(l, id).value.longitud == l.longitud
    ensures MoverAbajo(l, id).value.nextId == l.nextId
    ensures MoverAbajo(l, id).value.ptr == (if IndexOf(Recorrer(l), id) == 0 then Some(Recorrer(l)[1]) else l.ptr)
  {
    var s := Recorrer(l);
    var i := IndexOf(s, id);
    var r := Adelantar(l, id, s[i + 1], i == 0);
    MoverAbajoAdelanta(l, id);
    AdelantarLinked(l, s, i);
    LinkedAsRecorrer(r, SwapAdjacent(s, i));
  }

  /** Away from the trivial cases, `mover_abajo` rewires the song with the one after it. */
  lemma MoverAbajoAdelanta(l: ListaReproduccion, id: NodeId)
    requires Valid(l) && id in Recorrer(l) && IndexOf(Recorrer(l), id) < l.longitud - 1
    ensures var s := Recorrer(l); var i := IndexOf(s, id);
      MoverAbajo(l, id) == Success(Adelantar(l, id, s[i + 1], i == 0))
  {
  }

  /** Moving a song down is moving the song after it up. */
  lemma MoverAbajoEsArriba(l: ListaReproduccion, i: nat)
    requires Valid(l) && i + 1 < |Recorrer(l)|
    ensures MoverAbajo(l, Recorrer(l)[i]) == MoverArriba(l, Recorrer(l)[i + 1])
  {
    var s := Recorrer(l);
    IndexOfDistinct(s, i);
    IndexOfDistinct(s, i + 1);
  }

  /** After `mover_arriba` the moved song sits one place nearer the front. */
  lemma MoverArribaIndice(l: ListaReproduccion, id: NodeId)
    requires Valid(l) && id in Recorrer(l) && 0 < IndexOf(Recorrer(l), id)
    ensures MoverArriba(l, id).Success? && Valid(MoverArriba(l, id).value)
    ensures var r := MoverArriba(l, id).value;
      && Recorrer(r) == SwapAdjacent(Recorrer(l), IndexOf(Recorrer(l), id) - 1)
      && r.data == l.data && r.nextId == l.nextId
      && id in Recorrer(r) && IndexOf(Recorrer(r), id) == IndexOf(Recorrer(l), id) - 1
  {
    var s := Recorrer(l);
    var i := IndexOf(s, id);
    MoverArribaSwaps(l, id);
    SwapAdjacentFacts(s, i - 1);
    IndexOfDistinct(SwapAdjacent(s, i - 1), i - 1);
  }

  /** After `mover_abajo` the moved song sits one place nearer the back. */
  lemma MoverAbajoIndice(l: ListaReproduccion, id: NodeId)
    requires Valid(l) && id in Recorrer(l) && IndexOf(Recorrer(l), id) < l.longitud - 1
    ensures MoverAbajo(l, id).Success? && Valid(MoverAbajo(l, id).value)
    ensures var r := MoverAbajo(l, id).value;
      && Recorrer(r) == SwapAdjacent(Recorrer(l), IndexOf(Recorrer(l), id))
      && r.data == l.data && r.nextId == l.nextId
      && id in Recorrer(r) && IndexOf(Recorrer(r), id) == IndexOf(Recorrer(l), id) + 1
  {
    var s := Recorrer(l);
    var i := IndexOf(s, id);
    MoverAbajoSwaps(l, id);
    SwapAdjacentFacts(s, i);
    IndexOfDistinct(SwapAdjacent(s, i), i + 1);
  }

  /** Moving a song other than the first up and then down again restores the list. */
  lemma MoverArribaAbajo(l: ListaReproduccion, id: NodeId)
    requires Valid(l) && id in Recorrer(l) && 0 < IndexOf(Recorrer(l), id)
    ensures MoverArriba(l, id).Success? && Valid(MoverArriba(l, id).value)
    ensures MoverAbajo(MoverArriba(l, id).value, id) == Success(l)
  {
    var s := Recorrer(l);
    var i := IndexOf(s, id);
    MoverArribaIndice(l, id);
    var r := MoverArriba(l, id).value;
    SwapAdjacentTwice(s, i - 1);
    MoverAbajoSwaps(r, id);
    ValidDetermines(MoverAbajo(r, id).value, l);
  }

  /** Moving a song other than the last down and then up again restores the list. */
  lemma MoverAbajoArriba(l: ListaReproduccion, id: NodeId)
    requires Valid(l) && id in Recorrer(l) && IndexOf(Recorrer(l), id) < l.longitud - 1
    ensures MoverAbajo(l, id).Success? && Valid(MoverAbajo(l, id).value)
    ensures MoverArriba(MoverAbajo(l, id).value, id) == Success(l)
  {
    var s := Recorrer(l);
    var i := IndexOf(s, id);
    MoverAbajoIndice(l, id);
    var r := MoverAbajo(l, id).value;
    SwapAdjacentTwice(s, i);
    MoverArribaSwaps(r, id);
    ValidDetermines(MoverArriba(r, id).value, l);
  }
}
