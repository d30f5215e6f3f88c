/**
 * `guardar` and `cargar` at the level of records: the playlist file holds the
 * list of `to_dict` records in traversal order, and loading it appends the
 * records one by one after emptying the list. The file system is reduced to
 * two inputs: whether the playlist file exists (with the records it holds)
 * and the set of audio paths that exist when the file is read.
 */
module Persistence {
  import opened Wrappers
  import opened Sequences
  import opened Records
  import opened Ring
  import opened Operations

  /** What `cargar` leaves behind: the list, and the `KeyError` that interrupted it, if any. */
  datatype Carga = Carga(lista: ListaReproduccion, error: Option<KeyError>)

  /** The `to_dict` records of `ts`, in order; each one converts back to its song. */
  function Registros(ts: seq<Cancion>): (ds: seq<Record>)
    ensures |ds| == |ts|
    ensures forall k | 0 <= k < |ds| :: ds[k].Keys == {"titulo", "url", "miniatura", "file_path"}
    ensures forall k | 0 <= k < |ds| :: FromDict(ds[k]) == Success(ts[k])
  {
    var ds := seq(|ts|, k requires 0 <= k < |ts| => ToDict(ts[k]));
    RegistrosVuelven(ts, ds);
    ds
  }

  lemma RegistrosVuelven(ts: seq<Cancion>, ds: seq<Record>)
    requires |ds| == |ts| && forall k | 0 <= k < |ds| :: ds[k] == ToDict(ts[k])
    ensures forall k | 0 <= k < |ds| :: FromDict(ds[k]) == Success(ts[k])
  {
    forall k | 0 <= k < |ds|
      ensures FromDict(ds[k]) == Success(ts[k])
    {
      FromToDict(ts[k]);
    }
  }

  /** `guardar`: one record per song, in `recorrer` order, from which `from_dict` rebuilds that song. */
  function Guardar(l: ListaReproduccion): (ds: seq<Record>)
    requires Valid(l)
    ensures |ds| == l.longitud
    ensures forall k | 0 <= k < |ds| :: ds[k].Keys == {"titulo", "url", "miniatura", "file_path"}
    ensures forall k | 0 <= k < |ds| :: FromDict(ds[k]) == Success(Tracks(l)[k])
  {
    Registros(Tracks(l))
  }

  /** Each saved record is exactly the `to_dict` record of its song. */
  lemma GuardarEsToDict(l: ListaReproduccion)
    requires Valid(l)
    ensures forall k | 0 <= k < |Guardar(l)| :: Guardar(l)[k] == ToDict(Tracks(l)[k])
  {
  }

  /** A stored path survives loading: it is null or empty, or the file exists. */
  predicate RutaVigente(v: Value, existentes: set<string>) {
    !Truthy(v) || v.s in existentes
  }

  /** The load-time check of `cargar`: a `file_path` naming a missing file becomes null. */
  function Sanear(d: Record, existentes: set<string>): (r: Record)
    ensures r.Keys == d.Keys
    ensures forall k | k in d && k != "file_path" :: r[k] == d[k]
    ensures "file_path" in d ==>
      r["file_path"] == if RutaVigente(d["file_path"], existentes) then d["file_path"] else Null
  {
    if "file_path" in d && Truthy(d["file_path"]) && d["file_path"].s !in existentes then
      d["file_path" := Null]
    else
      d
  }

  /** The same check on a song. */
  function SanarCancion(c: Cancion, existentes: set<string>): (r: Cancion)
    ensures r.titulo == c.titulo && r.url == c.url && r.miniatura == c.miniatura
    ensures RutaVigente(c.filePath, existentes) ==> r == c
    ensures !RutaVigente(c.filePath, existentes) ==> r.filePath == Null
  {
    if Truthy(c.filePath) && c.filePath.s !in existentes then c.(filePath := Null) else c
  }

  /** A record `from_dict` accepts: the three required keys are present. */
  predicate Completo(d: Record) {
    "titulo" in d && "url" in d && "miniatura" in d
  }

  /** The number of leading records that `from_dict` accepts. */
  function Prefijo(ds: seq<Record>): (p: nat)
    ensures p <= |ds|
    ensures forall k | 0 <= k < p :: Completo(ds[k])
    ensures p < |ds| ==> !Completo(ds[p])
  {
    if |ds| == 0 || !Completo(ds[0]) then 0 else 1 + Prefijo(ds[1..])
  }

  /** The song a complete record loads as. */
  function Decodificar(d: Record, existentes: set<string>): (c: Cancion)
    requires Completo(d)
  {
    FromDict(Sanear(d, existentes)).value
  }

  /**
   * The loop of `cargar`: each record is checked, converted with `from_dict` and
   * appended with `agregar`; a record without a required key raises `KeyError`,
   * which stops the loop and leaves the songs appended so far.
   */
  function AgregarRegistros(l: ListaReproduccion, ds: seq<Record>, existentes: set<string>): (r: Carga)
    requires Valid(l)
    ensures Valid(r.lista)
    ensures r.lista.longitud == l.longitud + Prefijo(ds)
    decreases |ds|
  {
    if |ds| == 0 then Carga(l, None)
    else
      match FromDict(Sanear(ds[0], existentes))
      case Failure(e) => Carga(l, Some(e))
      case Success(c) =>
        AgregarAppends(l, c);
        AgregarRegistros(Agregar(l, c).0, ds[1..], existentes)
  }

  /**
   * `cargar`: nothing happens when the playlist file does not exist; otherwise
   * the list is emptied and the stored records are appended.
   */
  function Cargar(l: ListaReproduccion, archivo: Option<seq<Record>>, existentes: set<string>): (r: Carga)
    requires Valid(l)
    ensures Valid(r.lista)
    ensures archivo.None? ==> r == Carga(l, None)
    ensures archivo.Some? ==> r.lista.longitud == Prefijo(archivo.value)
  {
    match archivo
    case None => Carga(l, None)
    case Some(ds) => AgregarRegistros(Vaciar(l), ds, existentes)
  }

  /** The songs loaded from `ds`: the accepted leading records, checked and converted. */
  function Cargadas(ds: seq<Record>, existentes: set<string>): (cs: seq<Cancion>)
    ensures |cs| == Prefijo(ds)
  {
    var p := Prefijo(ds);
    seq(p, k requires 0 <= k < p => Decodificar(ds[k], existentes))
  }

  /** An accepted first record is loaded, and loading goes on with the rest. */
  lemma AgregarRegistrosPaso(l: ListaReproduccion, ds: seq<Record>, existentes: set<string>)
    requires Valid(l) && 0 < |ds| && Completo(ds[0])
    ensures Valid(Agregar(l, Decodificar(ds[0], existentes)).0)
    ensures AgregarRegistros(l, ds, existentes)
      == AgregarRegistros(Agregar(l, Decodificar(ds[0], existentes)).0, ds[1..], existentes)
  {
    AgregarAppends(l, Decodificar(ds[0], existentes));
  }

  /** The songs of `ds` are the first record's song followed by those of the rest. */
  lemma CargadasPaso(ds: seq<Record>, existentes: set<string>)
    requires 0 < |ds| && Completo(ds[0])
    ensures Cargadas(ds, existentes) == [Decodificar(ds[0], existentes)] + Cargadas(ds[1..], existentes)
  {
    var tail := Cargadas(ds[1..], existentes);
    forall k | 0 < k < Prefijo(ds)
      ensures Cargadas(ds, existentes)[k] == tail[k - 1]
    {
      assert ds[1..][k - 1] == ds[k];
    }
  }

  lemma Reassociate<T>(a: seq<T>, c: T, b: seq<T>)
    ensures (a + [c]) + b == a + ([c] + b)
  {
  }

  /** The records are appended after the songs already in the list, in stored order. */
  lemma {:induction false} AgregarRegistrosTracks(l: ListaReproduccion, ds: seq<Record>, existentes: set<string>)
    requires Valid(l)
    ensures Tracks(AgregarRegistros(l, ds, existentes).lista) == Tracks(l) + Cargadas(ds, existentes)
    decreases |ds|
  {
    if |ds| > 0 && Completo(ds[0]) {
      var c := Decodificar(ds[0], existentes);
      var l' := Agregar(l, c).0;
      AgregarRegistrosPaso(l, ds, existentes);
      AgregarAppends(l, c);
      AgregarRegistrosTracks(l', ds[1..], existentes);
      CargadasPaso(ds, existentes);
      Reassociate(Tracks(l), c, Cargadas(ds[1..], existentes));
    } else if |ds| > 0 {
      assert Cargadas(ds, existentes) == [];
    }
  }

  /** Loading stops with the `KeyError` of the first rejected record, and with none if all are accepted. */
  lemma {:induction false} AgregarRegistrosError(l: ListaReproduccion, ds: seq<Record>, existentes: set<string>)
    requires Valid(l)
    ensures var p := Prefijo(ds);
      AgregarRegistros(l, ds, existentes).error == if p == |ds| then None else Some(FromDict(ds[p]).error)
    decreases |ds|
  {
    if |ds| > 0 && Completo(ds[0]) {
      var rest := ds[1..];
      AgregarRegistrosPaso(l, ds, existentes);
      AgregarRegistrosError(Agregar(l, Decodificar(ds[0], existentes)).0, rest, existentes);
      PrefijoPaso(ds);
    }
  }

  /** An accepted first record adds one to the prefix, and the first rejected record is the same one. */
  lemma PrefijoPaso(ds: seq<Record>)
    requires 0 < |ds| && Completo(ds[0])
    ensures Prefijo(ds) == Prefijo(ds[1..]) + 1
    ensures Prefijo(ds[1..]) < |ds[1..]| ==> ds[1..][Prefijo(ds[1..])] == ds[Prefijo(ds)]
  {
  }

  /** When every record is accepted, all of them are loaded. */
  lemma {:induction false} PrefijoCompleto(ds: seq<Record>)
    requires forall k | 0 <= k < |ds| :: Completo(ds[k])
    ensures Prefijo(ds) == |ds|
    decreases |ds|
  {
    if |ds| > 0 {
      assert forall k | 0 <= k < |ds| - 1 :: ds[1..][k] == ds[k + 1];
      PrefijoCompleto(ds[1..]);
    }
  }

  /**
   * `cargar`: with no playlist file the list is untouched; otherwise the list
   * holds exactly the songs of the accepted leading records, in stored order and
   * with missing paths reset, `PTR` is the first of them (none if there are
   * none), and the error is the `KeyError` of the first rejected record.
   */
  lemma CargarEfecto(l: ListaReproduccion, archivo: Option<seq<Record>>, existentes: set<string>)
    requires Valid(l)
    ensures archivo.None? ==> Cargar(l, archivo, existentes) == Carga(l, None)
    ensures Valid(Cargar(l, archivo, existentes).lista)
    ensures archivo.Some? ==>
      var r := Cargar(l, archivo, existentes);
      var ds := archivo.value;
      var p := Prefijo(ds);
      && Tracks(r.lista) == Cargadas(ds, existentes)
      && r.lista.longitud == p
      && (r.lista.ptr.None? <==> p == 0)
      && r.error == (if p == |ds| then None else Some(FromDict(ds[p]).error))
  {
    if archivo.Some? {
      var r := Cargar(l, archivo, existentes);
      AgregarRegistrosTracks(Vaciar(l), archivo.value, existentes);
      AgregarRegistrosError(Vaciar(l), archivo.value, existentes);
      CursorInvariant(r.lista);
    }
  }

  /** A saved song, checked and converted back, is the song with a missing path reset. */
  lemma GuardadaCargada(c: Cancion, existentes: set<string>)
    ensures Completo(ToDict(c))
    ensures Decodificar(ToDict(c), existentes) == SanarCancion(c, existentes)
  {
  }

  /**
   * Saving a list and loading the file into any list gives the same songs in the
   * same order, with no error; only `file_path`s naming missing files change,
   * to null.
   */
  lemma GuardarCargar(l: ListaReproduccion, l0: ListaReproduccion, existentes: set<string>)
    requires Valid(l) && Valid(l0)
    ensures var r := Cargar(l0, Some(Guardar(l)), existentes);
      && r.error.None?
      && r.lista.longitud == l.longitud
      && |Tracks(r.lista)| == |Tracks(l)|
      && forall k | 0 <= k < |Tracks(l)| :: Tracks(r.lista)[k] == SanarCancion(Tracks(l)[k], existentes)
  {
    var ds := Guardar(l);
    var ts := Tracks(l);
    forall k | 0 <= k < |ds|
      ensures Completo(ds[k]) && Decodificar(ds[k], existentes) == SanarCancion(ts[k], existentes)
    {
      assert ds[k] == ToDict(ts[k]);
      GuardadaCargada(ts[k], existentes);
    }
    PrefijoCompleto(ds);
    CargarEfecto(l0, Some(ds), existentes);
  }

  /** When every saved path still exists, saving and loading reproduces the songs exactly. */
  lemma GuardarCargarIntacto(l: ListaReproduccion, l0: ListaReproduccion, existentes: set<string>)
    requires Valid(l) && Valid(l0)
    requires forall k | 0 <= k < |Tracks(l)| :: RutaVigente(Tracks(l)[k].filePath, existentes)
    ensures Cargar(l0, Some(Guardar(l)), existentes).error.None?
    ensures Tracks(Cargar(l0, Some(Guardar(l)), existentes).lista) == Tracks(l)
  {
    GuardarCargar(l, l0, existentes);
  }
}
