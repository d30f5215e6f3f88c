/**
 * The song node's payload (`NodoCancion` in main.py) and its conversion to and
 * from the key-value record that is stored in the playlist file.
 */
module Records {
  import opened Wrappers

  /** A stored field value: JSON `null` or a string. */
  datatype Value = Null | Str(s: string)

  /** One stored playlist entry: a JSON object. */
  type Record = map<string, Value>

  /** The four fields a song node carries; the ring links live in the playlist. */
  datatype Cancion = Cancion(titulo: Value, url: Value, miniatura: Value, filePath: Value)

  /** Raised when a record lacks a key that `from_dict` reads with `data[key]`. */
  datatype KeyError = KeyError(key: string)

  /** Python truthiness of a stored value: only a non-empty string is true. */
  predicate Truthy(v: Value) {
    v.Str? && |v.s| > 0
  }

  /** `to_dict`: the four fields under their stored keys; `file_path` is written even when null. */
  function ToDict(c: Cancion): (d: Record)
    ensures d.Keys == {"titulo", "url", "miniatura", "file_path"}
  {
    map["titulo" := c.titulo, "url" := c.url, "miniatura" := c.miniatura, "file_path" := c.filePath]
  }

  /**
   * `from_dict`: `titulo`, `url` and `miniatura` are required and read in that
   * order, so the first missing one is the key reported; `file_path` is read with
   * `get` and defaults to null.
   */
  function FromDict(d: Record): (r: Result<Cancion, KeyError>)
    ensures r.Success? <==> "titulo" in d && "url" in d && "miniatura" in d
    ensures r.Failure? ==> r.error.key !in d
    ensures r.Success? ==> ToDict(r.value) == d["file_path" := if "file_path" in d then d["file_path"] else Null] - (d.Keys - {"titulo", "url", "miniatura", "file_path"})
  {
    if "titulo" !in d then Failure(KeyError("titulo"))
    else if "url" !in d then Failure(KeyError("url"))
    else if "miniatura" !in d then Failure(KeyError("miniatura"))
    else Success(Cancion(d["titulo"], d["url"], d["miniatura"], if "file_path" in d then d["file_path"] else Null))
  }

  /** Converting a song to a record and back gives the same song. */
  lemma FromToDict(c: Cancion)
    ensures FromDict(ToDict(c)) == Success(c)
  {
  }
}
