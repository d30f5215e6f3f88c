# Playlist ring of the YouTube music player, in Dafny

The player in `main.py` keeps its playlist as a circular doubly-linked list
(`ListaReproduccion`) of song nodes (`NodoCancion`). `PTR` is the current song
and `longitud` the song count. It saves the playlist to a JSON file as a list of
records and loads it back at start-up. The playlist window can move a song one
place up or down by rewiring links. The download step derives a file name from
the song title.

This project models that core:

- **Songs.** `Records` holds the song fields and the record conversion
  (`to_dict`, `from_dict`).
- **The ring.** In `Ring`, nodes live in an arena. Each node has a handle
  (`NodeId`), and the `siguiente`/`anterior` references become maps from handle
  to handle. `LinkedAs(l, s)` says that the arena is exactly the ring that visits
  the handles of `s` in order, starting at `PTR`. `Valid(l)` says the arena is
  the ring that `recorrer` reads off. Every playlist operation performs the
  source's link assignments in the source's order, as successive map updates.
- **Reference operations.** `Sequences` defines append, remove-at, rotate and
  swap-adjacent on plain sequences. `Links` proves how each kind of rewiring
  acts on the link maps.
- **Operations.** `Operations` covers `agregar`, `eliminar`, `siguiente`,
  `anterior` and `vaciar`. Each is proved to act on the `recorrer` sequence
  exactly as the matching reference operation does.
- **Moves.** `Reorder` covers `mover_arriba` and `mover_abajo`, which are
  proved to swap adjacent songs.
- **Saving and loading.** `Persistence` works at the level of record lists.
  Two parameters stand in for the file system: whether the playlist file exists
  (and which records it holds), and the set of audio paths that exist.
- **File names.** `Sanitize` covers the safe file name used for downloads.

## Model

| member | source | states |
|---|---|---|
| Records.ToDict | main.py:31-37 | the record has exactly the keys `titulo`, `url`, `miniatura` and `file_path`; `file_path` is written even when it is null |
| Records.FromDict | main.py:39-46 | loading succeeds exactly when `titulo`, `url` and `miniatura` are all present; otherwise the `KeyError` names a key the record lacks; on success, saving the song gives back the record restricted to the four keys, with `file_path` defaulting to null |
| Records.FromToDict | main.py:31-46 | converting a song to a record and back gives the same song |
| Ring.Nueva | main.py:49-51 | a new playlist is a valid, empty ring: no current song, a count of zero, and `recorrer` returns nothing |
| Ring.Recorrer | main.py:95-102 | `recorrer` returns at most `longitud` nodes, at least one when there is a `PTR` and `longitud` is positive, and exactly `longitud` on a valid list (`Ring.RecorrerShape`); with no `PTR` it returns none; the node at position `j` is the one reached from `PTR` by following `siguiente` `j` times |
| Ring.LinkedAsRecorrer | main.py:95-102 | an arena that is the ring `s` is a valid playlist, and `recorrer` returns exactly `s` |
| Ring.RecorrerShape | main.py:95-102 | `recorrer` returns `longitud` songs; it returns none when there is no `PTR`; otherwise it starts at `PTR`, and each song is the `siguiente` of the one before |
| Ring.CursorInvariant | main.py:49-64 | in a valid playlist `longitud == 0` exactly when `PTR` is None; `PTR` is a live node; every live node has both links; a single song is its own `siguiente` and `anterior` |
| Ring.RingIntegrity | main.py:53-62 | for every node, `siguiente.anterior` and `anterior.siguiente` are the node itself |
| Ring.FullTurn | main.py:53-62 | following `siguiente` `longitud` times from any song returns to that song |
| Operations.Agregar | main.py:53-64 | `agregar` stores the song under a fresh handle and counts one more song; on an empty list the new node becomes `PTR` and is its own `siguiente` and `anterior`; otherwise `PTR` stays, and the new node sits between the old last node (`PTR.anterior`) and `PTR`, linked both ways |
| Operations.AgregarAppends | main.py:53-64 | `agregar` keeps the playlist valid and appends the new node at the end of `recorrer` with the given song; the count grows by one; a non-empty list keeps its `PTR`; on an empty list the new node becomes `PTR`, linked to itself both ways |
| Operations.Eliminar | main.py:66-79 | `eliminar` on an empty list changes nothing; otherwise the count drops by one and the node leaves the arena; removing the only node when it is `PTR` clears `PTR`; otherwise `PTR` moves to the node's `siguiente` if it was the node, and the node's two neighbours are linked to each other |
| Operations.EliminarEmpty | main.py:66-68 | on an empty playlist `eliminar` changes nothing |
| Operations.EliminarRemoves | main.py:66-79 | `eliminar` of a song in the list keeps the playlist valid and removes exactly that song from `recorrer`, leaving the others in order; the count drops by one; removing the last song clears `PTR`; removing the current song moves `PTR` to its successor; otherwise `PTR` stays |
| Operations.EliminarLinked | main.py:70-77 | for a ring `s`, unlinking position `i` leaves the ring `s` without position `i` |
| Operations.Siguiente | main.py:87-89 | `siguiente` changes only `PTR`; with no `PTR` it does nothing; otherwise `PTR` moves one step along `siguiente`, to the node whose `anterior` is the old `PTR` |
| Operations.Anterior | main.py:91-93 | `anterior` changes only `PTR`; with no `PTR` it does nothing; otherwise `PTR` moves to the node whose `siguiente` is the old `PTR` |
| Operations.SiguienteRotates | main.py:87-89 | `siguiente` keeps the playlist valid and rotates `recorrer` left by one; on an empty list it does nothing; songs and count are unchanged |
| Operations.AnteriorRotates | main.py:91-93 | `anterior` keeps the playlist valid and rotates `recorrer` right by one; on an empty list it does nothing; songs and count are unchanged |
| Operations.SiguienteAnterior | main.py:87-93 | `anterior` undoes `siguiente` and `siguiente` undoes `anterior` |
| Operations.Vaciar | main.py:104-112 | after `vaciar` the playlist is valid and empty: no `PTR`, count zero, and `recorrer` returns nothing |
| Persistence.Guardar | main.py:114-116 | `guardar` writes one record per song, in `recorrer` order; each record has exactly the keys `titulo`, `url`, `miniatura` and `file_path`, and `from_dict` of it gives back that song |
| Persistence.GuardarEsToDict | main.py:114-116 | each saved record is exactly the `to_dict` record of the song at that position |
| Persistence.Cargar | main.py:118-127 | `cargar` always leaves a valid playlist; with no playlist file it changes nothing; otherwise the list holds one song per accepted leading record |
| Persistence.Sanear | main.py:125-126 | the load-time check keeps every key; it changes only `file_path`, which becomes null exactly when it names a path that does not exist |
| Persistence.SanarCancion | main.py:125-126 | the same check on a song: the other fields are kept, and a `file_path` naming a missing file becomes null |
| Persistence.Prefijo | main.py:124-127 | the records before the returned position all carry the three required keys; the record at that position, if there is one, does not |
| Persistence.AgregarRegistros | main.py:124-127 | appending the stored records keeps the playlist valid and adds one song per accepted leading record |
| Persistence.AgregarRegistrosTracks | main.py:124-127 | the loaded songs follow the songs already in the list, in stored order, each checked and converted |
| Persistence.AgregarRegistrosError | main.py:124-127 | loading stops with the `KeyError` of the first record that lacks a required key, and with no error when every record has all of them |
| Persistence.CargarEfecto | main.py:118-127 | with no playlist file, `cargar` leaves the list untouched; otherwise the list becomes exactly the songs of the accepted leading records, in stored order and with missing paths reset; `PTR` is the first of them, and the error is that of the first rejected record |
| Persistence.GuardadaCargada | main.py:31-46 | a saved song, checked and loaded, is the song with a missing path reset |
| Persistence.GuardarCargar | main.py:114-127 | saving a playlist and loading the file gives no error and the same number of songs in the same order; the only change is that a `file_path` naming a missing file becomes null |
| Persistence.GuardarCargarIntacto | main.py:114-127 | when every saved path still exists, saving and loading reproduces the songs exactly |
| Reorder.AdelantarLinked | main.py:418-428 | the six link assignments that `mover_arriba` and `mover_abajo` share turn the ring `s` into `s` with positions `j` and `j + 1` swapped; `PTR` moves to the new first song when the swap involves the first place |
| Reorder.Intercambiar | main.py:418-425 | when the pair and its outer neighbours `p` (before) and `q` (after) are distinct nodes, the six assignments turn `p x y q` into `p y x q`: `p` links forward to `y`, `y` to `x`, `x` to `q`, and back the other way; every other link is unchanged; on a ring of exactly two nodes they change nothing |
| Reorder.IntercambiarAnillo | main.py:418-425 | on a ring of three or more songs, the six assignments relink exactly the pair and its two outer neighbours |
| Reorder.IntercambiarPar | main.py:446-453 | on a ring of two songs, the six assignments leave every link unchanged |
| Reorder.MoverArriba | main.py:405-428 | `mover_arriba` fails exactly when the list has two or more songs and the node is not in it; a list of at most one song, or its first song, is left unchanged; on success the songs, the count and the handles are unchanged |
| Reorder.MoverAbajo | main.py:433-456 | `mover_abajo` fails exactly when the list has two or more songs and the node is not in it; a list of at most one song, or its last song, is left unchanged; on success the songs, the count and the handles are unchanged |
| Reorder.MoverArribaSinEfecto | main.py:405-413 | `mover_arriba` leaves a list of at most one song unchanged, and the first song too; a node not in the list is an error |
| Reorder.MoverArribaSwaps | main.py:405-428 | `mover_arriba` of any song but the first swaps it with the song before it in `recorrer`; it keeps the playlist valid, with the same songs, count and handles; `PTR` becomes the moved song exactly when it was second |
| Reorder.MoverAbajoSinEfecto | main.py:433-441 | `mover_abajo` leaves a list of at most one song unchanged, and the last song too; a node not in the list is an error |
| Reorder.MoverAbajoSwaps | main.py:433-456 | `mover_abajo` of any song but the last swaps it with the song after it; it keeps the playlist valid, with the same songs, count and handles; `PTR` becomes the following song exactly when the moved song was first |
| Reorder.MoverAbajoEsArriba | main.py:405-456 | moving the song at position `i` down is the same as moving the song at `i + 1` up |
| Reorder.MoverArribaIndice | main.py:405-428 | after `mover_arriba` the song sits one place nearer the front |
| Reorder.MoverAbajoIndice | main.py:433-456 | after `mover_abajo` the song sits one place nearer the back |
| Reorder.MoverArribaAbajo | main.py:405-456 | moving a song (other than the first) up and then down restores the playlist exactly |
| Reorder.MoverAbajoArriba | main.py:405-456 | moving a song (other than the last) down and then up restores the playlist exactly |
| Sanitize.Keep | main.py:137 | the filter keeps only letters, digits, spaces, `-` and `_`; every such character of the title survives; the result is no longer than the title |
| Sanitize.RStrip | main.py:137 | `rstrip` returns a prefix of its input that does not end in whitespace, and everything it cut off is whitespace |
| Sanitize.SafeTitle | main.py:137 | the safe title contains only kept characters and does not end in a space |
| Sanitize.SafeTitleStrips | main.py:137 | the safe title is the filtered title up to its last non-space character, and only spaces follow |
| Sanitize.KeepIdentity | main.py:137 | the filter leaves a string unchanged exactly when every character is kept |
| Sanitize.KeepConcat | main.py:137 | the filter works character by character, so it distributes over concatenation |
| Sanitize.KeepChar | main.py:137 | the filter keeps a single character if it is a letter, digit, space, `-` or `_` and drops it otherwise; it never replaces one. With `Sanitize.KeepConcat` this fixes the result on every title |
| Sanitize.RStripIdentity | main.py:137 | `rstrip` leaves a string unchanged exactly when it does not end in whitespace |
| Sanitize.SafeTitleIdempotent | main.py:137 | sanitising a safe title gives the same title |

## Left out

- The Flet user interface, the search and download through yt_dlp, and playback through ffpyplayer's `MediaPlayer` and duration probing through the `ffprobe` command are not modelled. These are UI and foreign calls. After a successful move, `mover_arriba` and `mover_abajo` also save the playlist with `guardar` and refresh the list view (main.py:430-431, 458-459). Neither step is part of `Reorder.MoverArriba` or `Reorder.MoverAbajo`. `Persistence.Guardar` models the save.
- The module-level player globals, the playback thread and the `eliminar_cancion` handler are not modelled. The handler is UI glue around `eliminar` and `guardar`.
- Deleting the audio file in `eliminar` and `vaciar` (main.py:81-85, 106-110) is not modelled, and neither is the error printed when deletion fails. These are file-system side effects that do not touch the ring.
- The JSON text of the playlist file is not modelled: encoding, `indent`, `ensure_ascii`, and decoding errors. The file is a list of records, and a record's values are null or strings. Other JSON kinds are not modelled.
- The set of existing paths is a parameter of `cargar`. In the source, `vaciar` first deletes the audio files of the songs being replaced. The parameter stands for the paths that exist after that deletion.
- `guardar` and `cargar` take the file's contents rather than a file name. The file system's state before and after is not modelled.
- The path handling around the safe title (`os.path.join`, the `.mp3` and `temp_` names) is not modelled.
- Operations.Agregar: the splice links are stated for a new handle that is neither `PTR` nor `PTR.anterior`. Every valid list meets this, since handles are never reused, and `Operations.AgregarAppends` states the full effect on a valid list.
- Operations.Eliminar: the node must be in the ring when the list is not empty. The source does not check this. For a foreign node it would splice that node's stale neighbours, which has no ring meaning.
- Ring.Recorrer: a dangling `siguiente` link ends the walk early, so on an arena that is not a valid list the result can be shorter than `longitud`. No valid list has such a link, and in main.py the walk would fail at `None.siguiente`.
- Reorder.MoverArriba: a valid ring is required. The same holds for `Reorder.MoverAbajo`, `Operations.SiguienteRotates` and `Operations.AnteriorRotates`. The source assumes the ring is intact. Every modelled operation is proved to keep a valid ring valid.
- Operations.Eliminar: the removed node leaves the arena. In the source it becomes unreachable garbage that still holds its links.
- Sanitize.Keep: `str.isalnum` is modelled on ASCII only (`Sanitize.IsAlnum`). Non-ASCII letters and digits such as `ó` or `ñ`, which Python keeps, are dropped by the model.
- Sanitize.SafeTitle: inherits the ASCII-only filter of `Sanitize.Keep`, and `str.isspace` is modelled on ASCII only. After the filter the only whitespace left is the space, so the second restriction changes nothing.
- Records.FromDict: the thumbnail is required, because `from_dict` reads `data["miniatura"]` (main.py:44); only `file_path` is read with `get`.
