/** The backup file: export writes every collection and the photos the
    museum, journal and messages refer to; import replaces the collections
    and writes the photos back. The file is JSON; the model works on the
    parsed document, with `JSON.parse` failure as None. The data-URL codec
    (`FileReader.readAsDataURL` and `fetch(dataUrl).blob()`) is a pair of
    parameters, `encode` and `decode`. */
module Backup {
  import opened Wrappers
  import opened Text
  import opened Records
  import opened Seqs
  import Photos

  /** Format version written into every export. */
  const Version: int := 1

  /** A photo in the backup file; an imported one may lack any field. */
  datatype PhotoDoc = PhotoDoc(id: Option<string>, mime: Option<string>, createdAt: Option<string>, dataUrl: Option<string>)

  /** The backup document; every top-level field is optional on import. */
  datatype Snapshot = Snapshot(
    version: Option<int>,
    exportedAt: Option<string>,
    settings: Option<Settings>,
    jar: Option<seq<JarNote>>,
    museum: Option<seq<Entry>>,
    journal: Option<seq<Entry>>,
    messages: Option<seq<Message>>,
    photos: Option<seq<PhotoDoc>>)

  ghost predicate NoDup<T>(xs: seq<T>) {
    forall i, j :: 0 <= i < j < |xs| ==> xs[i] != xs[j]
  }

  /** The photo lists of a collection, concatenated in collection order. */
  function Flatten<T>(xs: seq<T>, photosOf: T -> seq<string>): (r: seq<string>)
    ensures forall x, id | x in xs && id in photosOf(x) :: id in r
    ensures forall id | id in r :: exists x | x in xs :: id in photosOf(x)
  {
    if |xs| == 0 then []
    else photosOf(xs[0]) + Flatten(xs[1..], photosOf)
  }

  /** Adding ids to a JavaScript `Set` and iterating it: each id once, in
      the order of its first occurrence. */
  function Dedup(xs: seq<string>): (r: seq<string>)
    ensures forall x | x in xs :: x in r
    ensures forall x | x in r :: x in xs
    ensures NoDup(r)
  {
    if |xs| == 0 then []
    else if xs[|xs| - 1] in xs[..|xs| - 1] then Dedup(xs[..|xs| - 1])
    else Dedup(xs[..|xs| - 1]) + [xs[|xs| - 1]]
  }

  /** Every photo id referenced by a museum entry, then a journal entry,
      then a message; jar notes carry no photos. */
  function AllRefs(st: State): seq<string> {
    Flatten(st.museum, EntryPhotos) + Flatten(st.journal, EntryPhotos) + Flatten(st.messages, MessagePhotos)
  }

  /** The ids export collects: each referenced id exactly once. */
  function ReferencedIds(st: State): (r: seq<string>)
    ensures NoDup(r)
    ensures forall e, id | e in st.museum && id in EntryPhotos(e) :: id in r
    ensures forall e, id | e in st.journal && id in EntryPhotos(e) :: id in r
    ensures forall m, id | m in st.messages && id in MessagePhotos(m) :: id in r
    ensures forall id | id in r ::
      (exists e | e in st.museum :: id in EntryPhotos(e)) ||
      (exists e | e in st.journal :: id in EntryPhotos(e)) ||
      (exists m | m in st.messages :: id in MessagePhotos(m))
  {
    Dedup(AllRefs(st))
  }

  /** The document written for one stored photo: an empty MIME type reads
      as JPEG and an empty timestamp as the export time. */
  function DocOf(p: Photo, encode: Blob -> string, now: string): (d: PhotoDoc)
    ensures d.id == Some(p.id) && d.dataUrl == Some(encode(p.blob))
    ensures p.mime != "" ==> d.mime == Some(p.mime)
    ensures p.mime == "" ==> d.mime == Some(DefaultMime)
    ensures p.createdAt != "" ==> d.createdAt == Some(p.createdAt)
    ensures p.createdAt == "" ==> d.createdAt == Some(now)
  {
    PhotoDoc(Some(p.id), Some(Or(Some(p.mime), DefaultMime)), Some(Or(Some(p.createdAt), now)), Some(encode(p.blob)))
  }

  /** The export loop over the collected ids: a missing photo is skipped. */
  function ExportPhotos(store: PhotoStore, ids: seq<string>, encode: Blob -> string, now: string): (r: seq<PhotoDoc>)
    ensures |r| <= |ids|
    ensures forall d | d in r :: exists id | id in ids && id in store :: d == DocOf(store[id], encode, now)
    ensures forall id | id in ids && id in store :: DocOf(store[id], encode, now) in r
  {
    if |ids| == 0 then []
    else
      var rest := ExportPhotos(store, ids[1..], encode, now);
      match Photos.Get(store, ids[0])
      case None => rest
      case Some(p) => [DocOf(p, encode, now)] + rest
  }

  /** The "export" button's document. */
  function Export(st: State, encode: Blob -> string, now: string): (s: Snapshot)
    ensures s.version == Some(Version) && s.exportedAt == Some(now)
    ensures s.settings == Some(st.settings) && s.jar == Some(st.jar) && s.museum == Some(st.museum)
    ensures s.journal == Some(st.journal) && s.messages == Some(st.messages)
    ensures s.photos.Some?
    ensures forall d | d in s.photos.value :: exists id | id in ReferencedIds(st) && id in st.photos ::
      d == DocOf(st.photos[id], encode, now)
    ensures forall id | id in ReferencedIds(st) && id in st.photos :: DocOf(st.photos[id], encode, now) in s.photos.value
  {
    Snapshot(Some(Version), Some(now), Some(st.settings), Some(st.jar), Some(st.museum), Some(st.journal),
             Some(st.messages), Some(ExportPhotos(st.photos, ReferencedIds(st), encode, now)))
  }

  /** With the store keyed by id, the export lists each photo once. */
  lemma {:induction false} ExportListsEachPhotoOnce(store: PhotoStore, ids: seq<string>, encode: Blob -> string, now: string)
    requires KeyedById(store) && NoDup(ids)
    ensures NoDup(ExportPhotos(store, ids, encode, now))
    ensures forall d | d in ExportPhotos(store, ids, encode, now) :: d.id.Some? && d.id.value in ids
  {
    if |ids| > 0 {
      ExportListsEachPhotoOnce(store, ids[1..], encode, now);
      var rest := ExportPhotos(store, ids[1..], encode, now);
      if ids[0] in store {
        var d := DocOf(store[ids[0]], encode, now);
        assert d.id == Some(ids[0]);
        assert forall i | 1 <= i < |ids| :: ids[i] != ids[0];
        assert d !in rest;
      }
    }
  }

  /** An imported photo document is used only when both its id and its data
      URL are present and non-empty. */
  predicate Usable(d: PhotoDoc) {
    Or(d.id, "") != "" && Or(d.dataUrl, "") != ""
  }

  /** The photo written for a usable document whose data decoded to `blob`. */
  function Restored(d: PhotoDoc, blob: Blob, now: string): (p: Photo)
    requires Usable(d)
    ensures p.id == d.id.value && p.blob == blob
    ensures p.mime == Or(d.mime, DefaultMime) && p.mime != ""
    ensures p.createdAt == Or(d.createdAt, now) && (now != "" ==> p.createdAt != "")
  {
    Photo(d.id.value, blob, Or(d.mime, DefaultMime), Or(d.createdAt, now))
  }

  /** Some usable document of `docs` carries the id `k`. */
  ghost predicate Names(docs: seq<PhotoDoc>, k: string) {
    exists d | d in docs :: Usable(d) && d.id == Some(k)
  }

  /** No two usable documents carry the same id. */
  ghost predicate DistinctIds(docs: seq<PhotoDoc>) {
    forall i, j :: 0 <= i < j < |docs| && Usable(docs[i]) && Usable(docs[j]) ==> docs[i].id != docs[j].id
  }

  /** Every usable document's data URL decodes. */
  ghost predicate AllDecode(docs: seq<PhotoDoc>, decode: string -> Option<Blob>) {
    forall d | d in docs && Usable(d) :: decode(d.dataUrl.value).Some?
  }

  /** The import loop over the photo documents. Unusable documents are
      skipped; a data URL that fails to decode throws, which ends the loop
      and leaves the photos written so far in place. */
  function ImportPhotos(store: PhotoStore, docs: seq<PhotoDoc>, decode: string -> Option<Blob>, now: string): (r: PhotoStore)
    ensures forall k | k in store :: k in r
    ensures forall k | k in r && k !in store :: Names(docs, k)
    ensures forall k | k in store && !Names(docs, k) :: r[k] == store[k]
    ensures KeyedById(store) ==> KeyedById(r)
    ensures AllDecode(docs, decode) ==> forall d | d in docs && Usable(d) :: d.id.value in r
    decreases |docs|
  {
    if |docs| == 0 then store
    else if !Usable(docs[0]) then ImportPhotos(store, docs[1..], decode, now)
    else match decode(docs[0].dataUrl.value)
      case None => store
      case Some(blob) => ImportPhotos(Photos.Put(store, Restored(docs[0], blob, now)), docs[1..], decode, now)
  }

  /** A photo that fails to decode ends the import: the result is what the
      documents before it produced, whatever follows. */
  lemma {:induction false} ImportStopsAtBadPhoto(store: PhotoStore, docs: seq<PhotoDoc>, i: nat,
                                                 decode: string -> Option<Blob>, now: string)
    requires i < |docs| && Usable(docs[i]) && decode(docs[i].dataUrl.value).None?
    ensures ImportPhotos(store, docs, decode, now) == ImportPhotos(store, docs[..i], decode, now)
    decreases i
  {
    if i == 0 {
      assert docs[..0] == [];
    } else {
      assert docs[..i][1..] == docs[1..][..i - 1];
      if Usable(docs[0]) && decode(docs[0].dataUrl.value).Some? {
        var blob := decode(docs[0].dataUrl.value).value;
        ImportStopsAtBadPhoto(Photos.Put(store, Restored(docs[0], blob, now)), docs[1..], i - 1, decode, now);
      } else if !Usable(docs[0]) {
        ImportStopsAtBadPhoto(store, docs[1..], i - 1, decode, now);
      }
    }
  }

  /** Unusable documents change nothing, wherever they stand: the import
      behaves as if only the usable documents were in the file. */
  lemma {:induction false} ImportSkipsUnusable(store: PhotoStore, docs: seq<PhotoDoc>, decode: string -> Option<Blob>, now: string)
    ensures ImportPhotos(store, docs, decode, now) == ImportPhotos(store, Filter(docs, Usable), decode, now)
    decreases |docs|
  {
    if |docs| > 0 {
      if Usable(docs[0]) {
        assert Filter(docs, Usable) == [docs[0]] + Filter(docs[1..], Usable);
        match decode(docs[0].dataUrl.value)
        case None =>
        case Some(blob) =>
          ImportSkipsUnusable(Photos.Put(store, Restored(docs[0], blob, now)), docs[1..], decode, now);
      } else {
        ImportSkipsUnusable(store, docs[1..], decode, now);
      }
    }
  }

  /** When every usable document decodes and no two share an id, each one's
      photo is stored under its id: the decoded blob, its MIME type or JPEG,
      its timestamp or the import time. */
  lemma {:induction false} ImportWritesEachDocument(store: PhotoStore, docs: seq<PhotoDoc>, decode: string -> Option<Blob>, now: string)
    requires AllDecode(docs, decode) && DistinctIds(docs)
    ensures forall d | d in docs && Usable(d) ::
      d.id.value in ImportPhotos(store, docs, decode, now) &&
      ImportPhotos(store, docs, decode, now)[d.id.value] == Restored(d, decode(d.dataUrl.value).value, now)
    decreases |docs|
  {
    if |docs| > 0 {
      var rest := docs[1..];
      assert AllDecode(rest, decode);
      assert DistinctIds(rest) by {
        forall i, j | 0 <= i < j < |rest| && Usable(rest[i]) && Usable(rest[j]) ensures rest[i].id != rest[j].id {
          assert rest[i] == docs[i + 1] && rest[j] == docs[j + 1];
        }
      }
      if Usable(docs[0]) {
        assert docs[0] in docs;
        var p := Restored(docs[0], decode(docs[0].dataUrl.value).value, now);
        var next := Photos.Put(store, p);
        ImportWritesEachDocument(next, rest, decode, now);
        assert !Names(rest, p.id) by {
          forall d | d in rest && Usable(d) ensures d.id != Some(p.id) {
            var j :| 0 <= j < |rest| && rest[j] == d;
            assert docs[j + 1] == d;
          }
        }
      } else {
        ImportWritesEachDocument(store, rest, decode, now);
      }
    }
  }

  /** The photos of `store` that `ids` lists, keyed by id. */
  function Selected(store: PhotoStore, ids: seq<string>): (m: PhotoStore)
    ensures m.Keys == set id | id in ids && id in store
    ensures forall k | k in m :: m[k] == store[k]
  {
    map id | id in ids && id in store :: store[id]
  }

  /** A photo the app wrote: a non-empty id that is its key, a MIME type and a timestamp. */
  ghost predicate WellFormed(store: PhotoStore) {
    forall k | k in store :: store[k].id == k && k != "" && store[k].mime != "" && store[k].createdAt != ""
  }

  /** The data-URL codec round-trips and never yields an empty URL. */
  ghost predicate Faithful(encode: Blob -> string, decode: string -> Option<Blob>) {
    forall b :: encode(b) != "" && decode(encode(b)) == Some(b)
  }

  /** One exported photo, imported again, is the photo itself. */
  lemma RestoreExportedPhoto(p: Photo, encode: Blob -> string, decode: string -> Option<Blob>,
                             exportNow: string, importNow: string)
    requires p.id != "" && p.mime != "" && p.createdAt != "" && Faithful(encode, decode)
    ensures Usable(DocOf(p, encode, exportNow))
    ensures decode(DocOf(p, encode, exportNow).dataUrl.value) == Some(p.blob)
    ensures Restored(DocOf(p, encode, exportNow), p.blob, importNow) == p
  {
    assert encode(p.blob) != "" && decode(encode(p.blob)) == Some(p.blob);
  }

  /** Writing the first selected photo, then the rest, is writing all of them. */
  lemma SelectedStep(target: PhotoStore, store: PhotoStore, ids: seq<string>)
    requires |ids| > 0 && ids[0] in store
    ensures target[ids[0] := store[ids[0]]] + Selected(store, ids[1..]) == target + Selected(store, ids)
  {
  }

  /** Importing exported photo documents writes exactly the exported photos
      back, over whatever the target store held under those ids. */
  lemma {:induction false} ImportExportedPhotos(target: PhotoStore, store: PhotoStore, ids: seq<string>,
                                                encode: Blob -> string, decode: string -> Option<Blob>,
                                                exportNow: string, importNow: string)
    requires WellFormed(store) && Faithful(encode, decode)
    ensures ImportPhotos(target, ExportPhotos(store, ids, encode, exportNow), decode, importNow)
            == target + Selected(store, ids)
    decreases |ids|
  {
    if |ids| == 0 {
      assert target + Selected(store, ids) == target;
    } else if ids[0] !in store {
      ImportExportedPhotos(target, store, ids[1..], encode, decode, exportNow, importNow);
      assert Selected(store, ids) == Selected(store, ids[1..]);
    } else {
      var p := store[ids[0]];
      var rest := ExportPhotos(store, ids[1..], encode, exportNow);
      assert ExportPhotos(store, ids, encode, exportNow) == [DocOf(p, encode, exportNow)] + rest;
      RestoreExportedPhoto(p, encode, decode, exportNow, importNow);
      ImportExportedPhotos(Photos.Put(target, p), store, ids[1..], encode, decode, exportNow, importNow);
      SelectedStep(target, store, ids);
    }
  }

  /** `data.photos || []`. */
  function PhotoDocs(s: Snapshot): seq<PhotoDoc> {
    if s.photos.Some? then s.photos.value else []
  }

  /** The "import" handler. A file that does not parse changes nothing.
      Otherwise each collection is taken from the file or, when absent, from
      the built-in defaults (messages: empty), and then the photos are
      written back. */
  function Import(st: State, data: Option<Snapshot>, decode: string -> Option<Blob>, defaults: Defaults, now: string): (r: State)
    ensures data.None? ==> r == st
    ensures data.Some? ==>
      && r.settings == (if data.value.settings.Some? then data.value.settings.value else defaults.settings)
      && r.jar == (if data.value.jar.Some? then data.value.jar.value else defaults.jar)
      && r.museum == (if data.value.museum.Some? then data.value.museum.value else defaults.museum)
      && r.journal == (if data.value.journal.Some? then data.value.journal.value else defaults.journal)
      && r.messages == (if data.value.messages.Some? then data.value.messages.value else [])
    ensures data.Some? && data.value.photos.None? ==> r.photos == st.photos
    ensures data.Some? ==> r.photos == ImportPhotos(st.photos, PhotoDocs(data.value), decode, now)
    ensures data.Some? ==> forall k | k in st.photos :: k in r.photos
    ensures data.Some? ==> forall k | k in st.photos && !Names(PhotoDocs(data.value), k) :: r.photos[k] == st.photos[k]
  {
    match data
    case None => st
    case Some(s) =>
      var docs := PhotoDocs(s);
      State(
        if s.settings.Some? then s.settings.value else defaults.settings,
        if s.jar.Some? then s.jar.value else defaults.jar,
        if s.museum.Some? then s.museum.value else defaults.museum,
        if s.journal.Some? then s.journal.value else defaults.journal,
        if s.messages.Some? then s.messages.value else [],
        ImportPhotos(st.photos, docs, decode, now))
  }

  /** Exporting one state and importing the file into another restores every
      collection, and every referenced photo over the target's own. */
  lemma ExportThenImportRestores(st: State, target: State, encode: Blob -> string, decode: string -> Option<Blob>,
                                 defaults: Defaults, exportNow: string, importNow: string)
    requires WellFormed(st.photos) && Faithful(encode, decode)
    ensures Import(target, Some(Export(st, encode, exportNow)), decode, defaults, importNow)
            == st.(photos := target.photos + Selected(st.photos, ReferencedIds(st)))
  {
    ImportExportedPhotos(target.photos, st.photos, ReferencedIds(st), encode, decode, exportNow, importNow);
  }

  /** Writing a store's own photos back over it changes nothing. */
  lemma SelectedIsNoOp(store: PhotoStore, ids: seq<string>)
    ensures store + Selected(store, ids) == store
  {
  }

  /** Importing a state's own export leaves it as it was. */
  lemma ImportOwnExportIsNoOp(st: State, encode: Blob -> string, decode: string -> Option<Blob>,
                              defaults: Defaults, exportNow: string, importNow: string)
    requires WellFormed(st.photos) && Faithful(encode, decode)
    ensures Import(st, Some(Export(st, encode, exportNow)), decode, defaults, importNow) == st
  {
    ExportThenImportRestores(st, st, encode, decode, defaults, exportNow, importNow);
    SelectedIsNoOp(st.photos, ReferencedIds(st));
  }

  /** A file without settings restores the built-in settings, not the
      settings in use before the import. */
  lemma MissingSettingsReadAsBuiltIn(st: State, s: Snapshot, decode: string -> Option<Blob>, defaults: Defaults, now: string)
    requires s.settings.None? && defaults.settings.title == Some(DefaultTitle)
    ensures Import(st, Some(s), decode, defaults, now).settings == defaults.settings
    ensures Import(st, Some(s), decode, defaults, now).settings.title == Some(DefaultTitle)
  {
  }
}
