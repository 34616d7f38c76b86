/** The photo object store (IndexedDB store "photos", keyPath "id") with the
    operations the app performs on it, and the pending-photo lists the entry
    modal and the message composer keep before a save. */
module Photos {
  import opened Wrappers
  import opened Records
  import opened Seqs

  /** `dbPutPhoto`: stores the photo under its id, replacing any photo with that id. */
  function Put(store: PhotoStore, p: Photo): (r: PhotoStore)
    ensures r.Keys == store.Keys + {p.id} && r[p.id] == p
    ensures forall k | k in store && k != p.id :: r[k] == store[k]
    ensures KeyedById(store) ==> KeyedById(r)
  {
    store[p.id := p]
  }

  /** `dbGetPhoto`: the photo, or None (the `null` of `req.result || null`) for an unknown id. */
  function Get(store: PhotoStore, id: string): (r: Option<Photo>)
    ensures r.Some? <==> id in store
    ensures r.Some? ==> r.value == store[id]
  {
    if id in store then Some(store[id]) else None
  }

  /** `dbDeletePhoto`: deleting an unknown id succeeds and changes nothing. */
  function Delete(store: PhotoStore, id: string): (r: PhotoStore)
    ensures r.Keys == store.Keys - {id}
    ensures forall k | k in r :: r[k] == store[k]
  {
    store - {id}
  }

  /** `for (const pid of ids) await dbDeletePhoto(pid)`: every listed photo is
      gone afterwards and every other photo is untouched. */
  function DeleteAll(store: PhotoStore, ids: seq<string>): (r: PhotoStore)
    ensures r.Keys == store.Keys - set i | i in ids
    ensures forall k | k in r :: r[k] == store[k]
    ensures KeyedById(store) ==> KeyedById(r)
  {
    if |ids| == 0 then store
    else DeleteAll(Delete(store, ids[0]), ids[1..])
  }

  /** What every reader does with a list of photo ids (thumbnails, the entry
      modal, export): look each one up and skip the missing ones. */
  function Resolve(store: PhotoStore, ids: seq<string>): (r: seq<Photo>)
    ensures |r| <= |ids|
    ensures forall p | p in r :: exists id | id in ids :: id in store && store[id] == p
    ensures forall id | id in ids && id in store :: store[id] in r
    ensures (forall id | id in ids :: id !in store) ==> r == []
  {
    if |ids| == 0 then []
    else
      var rest := Resolve(store, ids[1..]);
      match Get(store, ids[0])
      case None => rest
      case Some(p) => [p] + rest
  }

  /** The pending photos of the entry modal or message composer, and the store they live in. */
  datatype Pending = Pending(photoIds: seq<string>, photos: PhotoStore)

  /** How many files of a selection compress before the first one that
      cannot be decoded as an image (`None`): the attach loop stops there. */
  function Compressed(blobs: seq<Option<Blob>>): (n: nat)
    ensures n <= |blobs|
    ensures forall i | 0 <= i < n :: blobs[i].Some?
    ensures n < |blobs| ==> blobs[n].None?
  {
    if |blobs| == 0 || blobs[0].None? then 0 else 1 + Compressed(blobs[1..])
  }

  /** The file-input handler of the entry modal and of the composer. Each file
      is compressed (`None` when the image cannot be decoded), stored under a
      fresh id as a JPEG stamped with its creation time, and its id appended
      to the pending list. The first failing file ends the loop: the photos
      stored before it stay, the files after it are not read. */
  function Attach(pd: Pending, blobs: seq<Option<Blob>>, ids: seq<string>, stamps: seq<string>): (r: Pending)
    requires |ids| == |blobs| == |stamps|
    requires forall i, j :: 0 <= i < j < |ids| ==> ids[i] != ids[j]
    requires forall i :: 0 <= i < |ids| ==> ids[i] !in pd.photos
    ensures r.photoIds == pd.photoIds + ids[..Compressed(blobs)]
    ensures forall k | k in r.photos :: k in pd.photos || k in ids[..Compressed(blobs)]
    ensures forall k | k in pd.photos :: k in r.photos && r.photos[k] == pd.photos[k]
    ensures forall i | 0 <= i < Compressed(blobs) ::
      ids[i] in r.photos && r.photos[ids[i]] == Photo(ids[i], blobs[i].value, DefaultMime, stamps[i])
    decreases |blobs|
  {
    if |blobs| == 0 || blobs[0].None? then
      assert ids[..0] == [];
      pd
    else
      var next := Pending(pd.photoIds + [ids[0]], Put(pd.photos, Photo(ids[0], blobs[0].value, DefaultMime, stamps[0])));
      assert ids[..Compressed(blobs)] == [ids[0]] + ids[1..][..Compressed(blobs[1..])];
      Attach(next, blobs[1..], ids[1..], stamps[1..])
  }

  /** A file that fails to compress ends the selection: the result is that
      of attaching only the files before it. */
  lemma {:induction false} AttachStopsAtFailure(pd: Pending, blobs: seq<Option<Blob>>, ids: seq<string>, stamps: seq<string>, i: nat)
    requires |ids| == |blobs| == |stamps|
    requires forall i, j :: 0 <= i < j < |ids| ==> ids[i] != ids[j]
    requires forall i :: 0 <= i < |ids| ==> ids[i] !in pd.photos
    requires i < |blobs| && blobs[i].None?
    ensures Attach(pd, blobs, ids, stamps) == Attach(pd, blobs[..i], ids[..i], stamps[..i])
    decreases i
  {
    if i > 0 && blobs[0].Some? {
      assert blobs[..i][1..] == blobs[1..][..i - 1];
      assert ids[..i][1..] == ids[1..][..i - 1];
      assert stamps[..i][1..] == stamps[1..][..i - 1];
      var next := Pending(pd.photoIds + [ids[0]], Put(pd.photos, Photo(ids[0], blobs[0].value, DefaultMime, stamps[0])));
      AttachStopsAtFailure(next, blobs[1..], ids[1..], stamps[1..], i - 1);
    }
  }

  /** Double-click on a thumbnail: the photo is detached from the pending list
      and its blob deleted at once. */
  function RemovePhoto(pd: Pending, pid: string): (r: Pending)
    ensures pid !in r.photoIds && pid !in r.photos
    ensures forall x | x in pd.photoIds && x != pid :: x in r.photoIds
    ensures forall x | x in r.photoIds :: x in pd.photoIds
    ensures Subsequence(r.photoIds, pd.photoIds)
    ensures forall x | x in pd.photoIds && x != pid :: multiset(r.photoIds)[x] == multiset(pd.photoIds)[x]
    ensures forall k | k in r.photos :: k in pd.photos && r.photos[k] == pd.photos[k]
    ensures forall k | k in pd.photos && k != pid :: k in r.photos
  {
    FilterIsSubsequence(pd.photoIds, (x: string) => x != pid);
    Pending(Filter(pd.photoIds, (x: string) => x != pid), Delete(pd.photos, pid))
  }

  /** The "clear photos" button: deletes every pending photo and empties the list. */
  function Clear(pd: Pending): (r: Pending)
    ensures r.photoIds == []
    ensures forall x | x in pd.photoIds :: x !in r.photos
    ensures forall k | k in pd.photos && k !in pd.photoIds :: k in r.photos && r.photos[k] == pd.photos[k]
    ensures forall k | k in r.photos :: k in pd.photos
  {
    Pending([], DeleteAll(pd.photos, pd.photoIds))
  }

  /** Clearing right after attaching to an empty list deletes exactly what
      was attached, however many files compressed. */
  lemma ClearUndoesAttach(store: PhotoStore, blobs: seq<Option<Blob>>, ids: seq<string>, stamps: seq<string>)
    requires |ids| == |blobs| == |stamps|
    requires forall i, j :: 0 <= i < j < |ids| ==> ids[i] != ids[j]
    requires forall i :: 0 <= i < |ids| ==> ids[i] !in store
    ensures Clear(Attach(Pending([], store), blobs, ids, stamps)) == Pending([], store)
  {
    var a := Attach(Pending([], store), blobs, ids, stamps);
    assert Clear(a).photos.Keys == store.Keys;
  }

  /** A photo deleted while still referenced (double-click, then closing the
      modal without saving) does not disturb readers: it is skipped. */
  lemma {:induction false} ReadersSkipDeleted(store: PhotoStore, ids: seq<string>, pid: string)
    ensures Resolve(Delete(store, pid), ids) == Resolve(store, Filter(ids, (x: string) => x != pid))
  {
    if |ids| > 0 {
      ReadersSkipDeleted(store, ids[1..], pid);
    }
  }
}
