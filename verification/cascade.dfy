/** Delete-with-cascade, shared by entries and messages: the first record with
    the id is looked up, every photo it references is deleted, and then every
    record with that id is filtered out of the collection. */
module Cascade {
  import opened Wrappers
  import opened Records
  import opened Seqs
  import Photos

  datatype Removed<T> = Removed(items: seq<T>, photos: PhotoStore)

  /** `i` is the position `items.find(x => x.id === id)` returns. */
  ghost predicate FirstWithId<T>(items: seq<T>, idOf: T -> string, id: string, i: int) {
    0 <= i < |items| && idOf(items[i]) == id && forall j :: 0 <= j < i ==> idOf(items[j]) != id
  }

  function Remove<T>(items: seq<T>, photos: PhotoStore, id: string, idOf: T -> string, photosOf: T -> seq<string>)
    : (r: Removed<T>)
    ensures forall x | x in r.items :: idOf(x) != id
    ensures forall x | x in items && idOf(x) != id :: x in r.items
    ensures forall x | x in r.items :: x in items
    ensures Subsequence(r.items, items)
    ensures forall x | x in items :: multiset(r.items)[x] == if idOf(x) == id then 0 else multiset(items)[x]
    ensures forall i | FirstWithId(items, idOf, id, i) ::
      r.photos.Keys == photos.Keys - (set p | p in photosOf(items[i]))
    ensures forall k | k in r.photos :: k in photos && r.photos[k] == photos[k]
    ensures (forall i :: 0 <= i < |items| ==> idOf(items[i]) != id) ==> r == Removed(items, photos)
  {
    match FindFirst(items, (x: T) => idOf(x) == id)
    case None =>
      SubsequenceReflexive(items);
      Removed(items, photos)
    case Some(i) =>
      assert FirstWithId(items, idOf, id, i);
      FilterIsSubsequence(items, (x: T) => idOf(x) != id);
      Removed(Filter(items, (x: T) => idOf(x) != id), Photos.DeleteAll(photos, photosOf(items[i])))
  }

  /** Removing the record at the front, whose id no other record has, gives
      back the rest of the collection and deletes exactly its photos. */
  lemma RemoveFreshHead<T>(x: T, items: seq<T>, photos: PhotoStore, idOf: T -> string, photosOf: T -> seq<string>)
    requires forall y | y in items :: idOf(y) != idOf(x)
    ensures Remove([x] + items, photos, idOf(x), idOf, photosOf) == Removed(items, Photos.DeleteAll(photos, photosOf(x)))
  {
    var all := [x] + items;
    assert FindFirst(all, (y: T) => idOf(y) == idOf(x)) == Some(0);
    assert all[1..] == items;
    assert Filter(all, (y: T) => idOf(y) != idOf(x)) == Filter(items, (y: T) => idOf(y) != idOf(x));
  }
}
