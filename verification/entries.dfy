/** Museum and journal entries: the entry modal's open, save (create or edit)
    and delete actions. */
module Entries {
  import opened Wrappers
  import opened Text
  import opened Records
  import opened Seqs
  import Photos
  import Cascade

  /** The three text inputs of the entry modal. */
  datatype EntryForm = EntryForm(date: string, title: string, text: string)

  /** `entryModalState`: the entry being edited (None or "" when creating) and
      the photo ids attached so far. */
  datatype Modal = Modal(entryId: Option<string>, photoIds: seq<string>)

  /** `Boolean(entryModalState.entryId)`. */
  predicate IsEdit(m: Modal) {
    m.entryId.Some? && m.entryId.value != []
  }

  /** The save guard: no title, no text and no photos. */
  predicate IsBlank(form: EntryForm, m: Modal) {
    Trim(form.title) == [] && Trim(form.text) == [] && |m.photoIds| == 0
  }

  /** The date saved: the trimmed input, or today's date when that is blank. */
  function SavedDate(form: EntryForm, today: string): (r: string)
    ensures Trim(form.date) != [] ==> r == Trim(form.date)
    ensures Trim(form.date) == [] ==> r == today
  {
    if Trim(form.date) == [] then today else Trim(form.date)
  }

  /** `{...arr[idx], date, title, text, photoIds, updatedAt}`. */
  function Edited(e: Entry, form: EntryForm, m: Modal, now: string, today: string): Entry {
    e.(date := Some(SavedDate(form, today)), title := Some(Trim(form.title)), text := Some(Trim(form.text)),
       photoIds := Some(m.photoIds), updatedAt := Some(now))
  }

  function Created(id: string, form: EntryForm, m: Modal, now: string, today: string): Entry {
    Entry(id, Some(SavedDate(form, today)), Some(Trim(form.title)), Some(Trim(form.text)),
          Some(m.photoIds), Some(now), Some(now))
  }

  /** Creating: the new entry, with a fresh id, a copy of the pending photo
      ids and both timestamps `now`, goes to the front of the section's
      collection; nothing else changes. */
  function Create(st: State, section: Section, m: Modal, form: EntryForm, newId: string, now: string, today: string)
    : (r: State)
    ensures r == WithEntries(st, section, EntriesOf(r, section))
    ensures |EntriesOf(r, section)| == |EntriesOf(st, section)| + 1
    ensures EntriesOf(r, section)[1..] == EntriesOf(st, section)
    ensures var e := EntriesOf(r, section)[0];
      && e.id == newId && e.photoIds == Some(m.photoIds)
      && e.date == Some(SavedDate(form, today))
      && e.title == Some(Trim(form.title)) && e.text == Some(Trim(form.text))
      && e.createdAt == Some(now) && e.updatedAt == Some(now)
  {
    WithEntries(st, section, [Created(newId, form, m, now, today)] + EntriesOf(st, section))
  }

  /** Editing: the first entry with the id gets the form's date, title, text,
      photo ids and a fresh update time in place, keeping its id, creation
      time and position; every other entry, and every other part of the
      state, is untouched. An unknown id changes nothing. */
  function Edit(st: State, section: Section, id: string, m: Modal, form: EntryForm, now: string, today: string)
    : (r: State)
    ensures r == WithEntries(st, section, EntriesOf(r, section))
    ensures |EntriesOf(r, section)| == |EntriesOf(st, section)|
    ensures forall i | Cascade.FirstWithId(EntriesOf(st, section), EntryId, id, i) ::
      var old_e, new_e := EntriesOf(st, section)[i], EntriesOf(r, section)[i];
      && new_e.id == old_e.id && new_e.createdAt == old_e.createdAt
      && new_e.date == Some(SavedDate(form, today))
      && new_e.title == Some(Trim(form.title)) && new_e.text == Some(Trim(form.text))
      && new_e.photoIds == Some(m.photoIds) && new_e.updatedAt == Some(now)
      && (forall j :: 0 <= j < |EntriesOf(st, section)| && j != i ==> EntriesOf(r, section)[j] == EntriesOf(st, section)[j])
    ensures (forall e | e in EntriesOf(st, section) :: e.id != id) ==> r == st
  {
    var arr := EntriesOf(st, section);
    match FindFirst(arr, (e: Entry) => e.id == id)
    case None => st
    case Some(i) =>
      assert forall k | Cascade.FirstWithId(arr, EntryId, id, k) :: k == i;
      WithEntries(st, section, arr[i := Edited(arr[i], form, m, now, today)])
  }

  /** The "save" button: a blank form changes nothing; otherwise the modal
      creates a new entry or edits the one it was opened on. */
  function Save(st: State, section: Section, m: Modal, form: EntryForm, newId: string, now: string, today: string)
    : (r: State)
    ensures IsBlank(form, m) ==> r == st
    ensures !IsBlank(form, m) && !IsEdit(m) ==> r == Create(st, section, m, form, newId, now, today)
    ensures !IsBlank(form, m) && IsEdit(m) ==> r == Edit(st, section, m.entryId.value, m, form, now, today)
  {
    if IsBlank(form, m) then st
    else if IsEdit(m) then Edit(st, section, m.entryId.value, m, form, now, today)
    else Create(st, section, m, form, newId, now, today)
  }

  /** The "delete" button: every photo the entry references is deleted, then
      every entry with its id leaves the section's collection. Nothing happens
      without an id or for an unknown one. */
  function Delete(st: State, section: Section, entryId: Option<string>): (r: State)
    ensures entryId.None? || entryId.value == [] ==> r == st
    ensures r.settings == st.settings && r.jar == st.jar && r.messages == st.messages
    ensures r == WithEntries(st, section, EntriesOf(r, section)).(photos := r.photos)
    ensures entryId.Some? && entryId.value != [] ==>
      && (forall e | e in EntriesOf(r, section) :: e.id != entryId.value)
      && (forall e | e in EntriesOf(st, section) && e.id != entryId.value :: e in EntriesOf(r, section))
      && Subsequence(EntriesOf(r, section), EntriesOf(st, section))
      && (forall e | e in EntriesOf(st, section) ::
            multiset(EntriesOf(r, section))[e] == if e.id == entryId.value then 0 else multiset(EntriesOf(st, section))[e])
      && (forall i | Cascade.FirstWithId(EntriesOf(st, section), EntryId, entryId.value, i) ::
            r.photos.Keys == st.photos.Keys - (set p | p in EntryPhotos(EntriesOf(st, section)[i])))
    ensures forall k | k in r.photos :: k in st.photos && r.photos[k] == st.photos[k]
    ensures entryId.Some? && (forall e | e in EntriesOf(st, section) :: e.id != entryId.value) ==> r == st
  {
    if entryId.None? || entryId.value == [] then st
    else
      var removed := Cascade.Remove(EntriesOf(st, section), st.photos, entryId.value, EntryId, EntryPhotos);
      WithEntries(st, section, removed.items).(photos := removed.photos)
  }

  /** `openEntryModal`: the form and modal state for a new entry (no id) or
      for editing the first entry with the id. Missing fields show as "" and a
      missing date as today. */
  function Open(st: State, section: Section, entryId: Option<string>, today: string): (r: (Modal, EntryForm))
    ensures r.0.entryId == entryId
    ensures !IsEdit(r.0) ==> r.0.photoIds == [] && r.1 == EntryForm(today, "", "")
    ensures IsEdit(r.0) ==>
      forall i | Cascade.FirstWithId(EntriesOf(st, section), EntryId, entryId.value, i) ::
        var e := EntriesOf(st, section)[i];
        r.0.photoIds == EntryPhotos(e) && r.1 == EntryForm(Or(e.date, today), Or(e.title, ""), Or(e.text, ""))
  {
    var arr := EntriesOf(st, section);
    var found := if IsEdit(Modal(entryId, [])) then FindFirst(arr, (e: Entry) => Some(e.id) == entryId) else None;
    match found
    case None => (Modal(entryId, []), EntryForm(today, "", ""))
    case Some(i) =>
      assert forall k | Cascade.FirstWithId(arr, EntryId, entryId.value, k) :: k == i;
      var e := arr[i];
      (Modal(entryId, EntryPhotos(e)), EntryForm(Or(e.date, today), Or(e.title, ""), Or(e.text, "")))
  }

  /** Deleting an entry just created under a fresh id restores the collection
      and deletes exactly the photos that were attached to it. */
  lemma DeleteUndoesCreate(st: State, section: Section, m: Modal, form: EntryForm,
                           newId: string, now: string, today: string)
    requires !IsBlank(form, m) && !IsEdit(m) && newId != []
    requires forall e | e in EntriesOf(st, section) :: e.id != newId
    ensures Delete(Save(st, section, m, form, newId, now, today), section, Some(newId))
         == st.(photos := Photos.DeleteAll(st.photos, m.photoIds))
  {
    var arr := EntriesOf(st, section);
    var c := Created(newId, form, m, now, today);
    Cascade.RemoveFreshHead(c, arr, st.photos, EntryId, EntryPhotos);
  }

  /** Opening an entry and saving the form untouched only refreshes its update
      time (and writes a missing photo list as []), provided its stored fields
      are already what the form would save: trimmed, with a non-blank date. */
  lemma OpenThenSaveRefreshesOnly(st: State, section: Section, id: string, i: nat,
                                  newId: string, now: string, today: string)
    requires id != [] && Cascade.FirstWithId(EntriesOf(st, section), EntryId, id, i)
    requires var e := EntriesOf(st, section)[i];
      && e.date.Some? && e.date.value != [] && Trimmed(e.date.value)
      && e.title.Some? && Trimmed(e.title.value)
      && e.text.Some? && Trimmed(e.text.value)
      && !(e.title.value == [] && e.text.value == [] && EntryPhotos(e) == [])
    ensures var modal := Open(st, section, Some(id), today);
      var e := EntriesOf(st, section)[i];
      Save(st, section, modal.0, modal.1, newId, now, today)
        == WithEntries(st, section, EntriesOf(st, section)[i := e.(photoIds := Some(EntryPhotos(e)), updatedAt := Some(now))])
  {
    var e := EntriesOf(st, section)[i];
    var modal := Open(st, section, Some(id), today);
    assert modal.0 == Modal(Some(id), EntryPhotos(e));
    assert modal.1 == EntryForm(e.date.value, e.title.value, e.text.value);
    SaveUnchangedForm(st, section, id, i, newId, now, today);
  }

  lemma SaveUnchangedForm(st: State, section: Section, id: string, i: nat,
                          newId: string, now: string, today: string)
    requires id != [] && Cascade.FirstWithId(EntriesOf(st, section), EntryId, id, i)
    requires var e := EntriesOf(st, section)[i];
      && e.date.Some? && e.date.value != [] && Trimmed(e.date.value)
      && e.title.Some? && Trimmed(e.title.value)
      && e.text.Some? && Trimmed(e.text.value)
      && !(e.title.value == [] && e.text.value == [] && EntryPhotos(e) == [])
    ensures var e := EntriesOf(st, section)[i];
      Save(st, section, Modal(Some(id), EntryPhotos(e)), EntryForm(e.date.value, e.title.value, e.text.value), newId, now, today)
        == WithEntries(st, section, EntriesOf(st, section)[i := e.(photoIds := Some(EntryPhotos(e)), updatedAt := Some(now))])
  {
    var arr := EntriesOf(st, section);
    var e := arr[i];
    var m := Modal(Some(id), EntryPhotos(e));
    var form := EntryForm(e.date.value, e.title.value, e.text.value);
    TrimKeepsTrimmed(e.date.value);
    TrimKeepsTrimmed(e.title.value);
    TrimKeepsTrimmed(e.text.value);
    assert SavedDate(form, today) == e.date.value;
    assert !IsBlank(form, m) && IsEdit(m);
    assert FindFirst(arr, (x: Entry) => x.id == id) == Some(i);
    assert Edited(e, form, m, now, today) == e.(photoIds := Some(EntryPhotos(e)), updatedAt := Some(now));
  }
}
