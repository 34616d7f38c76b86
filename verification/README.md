# Per Anna — a model of the gift app's data layer

"Per Anna" is a single-page web gift app. It holds:

- a jar of short notes;
- a "museum" and a "journal" of dated entries with photos;
- a message composer whose messages leave the device by native share, WhatsApp link, mailto link or clipboard;
- a settings page;
- a JSON backup export and import.

The records live in `localStorage` under five of the six keys it defines (the sixth holds the "micro" note, which is not modelled). Photos live in an IndexedDB object store keyed by id.

This project models that data layer as pure functions over an immutable state. The state holds:

- the settings;
- the jar, museum, journal and messages, as sequences of records;
- the photo store, as a map from id to photo.

Ids, clock readings, the share outcome and the data-URL codec are parameters. Where one operation reads the clock more than once, a single reading stands for all of them (see Left out).

Records come from `JSON.parse` and have no schema. Every record field the app reads through `x || fallback` is therefore an `Option<string>` here, and `Text.Or` is that `||`: a missing field and `""` both fall back. The exception is a stored photo's `mime` and `createdAt`, which are plain strings with `""` standing for missing; `p.mime || "image/jpeg"` (app.js:798) is then an `if` on `""`, which behaves the same.

| file | module | what it models |
|---|---|---|
| wrappers.dfy | Wrappers | `Option` |
| text.dfy | Text | `trim` (full JavaScript white-space set), `toLowerCase` on ASCII and Latin-1, `includes`, JavaScript `or` on strings, `localeCompare` as lexicographic order |
| seqs.dfy | Seqs | `findIndex`, `filter`, reversal |
| sorting.dfy | Sorting | stable sort by a string key, ascending or descending |
| records.dfy | Records | the record shapes, the state, the built-in defaults |
| record_store.dfy | RecordStore | `load` / `save` over `localStorage` |
| photo_store.dfy | Photos | the photo store and the pending-photo lists of the entry modal and the composer |
| cascade.dfy | Cascade | delete a record together with its photos |
| jar.dfy | Jar | add and delete notes |
| entries.dfy | Entries | open, create, edit and delete museum/journal entries |
| messages.dfy | Messages | store and delete messages |
| settings_page.dfy | SettingsPage | the settings form and its save |
| queries.dfy | Queries | search and the order of each list |
| backup.dfy | Backup | export and import |
| outgoing.dfy | Outgoing | `formatOutgoing` and the share → WhatsApp → mailto → clipboard chain |
| aliasing.dfy | SettingsAliasing | the settings object shared with the defaults (see Findings) |

## Model

| member | source | states |
|---|---|---|
| Text.Trim | app.js:246 | the result is the input with leading and trailing white space removed: a middle slice of the input, surrounded only by white space, that is empty or starts and ends with a non-space |
| Text.TrimEmptyIffAllSpace | app.js:246-247 | a trimmed input is empty exactly when every character is white space, which is what the `if (!v) return` guards test |
| Text.TrimIdempotent | app.js:246 | trimming twice is trimming once |
| Text.Includes | app.js:478-480 | `hay.includes(needle)` is true exactly when the needle occurs at some position of the haystack |
| Text.Lower | app.js:476-480 | every character is mapped through the lower-case map, length kept |
| Text.LexLeTransitive | app.js:208 | the string order used for `localeCompare` is transitive (with LexLeTotal and LexLeAntisymmetric: a total order) |
| RecordStore.Load | app.js:30-37 | a missing key, an empty stored string or unparsable text gives the fallback; otherwise the parsed document |
| RecordStore.LoadAfterSave | app.js:30-40 | loading a key just saved gives the saved value back when the serialiser round-trips |
| RecordStore.Save | app.js:38-40 | the key now holds the serialised value, and every other key keeps its text |
| RecordStore.SaveKeepsOtherKeys | app.js:38-40 | saving one key leaves what every other key loads unchanged |
| Records.BuiltInDefaults | app.js:131-150 | the defaults hold the title "Per Anna", the default subtitle, three jar notes with the given ids, and one museum and one journal entry without photos |
| Records.SectionOf | app.js:656-657 | the section value "museo" selects the museum and every other value the journal |
| Photos.Put | app.js:67-75 | the photo is stored under its id, replacing any earlier one; other photos are untouched |
| Photos.Get | app.js:77-85 | the photo under the id, or none exactly when the id is unknown |
| Photos.Delete | app.js:87-95 | the id is gone and every other photo is untouched; an unknown id changes nothing |
| Photos.DeleteAll | app.js:642-646 | after deleting a list of ids, the store holds exactly its former keys minus the listed ids, with the remaining photos unchanged |
| Photos.Resolve | app.js:606-611 | readers show, for the listed ids, exactly the photos present in the store and skip missing ids |
| Photos.Attach | app.js:627-636 | (the composer's loop at app.js:371-380 is the same) the files before the first one that fails to compress are each stored as a JPEG under their fresh id with their blob and time, their ids appended to the pending list in order; the failing file and every later one add nothing; earlier photos are untouched |
| Photos.AttachStopsAtFailure | app.js:631-636 | when a file fails to compress (its image does not decode, app.js:104), the result is that of attaching only the files before it |
| Photos.RemovePhoto | app.js:617-621 | a double-clicked photo leaves the pending list and the store; every other pending id stays in order with its number of occurrences, and every other photo stays |
| Photos.Clear | app.js:642-646 | clearing empties the pending list and deletes every pending photo, keeping every other photo |
| Photos.ClearUndoesAttach | app.js:627-646 | clearing right after attaching to an empty list restores the photo store exactly, whether or not a file failed to compress |
| Photos.ReadersSkipDeleted | app.js:606-621 | a photo deleted while still referenced reads as if its id were filtered out of the list |
| Cascade.Remove | app.js:700-711 | no record with the id is left and every other record stays in order, each with its number of copies; the store loses exactly the first match's photo ids; an unknown id changes nothing |
| Cascade.RemoveFreshHead | app.js:700-711 | removing a front record whose id is unique returns the rest of the collection and deletes exactly its photos |
| Jar.Add | app.js:245-249 | a non-blank input puts a note with the trimmed text, the id and the time in front of the jar; a blank input changes nothing; nothing but the jar changes |
| Jar.Delete | app.js:236-238 | no note with the id remains, every other note stays in its relative order with its number of copies, nothing but the jar changes |
| Jar.DeleteUndoesAdd | app.js:236-249 | deleting a note just added under a fresh id restores the state |
| Entries.SavedDate | app.js:650 | the saved date is the trimmed input, or today when that is blank |
| Entries.Create | app.js:670-678 | the collection grows by exactly one new front entry with the fresh id, a copy of the pending photo ids, the trimmed fields and both timestamps; nothing else changes |
| Entries.Edit | app.js:659-669 | the first entry with the id gets the new date, title, text, photo ids and update time, and keeps its id, creation time and position; every other entry and collection is untouched; an unknown id changes nothing |
| Entries.Save | app.js:648-678 | a form with blank title and text and no photos changes nothing; otherwise it creates without an entry id and edits with one |
| Entries.Delete | app.js:694-711 | without an id nothing changes; otherwise every entry with the id leaves its section, the others stay in order with their number of copies, the first match's photos are deleted, no other photo changes, and the other section, settings, jar and messages are kept |
| Entries.Open | app.js:575-589 | a new entry opens with today's date, empty fields and no photos; an edit opens with the entry's fields (missing ones as "", a missing date as today) and its photo ids |
| Entries.DeleteUndoesCreate | app.js:648-711 | deleting an entry just created under a fresh id restores the collection and deletes exactly its photos |
| Entries.OpenThenSaveRefreshesOnly | app.js:575-669 | opening an entry whose fields are already trimmed and saving it unchanged only refreshes its update time |
| Messages.SenderName | app.js:393 | the sender is the trimmed name, or "Anna" when it is blank |
| Messages.Send | app.js:392-400 | with no text and no photos nothing changes; otherwise the message with the trimmed text and the pending photo ids goes to the front of the history and nothing else changes |
| Messages.Delete | app.js:344-348 | every message with the id leaves the history, the others stay in order with their number of copies, and the store loses exactly the first match's photos; an unknown id changes nothing |
| Messages.DeleteUndoesSend | app.js:344-400 | deleting a message just sent under a fresh id restores the history and deletes exactly its photos |
| SettingsPage.Render | app.js:735-740 | each input shows its setting, or "" when missing |
| SettingsPage.Saved | app.js:743-747 | targets are saved trimmed; title and subtitle are saved trimmed or, when blank, as their default texts |
| SettingsPage.Save | app.js:743-749 | only the settings change, to the saved form |
| SettingsPage.SavedTitleNeverBlank | app.js:743-747 | after a save, title and subtitle are non-empty and the brand shows the saved title |
| SettingsPage.SaveOfRenderedIsStable | app.js:735-747 | saving again the form shown after a save writes the same settings |
| Queries.MatchesSearch | app.js:474-482 | an empty query matches every entry; otherwise an entry matches exactly when the lower-cased query occurs in the lower-cased title, text or date, missing fields read as "" |
| Queries.Search | app.js:487-491 | the kept entries are exactly the entries matching the trimmed query, in their original order and with their number of copies |
| Queries.BlankSearchKeepsAll | app.js:487-491 | a blank or all-space query shows the whole collection unchanged |
| Queries.SearchIgnoresQueryCase | app.js:474-482 | lower-casing the query never changes the outcome |
| Queries.SearchIgnoresFieldCase | app.js:474-482 | lower-casing an entry's fields never changes the outcome |
| Queries.JournalView | app.js:490-499 | the journal list is a permutation of the matching entries, ordered by date (missing as "0000-00-00") ascending for "asc" and descending otherwise |
| Queries.JournalOrdersMirror | app.js:495-499 | with no two matching entries on one date, the descending list is the ascending list reversed |
| Queries.MuseumView | app.js:500-502 | the museum list is a permutation of the matching entries, newest `updatedAt`, else `createdAt`, first |
| Queries.JarView | app.js:208 | the jar list is a permutation of the jar, newest `createdAt` first |
| Queries.MessagesView | app.js:297 | the history is a permutation of the messages, newest `createdAt` first |
| Sorting.SortBy | app.js:495-501 | the sorted list is a permutation of the input and ordered by the key |
| Sorting.DescendingIsReversedAscending | app.js:498 | without ties the descending comparator's order is the reverse of the ascending one |
| Backup.Dedup | app.js:788-791 | the collected ids hold every id once and only ids that occur |
| Backup.ReferencedIds | app.js:788-791 | the collected ids are each id referenced by a museum entry, journal entry or message, exactly once; jar notes are never consulted |
| Backup.DocOf | app.js:798 | an exported photo keeps its id, encodes its blob, and writes "image/jpeg" for an empty MIME type and the export time for an empty timestamp |
| Backup.ExportPhotos | app.js:793-799 | the exported photos are exactly the documents of the collected ids present in the store; missing ids are skipped |
| Backup.ExportListsEachPhotoOnce | app.js:788-799 | with the store keyed by id, no photo is exported twice and every exported id was collected |
| Backup.Export | app.js:786-810 | the file has version 1, the export time, every collection as it is, and the documents of exactly the referenced photos present in the store |
| Backup.ImportPhotos | app.js:846-851 | every photo present before stays, and one no usable document names keeps its value; only usable documents add photos; if every usable document decodes, every one of their ids is stored |
| Backup.ImportWritesEachDocument | app.js:847-851 | when every usable document decodes and no two share an id, each is stored under its id with the decoded blob, its MIME type or JPEG, and its timestamp or the import time |
| Backup.ImportStopsAtBadPhoto | app.js:846-851 | a usable photo that fails to decode ends the import: the store is what the earlier documents produced |
| Backup.ImportSkipsUnusable | app.js:847-848 | documents without an id or data URL change nothing wherever they stand: the import equals the import of the usable documents alone |
| Backup.Restored | app.js:850 | a usable document is written under its id with the decoded blob, `mime` or "image/jpeg", and `createdAt` or the import time |
| Backup.ImportExportedPhotos | app.js:793-851 | importing exported photo documents writes exactly the exported photos back over the target store |
| Backup.Import | app.js:824-851 | an unparsable file changes nothing; otherwise each collection comes from the file or the defaults (messages: empty), and photos are then written by the photo loop, which deletes none and leaves every photo no usable document names as it was |
| Backup.ExportThenImportRestores | app.js:786-851 | importing an export restores settings, jar, museum, journal and messages exactly, and every referenced photo with its id, MIME type and time |
| Backup.ImportOwnExportIsNoOp | app.js:786-851 | importing a state's own export leaves the state as it was |
| Backup.MissingSettingsReadAsBuiltIn | app.js:833 | a file without settings restores the built-in settings and their title (the corrected behaviour, see Findings) |
| Outgoing.FormatOutgoing | app.js:423-428 | the payload is "" exactly when the text is blank; otherwise it is the `[day] sender: ` header followed by the trimmed text |
| Outgoing.FormatIgnoresPriorTrim | app.js:394-431 | trimming the text before formatting, as the send handler does, changes nothing |
| Outgoing.SendOut | app.js:430-463 | blank text goes nowhere; otherwise the channel is a completed native share, else WhatsApp to a non-blank trimmed number, else mailto to a non-blank trimmed address, else the clipboard, each exactly under its condition |
| Outgoing.CopyPayload | app.js:412-418 | the copy button copies nothing exactly when the text is blank, and otherwise the formatted payload |
| Outgoing.SendButton | app.js:392-404 | the message is stored as `Messages.Send` stores it, and a non-blank text goes out through the chain |
| Outgoing.PhotoOnlyMessageStaysLocal | app.js:392-404 | a photo-only message is stored but goes out on no channel |
| Outgoing.Resend | app.js:343 | "send again" goes nowhere exactly when the stored text is blank, and otherwise sends the payload of the stored sender and text |
| Outgoing.ResendRepeatsSend | app.js:343-404 | sending a stored message again picks the same channel and payload as its first send |
| SettingsAliasing.StartAsWritten | app.js:152 | with nothing stored, the live settings are the defaults object itself |
| SettingsAliasing.SaveAsWritten | app.js:743-747 | the save assigns into the live object, and so into the defaults while they are shared |
| SettingsAliasing.ImportAsWritten | app.js:833 | a file without settings makes the defaults object live again |
| SettingsAliasing.SavedTitleLeaksIntoImport | app.js:833 | with nothing stored, saving the title "Casa" and importing a file without settings shows "Casa", not "Per Anna" |
| SettingsAliasing.CorrectedImportRestoresBuiltIn | app.js:833 | with fixed defaults, a settings save followed by an import without settings shows the built-in title |

## Left out

- Rendering, modals, routing, event wiring, `escapeText`, `normalizeDate`, photo viewer: presentation only.
- IndexedDB opening, upgrades and transactions: the photo store is a map with put, get and delete. A failed put or delete (rejected promise) is not modelled.
- The parsed-document parameter: `JSON.parse` and `JSON.stringify` are `parse`/`serialize` parameters of `RecordStore.Load`/`Save`. A document of the wrong shape (`null`, an array where an object belongs) is not modelled. An import whose document is `null` throws before any assignment, so it is the same as a parse failure (`None`).
- Extra, unknown fields of stored records are not represented: the record datatypes hold exactly the fields the app reads.
- Image compression (canvas, floating-point scaling): the outcome for each selected file is a parameter, either the compressed blob or `None` for an image that cannot be decoded.
- The data-URL codec (`FileReader`, `fetch`): `encode`/`decode` are parameters. Their round trip is a precondition of the backup round-trip lemmas only.
- `uid`, `nowISO`, `dayISO`: ids and times are parameters. Freshness of ids is a precondition where it matters.
- `randomJarText`, the "micro" note of the day and the reset button: randomness, a side feature and a page reload.
- The share sheet, clipboard, `window.open`, `location` and URL encoding: only the choice of channel, its target and its payload are modelled. The "copy" buttons of notes and messages only write to the clipboard.
- Text.Lower: covers ASCII and Latin-1 capitals only, not the rest of Unicode's case mapping.
- Text.LexLe: orders by code point (Dafny characters are Unicode scalar values), not by UTF-16 code unit and not by `localeCompare`'s locale collation. The app's keys are ISO dates and times, for which all three agree.
- Sorting.SortBy: stated as a sorted permutation. Its stability, which matters when keys tie, is a property of the definition and is not stated as a contract.
- Queries.JournalOrdersMirror: stated only when no two matching entries share a date. With ties, a stable sort keeps tied entries in collection order both ways, so the two orders are not exact mirrors.
- Photos.Attach: requires fresh, distinct ids, as `uid` provides.
- Backup.ExportThenImportRestores: requires every stored photo to have a non-empty id, MIME type and time, as the app writes them. For other photos the import fills in defaults.
- Entries.Create: one clock reading stands for both `nowISO()` calls of app.js:675-676, so the model's createdAt and updatedAt are always equal; in the app they can differ by a tick.
- Backup.Export: one clock reading stands for `exportedAt` and for every photo's missing-timestamp fallback (app.js:798, 803), which the app reads separately.
- Backup.ImportPhotos: one clock reading stands for the missing-timestamp fallback of every imported photo (app.js:850), which the app reads once per photo.
- Export writes the file through a blob download; only the document is modelled.
- RecordStore.Save: assumed never to throw. If `localStorage.setItem` fails (a quota error, app.js:39), the app's in-memory collection has already changed while the stored text has not; the model equates the two.
- The jar, museum and journal arrays are aliased with the defaults in the same way as the settings (the jar add, message send and entry create paths use `unshift` in place, app.js:248, 399, 671, and the entry edit path assigns `arr[idx]` in place, app.js:663). Only the settings case is modelled, in SettingsAliasing.

## Findings

| source | as written | input that shows it | evidently intended | confidence | as-written member | corrected member |
|---|---|---|---|---|---|---|
| app.js:152, app.js:743-747, app.js:833 | with nothing stored, `settings` is the `defaults.settings` object; the settings page assigns into it, so the defaults change; an import without `settings` then restores the edited object | fresh browser profile; save the title "Casa"; import a backup lacking `settings` | the import falls back to the built-in "Per Anna" settings | medium, not executed | SettingsAliasing.SavedTitleLeaksIntoImport | Backup.MissingSettingsReadAsBuiltIn |
