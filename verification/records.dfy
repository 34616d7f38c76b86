/** The documents the application keeps. Records come from `JSON.parse` of
    stored or imported text and carry no schema, so every field the app reads
    through a `||` fallback is optional here. */
module Records {
  import opened Wrappers

  const DefaultTitle: string := "Per Anna"
  const DefaultSubtitle: string := "Un posto piccolo, solo nostro."
  /** Sender name used when the "from" field is left blank. */
  const DefaultFrom: string := "Anna"
  /** MIME type of every photo the app compresses, and the fallback on export and import. */
  const DefaultMime: string := "image/jpeg"
  /** Sort key the journal uses for an entry without a date. */
  const MissingDate: string := "0000-00-00"

  datatype Settings = Settings(
    title: Option<string>,
    subtitle: Option<string>,
    toWhatsapp: Option<string>,
    toEmail: Option<string>)

  /** A note in the jar. */
  datatype JarNote = JarNote(id: string, text: Option<string>, createdAt: Option<string>)

  /** A museum or journal entry; both collections share this shape. */
  datatype Entry = Entry(
    id: string,
    date: Option<string>,
    title: Option<string>,
    text: Option<string>,
    photoIds: Option<seq<string>>,
    createdAt: Option<string>,
    updatedAt: Option<string>)

  datatype Message = Message(
    id: string,
    from: Option<string>,
    text: Option<string>,
    photoIds: Option<seq<string>>,
    createdAt: Option<string>)

  /** Photo bytes; the model never looks inside them. */
  type Blob = seq<bv8>

  /** A record of the photo object store, keyed by `id`. */
  datatype Photo = Photo(id: string, blob: Blob, mime: string, createdAt: string)

  type PhotoStore = map<string, Photo>

  /** The whole application state: the five record-store collections and the photo store. */
  datatype State = State(
    settings: Settings,
    jar: seq<JarNote>,
    museum: seq<Entry>,
    journal: seq<Entry>,
    messages: seq<Message>,
    photos: PhotoStore)

  /** The built-in values used when nothing is stored and when an imported
      backup lacks a collection. */
  datatype Defaults = Defaults(
    settings: Settings,
    jar: seq<JarNote>,
    museum: seq<Entry>,
    journal: seq<Entry>)

  /** Which entry collection the entry modal works on. */
  datatype Section = Museum | Journal

  /** The modal's section select holds "museo" for the museum; any other value means the journal. */
  function SectionOf(value: string): (r: Section)
    ensures r == Museum <==> value == "museo"
  {
    if value == "museo" then Museum else Journal
  }

  /** `x.photoIds || []`: a missing list reads as empty (an empty array is truthy). */
  function PhotoIdsOf(ids: Option<seq<string>>): (r: seq<string>)
    ensures ids.Some? ==> r == ids.value
    ensures ids.None? ==> r == []
  {
    if ids.Some? then ids.value else []
  }

  function EntryPhotos(e: Entry): seq<string> { PhotoIdsOf(e.photoIds) }
  function MessagePhotos(m: Message): seq<string> { PhotoIdsOf(m.photoIds) }
  function EntryId(e: Entry): string { e.id }
  function MessageId(m: Message): string { m.id }

  /** The photo store keeps each photo under its own id (object store keyPath "id"). */
  ghost predicate KeyedById(photos: PhotoStore) {
    forall k | k in photos :: photos[k].id == k
  }

  /** The entry collection a section names. */
  function EntriesOf(st: State, section: Section): seq<Entry> {
    if section == Museum then st.museum else st.journal
  }

  /** Replaces the entry collection a section names, keeping everything else. */
  function WithEntries(st: State, section: Section, entries: seq<Entry>): (r: State)
    ensures EntriesOf(r, section) == entries
    ensures section == Museum ==> r.journal == st.journal
    ensures section == Journal ==> r.museum == st.museum
    ensures r.settings == st.settings && r.jar == st.jar && r.messages == st.messages && r.photos == st.photos
  {
    if section == Museum then st.(museum := entries) else st.(journal := entries)
  }

  /** The built-in defaults of app.js, given the ids and clock values they
      were created with when the page loaded. */
  function BuiltInDefaults(jarIds: seq<string>, museumId: string, journalId: string, now: string, today: string): (d: Defaults)
    requires |jarIds| == 3
    ensures |d.jar| == 3 && |d.museum| == 1 && |d.journal| == 1
    ensures d.settings.title == Some(DefaultTitle) && d.settings.subtitle == Some(DefaultSubtitle)
    ensures forall i :: 0 <= i < 3 ==> d.jar[i].id == jarIds[i]
    ensures EntryPhotos(d.museum[0]) == [] && EntryPhotos(d.journal[0]) == []
  {
    Defaults(
      Settings(Some(DefaultTitle), Some(DefaultSubtitle), Some(""), Some("")),
      [ JarNote(jarIds[0], Some("Se sei qui, vuol dire che volevi un pensiero piccolo ma vero."), Some(now)),
        JarNote(jarIds[1], Some("Mi piaci più di quanto riesca a dire quando parlo di fretta."), Some(now)),
        JarNote(jarIds[2], Some("Oggi: non devi meritarti niente per essere amata."), Some(now)) ],
      [ Entry(museumId, Some(today), Some("Il giorno in cui…"), Some("Scrivi qui un ricordo breve."),
              Some([]), Some(now), Some(now)) ],
      [ Entry(journalId, Some(today), Some("Una cosa bella"), Some("Scrivi qui una cosa bella che avete fatto insieme."),
              Some([]), Some(now), Some(now)) ])
  }
}
