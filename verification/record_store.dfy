/** The key/value record store (`localStorage`) and the `load`/`save` pair
    built on it. `JSON.parse` and `JSON.stringify` are parameters: `parse`
    answers None where parsing would throw. */
module RecordStore {
  import opened Wrappers

  const SettingsKey: string := "gift_settings_v1"
  const JarKey: string := "gift_jar_v1"
  const MuseumKey: string := "gift_museum_v1"
  const JournalKey: string := "gift_journal_v1"
  const MessagesKey: string := "gift_messages_v1"

  /** Raw stored text by key; a key that is absent is `getItem`'s null. */
  type Storage = map<string, string>

  /** `load(key, fallback)`: the parsed stored document, or the fallback when
      the key is missing, holds "", or does not parse. Never fails. */
  function Load<T>(ls: Storage, key: string, parse: string -> Option<T>, fallback: T): (r: T)
    ensures key !in ls || ls[key] == "" ==> r == fallback
    ensures key in ls && ls[key] != "" && parse(ls[key]).None? ==> r == fallback
    ensures key in ls && ls[key] != "" && parse(ls[key]).Some? ==> r == parse(ls[key]).value
  {
    if key in ls && ls[key] != "" then
      match parse(ls[key])
      case Some(v) => v
      case None => fallback
    else fallback
  }

  /** `save(key, value)`: overwrites one key with the serialised document. */
  function Save<T>(ls: Storage, key: string, serialize: T -> string, v: T): (r: Storage)
    ensures r.Keys == ls.Keys + {key} && r[key] == serialize(v)
    ensures forall k | k in ls && k != key :: r[k] == ls[k]
  {
    ls[key := serialize(v)]
  }

  /** Loading a key just saved gives back the saved document, whatever the
      fallback, provided the serialiser round-trips through the parser
      (`JSON.stringify` never yields ""). */
  lemma LoadAfterSave<T>(ls: Storage, key: string, serialize: T -> string, parse: string -> Option<T>, v: T, fallback: T)
    requires serialize(v) != "" && parse(serialize(v)) == Some(v)
    ensures Load(Save(ls, key, serialize, v), key, parse, fallback) == v
  {
  }

  /** Saving one key does not change what any other key loads. */
  lemma SaveKeepsOtherKeys<T, U>(ls: Storage, key: string, serialize: T -> string, v: T,
                                 other: string, parse: string -> Option<U>, fallback: U)
    requires other != key
    ensures Load(Save(ls, key, serialize, v), other, parse, fallback) == Load(ls, other, parse, fallback)
  {
  }
}
