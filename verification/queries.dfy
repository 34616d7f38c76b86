/** What the list views show: the search filter of the museum and journal
    pages and the order of every list. */
module Queries {
  import opened Wrappers
  import opened Text
  import opened Records
  import opened Seqs
  import opened Sorting

  /** `matchesSearch(entry, q)`: an empty query matches everything; otherwise
      the lower-cased query must occur in the lower-cased title, text or
      date, a missing field reading as "". */
  predicate MatchesSearch(e: Entry, q: string)
    ensures q == [] ==> MatchesSearch(e, q)
    ensures q != [] ==> (MatchesSearch(e, q) <==>
      IsInfix(Lower(q), Lower(Or(e.title, ""))) ||
      IsInfix(Lower(q), Lower(Or(e.text, ""))) ||
      IsInfix(Lower(q), Lower(Or(e.date, ""))))
  {
    if q == [] then true
    else
      var s := Lower(q);
      Includes(Lower(Or(e.title, "")), s) || Includes(Lower(Or(e.text, "")), s) || Includes(Lower(Or(e.date, "")), s)
  }

  /** The entries the search box keeps, in collection order; the box's value is trimmed first. */
  function Search(items: seq<Entry>, qInput: string): (r: seq<Entry>)
    ensures forall e | e in r :: e in items && MatchesSearch(e, Trim(qInput))
    ensures forall e | e in items && MatchesSearch(e, Trim(qInput)) :: e in r
    ensures Subsequence(r, items)
    ensures forall e | e in items :: multiset(r)[e] == if MatchesSearch(e, Trim(qInput)) then multiset(items)[e] else 0
  {
    FilterIsSubsequence(items, (e: Entry) => MatchesSearch(e, Trim(qInput)));
    Filter(items, (e: Entry) => MatchesSearch(e, Trim(qInput)))
  }

  /** A blank search box shows the whole collection, unchanged and in order. */
  lemma BlankSearchKeepsAll(items: seq<Entry>, qInput: string)
    requires AllSpace(qInput)
    ensures Search(items, qInput) == items
  {
    TrimEmptyIffAllSpace(qInput);
  }

  /** The search ignores the case of the query. */
  lemma SearchIgnoresQueryCase(e: Entry, q: string)
    ensures MatchesSearch(e, Lower(q)) == MatchesSearch(e, q)
  {
    LowerIdempotent(q);
  }

  /** The search ignores the case of the entry's fields. */
  lemma SearchIgnoresFieldCase(e: Entry, q: string)
    ensures MatchesSearch(e, q) == MatchesSearch(e.(title := Some(Lower(Or(e.title, ""))),
                                                   text := Some(Lower(Or(e.text, ""))),
                                                   date := Some(Lower(Or(e.date, "")))), q)
  {
    var t, x, d := Or(e.title, ""), Or(e.text, ""), Or(e.date, "");
    LowerIdempotent(t);
    LowerIdempotent(x);
    LowerIdempotent(d);
    assert Or(Some(Lower(t)), "") == Lower(t);
    assert Or(Some(Lower(x)), "") == Lower(x);
    assert Or(Some(Lower(d)), "") == Lower(d);
  }

  /** Journal sort key: the date, with "0000-00-00" for a missing one. */
  function JournalKey(e: Entry): string { Or(e.date, MissingDate) }

  /** Museum sort key: `updatedAt || createdAt || ""`. */
  function MuseumKey(e: Entry): string { Or(e.updatedAt, Or(e.createdAt, "")) }

  /** Jar and message sort key: `createdAt || ""`. */
  function NoteKey(n: JarNote): string { Or(n.createdAt, "") }
  function MessageKey(m: Message): string { Or(m.createdAt, "") }

  /** The journal page: the matching entries, ordered by date ascending when
      the sort select says "asc" and descending for any other value. */
  function JournalView(journal: seq<Entry>, qInput: string, sortMode: string): (r: seq<Entry>)
    ensures multiset(r) == multiset(Search(journal, qInput))
    ensures SortedBy(r, JournalKey, sortMode != "asc")
  {
    SortBy(Search(journal, qInput), JournalKey, sortMode != "asc")
  }

  /** With no two matching entries on the same date, the descending journal is
      exactly the ascending one reversed. */
  lemma JournalOrdersMirror(journal: seq<Entry>, qInput: string)
    requires NoTies(Search(journal, qInput), JournalKey)
    ensures JournalView(journal, qInput, "desc") == Reverse(JournalView(journal, qInput, "asc"))
  {
    DescendingIsReversedAscending(Search(journal, qInput), JournalKey);
  }

  /** The museum page: the matching entries, most recently updated (or created) first. */
  function MuseumView(museum: seq<Entry>, qInput: string): (r: seq<Entry>)
    ensures multiset(r) == multiset(Search(museum, qInput))
    ensures SortedBy(r, MuseumKey, true)
  {
    SortBy(Search(museum, qInput), MuseumKey, true)
  }

  /** The jar list: every note, newest first. */
  function JarView(jar: seq<JarNote>): (r: seq<JarNote>)
    ensures multiset(r) == multiset(jar)
    ensures SortedBy(r, NoteKey, true)
  {
    SortBy(jar, NoteKey, true)
  }

  /** The message history: every message, newest first. */
  function MessagesView(messages: seq<Message>): (r: seq<Message>)
    ensures multiset(r) == multiset(messages)
    ensures SortedBy(r, MessageKey, true)
  {
    SortBy(messages, MessageKey, true)
  }
}
