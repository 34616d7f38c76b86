/** The note jar: adding a note from the input box and deleting one by id. */
module Jar {
  import opened Wrappers
  import opened Text
  import opened Records
  import opened Seqs

  /** The "add" button: a note with the trimmed text is put at the front of the
      jar; a blank input is ignored. */
  function Add(st: State, input: string, id: string, now: string): (r: State)
    ensures Trim(input) == [] ==> r == st
    ensures Trim(input) != [] ==>
      && |r.jar| == |st.jar| + 1
      && r.jar[1..] == st.jar
      && r.jar[0].id == id && r.jar[0].text == Some(Trim(input)) && r.jar[0].createdAt == Some(now)
    ensures r == st.(jar := r.jar)
  {
    var v := Trim(input);
    if v == [] then st
    else st.(jar := [JarNote(id, Some(v), Some(now))] + st.jar)
  }

  /** The "delete" button: every note with the id goes, every other note stays
      in its place. */
  function Delete(st: State, id: string): (r: State)
    ensures forall n | n in r.jar :: n.id != id
    ensures forall n | n in st.jar && n.id != id :: n in r.jar
    ensures Subsequence(r.jar, st.jar)
    ensures forall n | n in st.jar :: multiset(r.jar)[n] == if n.id == id then 0 else multiset(st.jar)[n]
    ensures r == st.(jar := r.jar)
  {
    FilterIsSubsequence(st.jar, (n: JarNote) => n.id != id);
    st.(jar := Filter(st.jar, (n: JarNote) => n.id != id))
  }

  /** Deleting a note just added under a fresh id gives back the jar as it was. */
  lemma DeleteUndoesAdd(st: State, input: string, id: string, now: string)
    requires forall n | n in st.jar :: n.id != id
    ensures Delete(Add(st, input, id, now), id) == st
  {
    var added := Add(st, input, id, now);
    if Trim(input) != [] {
      assert added.jar == [added.jar[0]] + st.jar;
    }
  }
}
