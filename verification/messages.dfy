/** The message composer's local history: sending stores a message (before
    it is handed to the outgoing chain), deleting removes it with its photos. */
module Messages {
  import opened Wrappers
  import opened Text
  import opened Records
  import opened Seqs
  import Photos
  import Cascade

  /** The sender name stored: the trimmed "from" input, or "Anna" when blank. */
  function SenderName(fromInput: string): (r: string)
    ensures Trim(fromInput) != [] ==> r == Trim(fromInput)
    ensures Trim(fromInput) == [] ==> r == DefaultFrom
  {
    if Trim(fromInput) == [] then DefaultFrom else Trim(fromInput)
  }

  function Composed(id: string, fromInput: string, textInput: string, pending: seq<string>, now: string): Message {
    Message(id, Some(SenderName(fromInput)), Some(Trim(textInput)), Some(pending), Some(now))
  }

  /** The "send" button. With no text and no pending photo nothing happens;
      otherwise the message, holding the pending photo ids, goes to the front
      of the history and nothing else changes. */
  function Send(st: State, pending: seq<string>, fromInput: string, textInput: string, id: string, now: string)
    : (r: State)
    ensures Trim(textInput) == [] && pending == [] ==> r == st
    ensures r == st.(messages := r.messages)
    ensures !(Trim(textInput) == [] && pending == []) ==>
      && |r.messages| == |st.messages| + 1
      && r.messages[1..] == st.messages
      && r.messages[0].id == id
      && r.messages[0].from == Some(SenderName(fromInput))
      && r.messages[0].text == Some(Trim(textInput))
      && r.messages[0].photoIds == Some(pending)
      && r.messages[0].createdAt == Some(now)
  {
    if Trim(textInput) == [] && pending == [] then st
    else st.(messages := [Composed(id, fromInput, textInput, pending, now)] + st.messages)
  }

  /** The "delete" button of a stored message: its photos are deleted, then
      every message with its id; an unknown id changes nothing. */
  function Delete(st: State, id: string): (r: State)
    ensures r == st.(messages := r.messages, photos := r.photos)
    ensures forall msg | msg in r.messages :: msg.id != id
    ensures forall msg | msg in st.messages && msg.id != id :: msg in r.messages
    ensures Subsequence(r.messages, st.messages)
    ensures forall msg | msg in st.messages :: multiset(r.messages)[msg] == if msg.id == id then 0 else multiset(st.messages)[msg]
    ensures forall i | Cascade.FirstWithId(st.messages, MessageId, id, i) ::
      r.photos.Keys == st.photos.Keys - (set p | p in MessagePhotos(st.messages[i]))
    ensures forall k | k in r.photos :: k in st.photos && r.photos[k] == st.photos[k]
    ensures (forall msg | msg in st.messages :: msg.id != id) ==> r == st
  {
    var removed := Cascade.Remove(st.messages, st.photos, id, MessageId, MessagePhotos);
    st.(messages := removed.items, photos := removed.photos)
  }

  /** Deleting a message just sent under a fresh id restores the history and
      deletes exactly the photos that were sent with it. */
  lemma DeleteUndoesSend(st: State, pending: seq<string>, fromInput: string, textInput: string, id: string, now: string)
    requires !(Trim(textInput) == [] && pending == [])
    requires forall msg | msg in st.messages :: msg.id != id
    ensures Delete(Send(st, pending, fromInput, textInput, id, now), id)
         == st.(photos := Photos.DeleteAll(st.photos, pending))
  {
    Cascade.RemoveFreshHead(Composed(id, fromInput, textInput, pending, now), st.messages, st.photos, MessageId, MessagePhotos);
  }
}
