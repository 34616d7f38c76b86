/** Handing a message to the outside world: the one-line payload and the
    chain native share, then WhatsApp link, then mailto link, then
    clipboard. Whether the platform offers and completes a native share is
    a parameter; URL encoding and the navigation itself are not modelled. */
module Outgoing {
  import opened Wrappers
  import opened Text
  import opened Records
  import Messages

  /** The payload header: `[<day>] <sender>: `. */
  function Header(from: string, stamp: string): string {
    "[" + stamp + "] " + from + ": "
  }

  /** `formatOutgoing(from, text)`, with `dayISO()` as `stamp`: "" when the
      text is blank, otherwise the header followed by the trimmed text. */
  function FormatOutgoing(from: string, text: string, stamp: string): (r: string)
    ensures r == [] <==> AllSpace(text)
    ensures r != [] ==> |r| > |Header(from, stamp)|
    ensures r != [] ==> r[..|Header(from, stamp)|] == Header(from, stamp)
    ensures r != [] ==> r[|Header(from, stamp)|..] == Trim(text) && Trimmed(r[|Header(from, stamp)|..])
  {
    TrimEmptyIffAllSpace(text);
    TrimIdempotent(text);
    var t := Trim(text);
    if t == [] then [] else Header(from, stamp) + t
  }

  /** Trimming the text before formatting, as the send handler does, changes nothing. */
  lemma FormatIgnoresPriorTrim(from: string, text: string, stamp: string)
    ensures FormatOutgoing(from, Trim(text), stamp) == FormatOutgoing(from, text, stamp)
  {
    TrimIdempotent(text);
  }

  /** What `navigator.share` does: absent, rejected (the user cancelled or it threw), or completed. */
  datatype ShareResult = NoShareApi | ShareRejected | Shared

  /** Where the payload goes. */
  datatype Channel =
    | Nothing
    | NativeShare(payload: string)
    | WhatsApp(number: string, payload: string)
    | Email(address: string, payload: string)
    | Clipboard(payload: string)

  function WhatsappTarget(s: Settings): string { Trim(Or(s.toWhatsapp, "")) }
  function EmailTarget(s: Settings): string { Trim(Or(s.toEmail, "")) }

  /** `sendOutMessage({ from, text })`: nothing for a blank text; otherwise
      the first channel of the chain that takes the payload. */
  function SendOut(from: string, text: string, stamp: string, share: ShareResult, s: Settings): (c: Channel)
    ensures c == Nothing <==> AllSpace(text)
    ensures c.NativeShare? <==> !AllSpace(text) && share == Shared
    ensures c.WhatsApp? <==> !AllSpace(text) && share != Shared && WhatsappTarget(s) != []
    ensures c.Email? <==> !AllSpace(text) && share != Shared && WhatsappTarget(s) == [] && EmailTarget(s) != []
    ensures c.Clipboard? <==> !AllSpace(text) && share != Shared && WhatsappTarget(s) == [] && EmailTarget(s) == []
    ensures c.WhatsApp? ==> c.number == WhatsappTarget(s) && c.number != []
    ensures c.Email? ==> c.address == EmailTarget(s) && c.address != []
    ensures c != Nothing ==> c.payload == FormatOutgoing(from, text, stamp)
  {
    var payload := FormatOutgoing(from, text, stamp);
    if payload == [] then Nothing
    else if share == Shared then NativeShare(payload)
    else if WhatsappTarget(s) != [] then WhatsApp(WhatsappTarget(s), payload)
    else if EmailTarget(s) != [] then Email(EmailTarget(s), payload)
    else Clipboard(payload)
  }

  /** The "copy" button: the payload built from the composer's inputs, or
      None when there is nothing to copy. */
  function CopyPayload(fromInput: string, textInput: string, stamp: string): (r: Option<string>)
    ensures r.None? <==> AllSpace(textInput)
    ensures r.Some? ==> r.value == FormatOutgoing(Messages.SenderName(fromInput), textInput, stamp)
  {
    FormatIgnoresPriorTrim(Messages.SenderName(fromInput), textInput, stamp);
    var payload := FormatOutgoing(Messages.SenderName(fromInput), Trim(textInput), stamp);
    TrimEmptyIffAllSpace(payload);
    assert payload != [] ==> payload[0] == Header(Messages.SenderName(fromInput), stamp)[0] == '[';
    if Trim(payload) == [] then None else Some(payload)
  }

  /** The "send" button: the message is stored first, then handed to the chain. */
  function SendButton(st: State, pending: seq<string>, fromInput: string, textInput: string, id: string,
                      now: string, stamp: string, share: ShareResult): (r: (State, Channel))
    ensures r.0 == Messages.Send(st, pending, fromInput, textInput, id, now)
    ensures AllSpace(textInput) && pending == [] ==> r == (st, Nothing)
    ensures !AllSpace(textInput) ==>
      r.1 == SendOut(Messages.SenderName(fromInput), textInput, stamp, share, st.settings)
  {
    TrimEmptyIffAllSpace(textInput);
    if Trim(textInput) == [] && pending == [] then (st, Nothing)
    else
      FormatIgnoresPriorTrim(Messages.SenderName(fromInput), textInput, stamp);
      (Messages.Send(st, pending, fromInput, textInput, id, now),
       SendOut(Messages.SenderName(fromInput), Trim(textInput), stamp, share, st.settings))
  }

  /** A message of photos only is stored locally but goes out on no channel:
      the photos never leave the device. */
  lemma PhotoOnlyMessageStaysLocal(st: State, pending: seq<string>, fromInput: string, textInput: string,
                                   id: string, now: string, stamp: string, share: ShareResult)
    requires AllSpace(textInput) && pending != []
    ensures |SendButton(st, pending, fromInput, textInput, id, now, stamp, share).0.messages| == |st.messages| + 1
    ensures SendButton(st, pending, fromInput, textInput, id, now, stamp, share).1 == Nothing
  {
    TrimEmptyIffAllSpace(textInput);
    TrimIdempotent(textInput);
    TrimEmptyIffAllSpace(Trim(textInput));
  }

  /** A missing sender interpolates into the template as "undefined". */
  function SenderText(from: Option<string>): string {
    match from
    case Some(f) => f
    case None => "undefined"
  }

  /** The "send again" action of a stored message: the chain run on its
      stored sender and text. */
  function Resend(m: Message, stamp: string, share: ShareResult, s: Settings): (c: Channel)
    ensures c == Nothing <==> AllSpace(Or(m.text, ""))
    ensures c != Nothing ==> c.payload == FormatOutgoing(SenderText(m.from), Or(m.text, ""), stamp)
  {
    SendOut(SenderText(m.from), Or(m.text, ""), stamp, share, s)
  }

  /** Sending a message again later picks the same channel and payload as
      sending it the first time, given the same day, share outcome and
      settings. */
  lemma ResendRepeatsSend(st: State, pending: seq<string>, fromInput: string, textInput: string, id: string,
                          now: string, stamp: string, share: ShareResult)
    requires !AllSpace(textInput)
    ensures var sent := SendButton(st, pending, fromInput, textInput, id, now, stamp, share);
      Resend(sent.0.messages[0], stamp, share, st.settings) == sent.1
  {
    TrimEmptyIffAllSpace(textInput);
    TrimIdempotent(textInput);
    TrimEmptyIffAllSpace(Trim(textInput));
    FormatIgnoresPriorTrim(Messages.SenderName(fromInput), textInput, stamp);
    assert Or(Some(Trim(textInput)), "") == Trim(textInput);
  }
}
