/** Message attribution in the message list (frontend/src/components/Chat/MessageList.jsx):
    whether a message is the current user's, which name is shown for its sender, when
    that name is displayed, and the key of each row. */
module MessageList {
  import opened Protocol

  /** The shapes `message.sender` takes: missing, a raw id string (as sent by the client),
      or an object (a populated user with `_id` and `username`, or any other object,
      whose `toString()` is `text`). */
  datatype Sender =
    | NoSender
    | IdText(id: string)
    | Doc(docId: Field, username: Field, text: string)

  datatype ChatMessage = ChatMessage(id: Field, sender: Sender, content: string)

  /** `!message.sender` is false: a sender object, or a non-empty id string. */
  predicate HasSender(s: Sender)
    ensures HasSender(s) <==> s != NoSender && s != IdText("")
  {
    s.Doc? || (s.IdText? && s.id != "")
  }

  /** The id the list attributes a message to: the raw id, the populated `_id`, or,
      for an object without `_id`, its `toString()`. */
  function Identity(s: Sender): Option<string> {
    match s
    case NoSender => None
    case IdText(id) => if id != "" then Some(id) else None
    case Doc(docId, _, text) => if Truthy(docId) then Some(docId.value) else Some(text)
  }

  /** `isCurrentUser` (MessageList.jsx:24-36). */
  function IsCurrentUser(message: Option<ChatMessage>, me: UserId): (b: bool)
    ensures message.None? || !HasSender(message.value.sender) ==> !b
    ensures message.Some? && message.value.sender.IdText? && message.value.sender.id != "" ==>
              (b <==> message.value.sender.id == me)
    ensures message.Some? && message.value.sender.Doc? && Truthy(message.value.sender.docId) ==>
              (b <==> message.value.sender.docId.value == me)
    ensures message.Some? && message.value.sender.Doc? && !Truthy(message.value.sender.docId) ==>
              (b <==> message.value.sender.text == me)
  {
    if message.None? || !HasSender(message.value.sender) then false
    else
      match message.value.sender
      case IdText(id) => id == me
      case Doc(docId, _, text) =>
        if Truthy(docId) then docId.value == me
        else if text == me then true
        else false
  }

  /** A message counts as the current user's exactly when the id it is attributed to is
      the current user's id. */
  lemma IsCurrentUserByIdentity(message: ChatMessage, me: UserId)
    ensures IsCurrentUser(Some(message), me) <==> Identity(message.sender) == Some(me)
  {
  }

  /** `getSenderName` (MessageList.jsx:39-49). */
  function SenderName(message: ChatMessage): (name: string)
    ensures !HasSender(message.sender) ==> name == "Unknown"
    ensures message.sender.IdText? && message.sender.id != "" ==> name == "You"
    ensures message.sender.Doc? ==>
              name == if Truthy(message.sender.username) then message.sender.username.value else "Unknown"
  {
    if !HasSender(message.sender) then "Unknown"
    else if message.sender.IdText? then "You"
    else if Truthy(message.sender.username) then message.sender.username.value
    else "Unknown"
  }

  /** A raw id string is labelled "You" even when it is another user's id, and such a
      message is still not counted as the current user's. */
  lemma RawIdOfOtherLabelledYou(id: string, me: UserId, content: string)
    requires id != "" && id != me
    ensures var m := ChatMessage(Absent, IdText(id), content);
            SenderName(m) == "You" && !IsCurrentUser(Some(m), me)
  {
  }

  /** The condition of MessageList.jsx:73 for showing the sender's name. */
  function ShowsSenderName(message: ChatMessage, me: UserId): (shown: bool)
    ensures IsCurrentUser(Some(message), me) ==> !shown
    ensures message.sender.IdText? && message.sender.id != "" ==> !shown
  {
    !IsCurrentUser(Some(message), me) && SenderName(message) != "You"
  }

  /** A name is shown only for a message that has no usable raw id and is attributed to
      someone else, and never for a populated sender whose username is "You". */
  lemma ShowsSenderNameExactly(message: ChatMessage, me: UserId)
    ensures ShowsSenderName(message, me) <==>
              && !(message.sender.IdText? && message.sender.id != "")
              && Identity(message.sender) != Some(me)
              && !(message.sender.Doc? && message.sender.username == Str("You"))
  {
    IsCurrentUserByIdentity(message, me);
  }

  /** A React row key. */
  datatype RowKey = ById(id: string) | ByIndex(index: nat)

  /** `message._id || index` (MessageList.jsx:66). */
  function KeyOf(message: ChatMessage, index: nat): (k: RowKey)
    ensures Truthy(message.id) ==> k == ById(message.id.value)
    ensures !Truthy(message.id) ==> k == ByIndex(index)
  {
    if Truthy(message.id) then ById(message.id.value) else ByIndex(index)
  }

  /** Rows of one list get distinct keys exactly when the messages that carry an `_id`
      carry pairwise distinct ones: rows without an `_id` fall back to their distinct
      positions, so only two equal `_id`s can make two keys collide. */
  lemma KeysDistinct(ms: seq<ChatMessage>)
    ensures (forall i, j | 0 <= i < j < |ms| :: KeyOf(ms[i], i) != KeyOf(ms[j], j)) <==>
            (forall i, j | 0 <= i < j < |ms| && Truthy(ms[i].id) && Truthy(ms[j].id) :: ms[i].id != ms[j].id)
  {
  }
}
