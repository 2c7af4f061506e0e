/**
 * The chat window of one conversation: the message list, the text typed so
 * far, sending a message, and the two later status updates that mark the
 * sent message delivered and then read. The clock and the id the source
 * derives from it are parameters; the one- and two-second delays of the
 * updates are not modelled, each update is an operation of its own.
 */
module ChatWindow {
  import opened Common
  import opened Strings

  datatype MessageStatus = Sent | Delivered | Read | Failed

  datatype MessageKind = TextMessage | Image | Video | Document | TemplateMessage

  datatype Message = Message(
    id: string,
    text: string,
    timestamp: int,
    senderId: string,
    senderName: string,
    status: MessageStatus,
    kind: MessageKind,
    mediaUrl: Option<string>,
    templateName: Option<string>)

  datatype Chat = Chat(messages: seq<Message>, input: string)

  /** The stored messages of the conversation, or none. */
  function InitialMessages(stored: map<string, seq<Message>>, conversationId: string): (r: seq<Message>)
    ensures conversationId in stored ==> r == stored[conversationId]
    ensures conversationId !in stored ==> r == []
  {
    if conversationId in stored then stored[conversationId] else []
  }

  /** The window as it opens: the stored messages and an empty input. */
  function Open(stored: map<string, seq<Message>>, conversationId: string): (r: Chat)
    ensures r.input == ""
    ensures conversationId in stored ==> r.messages == stored[conversationId]
    ensures conversationId !in stored ==> r.messages == []
  {
    Chat(InitialMessages(stored, conversationId), "")
  }

  /** The message a send creates from the typed text, untrimmed. */
  function Outgoing(text: string, id: string, now: int): Message {
    Message(id, text, now, "me", "You", Sent, TextMessage, None, None)
  }

  /**
   * `handleSend`: a blank input does nothing; otherwise the typed text is
   * appended as an outgoing message and the input is cleared.
   */
  function HandleSend(chat: Chat, id: string, now: int): (r: Chat)
    ensures IsBlank(chat.input) ==> r == chat
    ensures !IsBlank(chat.input) ==> r == Chat(chat.messages + [Outgoing(chat.input, id, now)], "")
  {
    TrimEmptyIffBlank(chat.input);
    if Trim(chat.input) == "" then chat
    else Chat(chat.messages + [Outgoing(chat.input, id, now)], "")
  }

  /** The delivered and read updates: the message with that id takes the new status, every other message is kept. */
  function SetStatus(messages: seq<Message>, id: string, status: MessageStatus): (r: seq<Message>)
    ensures |r| == |messages|
    ensures forall i :: 0 <= i < |messages| && messages[i].id != id ==> r[i] == messages[i]
    ensures forall i :: 0 <= i < |messages| && messages[i].id == id ==> r[i] == messages[i].(status := status)
  {
    seq(|messages|, i requires 0 <= i < |messages| => if messages[i].id == id then messages[i].(status := status) else messages[i])
  }

  /** A later update wins: marking read after delivered is marking read. */
  lemma LaterStatusWins(messages: seq<Message>, id: string, first: MessageStatus, second: MessageStatus)
    ensures SetStatus(SetStatus(messages, id, first), id, second) == SetStatus(messages, id, second)
  {
  }

  /** An update for an id that is not in the list changes nothing. */
  lemma UnknownIdUnchanged(messages: seq<Message>, id: string, status: MessageStatus)
    requires forall m :: m in messages ==> m.id != id
    ensures SetStatus(messages, id, status) == messages
  {
    assert forall i :: 0 <= i < |messages| ==> messages[i] in messages;
  }

  /**
   * Sending a non-blank text under a fresh id, then the two updates: the
   * earlier messages are untouched, the new message is last, read, and
   * carries the text exactly as typed.
   */
  lemma SendDeliverRead(chat: Chat, id: string, now: int)
    requires !IsBlank(chat.input)
    requires forall m :: m in chat.messages ==> m.id != id
    ensures var sent := HandleSend(chat, id, now);
            var read := SetStatus(SetStatus(sent.messages, id, Delivered), id, Read);
            && sent.input == ""
            && |read| == |chat.messages| + 1
            && read[..|chat.messages|] == chat.messages
            && read[|chat.messages|] == Outgoing(chat.input, id, now).(status := Read)
            && read[|chat.messages|].text == chat.input
  {
    var sent := HandleSend(chat, id, now);
    LaterStatusWins(sent.messages, id, Delivered, Read);
    var read := SetStatus(sent.messages, id, Read);
    forall i | 0 <= i < |chat.messages|
      ensures read[i] == chat.messages[i]
    {
      assert chat.messages[i] in chat.messages;
      assert sent.messages[i] == chat.messages[i];
    }
  }
}
