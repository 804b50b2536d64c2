/**
 * The front-end's session state: the conversations dict, the current
 * conversation id, and what was last written to `conversations.json`.  Each
 * sidebar action and each chat turn is a method that updates this state in
 * place, as the script body does on every rerun.
 */
module Session {
  import opened Optional
  import opened OrderedDict
  import opened Chat
  import opened Replies
  import opened Text

  type Id = Key

  /** How the streamed chat call ended: with a stream of chunks, or by raising. */
  datatype StreamReply = Streamed(chunks: seq<Chunk>) | CallRaised

  /** How the non-streamed chat call ended. */
  datatype ChatReply = Completed(resp: ChatResponse) | RaisedAttributeError | RaisedOther

  /** How the text-generation call ended. */
  datatype TextReply = Generated(text: string) | TextRaised

  /** The answer a streamed turn commits, if it commits one. */
  function StreamedAnswer(reply: StreamReply): (a: Option<string>)
    ensures a.Some? <==> reply.Streamed? && Readable(reply.chunks)
    ensures a.Some? ==> a.value == Accumulated(reply.chunks)
    ensures a.Some? && NoReplacement(reply.chunks) ==> a.value == Deltas(reply.chunks)
  {
    if reply.Streamed? && Readable(reply.chunks) then Some(Accumulated(reply.chunks)) else None
  }

  /**
   * The answer a turn with the text-generation fallback commits: the extracted
   * chat text, or the generated text when the chat call raised AttributeError;
   * any other failure commits nothing.
   */
  function FallbackAnswer(chat: ChatReply, text: TextReply): (a: Option<string>)
    ensures chat.Completed? ==> a == Some(ExtractAssistantText(chat.resp))
    ensures chat.Completed? ==> IsStripped(a.value)
    ensures chat.RaisedAttributeError? ==> (a.Some? <==> text.Generated?)
    ensures chat.RaisedAttributeError? && text.Generated? ==> a == Some(text.text)
    ensures chat.RaisedOther? ==> a.None?
  {
    match chat
    case Completed(resp) => Some(ExtractAssistantText(resp))
    case RaisedAttributeError => if text.Generated? then Some(text.text) else None
    case RaisedOther => None
  }

  /**
   * What a turn with the fallback makes of the provider's replies: the
   * flattened prompt it sends when the chat call raised AttributeError, and the
   * answer it commits, if any.
   */
  method FallbackTurnAnswer(level: Level, msgs: seq<Message>, chat: ChatReply, text: TextReply)
    returns (fallbackPrompt: Option<string>, answer: Option<string>)
    ensures fallbackPrompt.Some? <==> chat.RaisedAttributeError?
    ensures fallbackPrompt.Some? ==> fallbackPrompt.value == FallbackPrompt(level, msgs)
    ensures answer == FallbackAnswer(chat, text)
  {
    fallbackPrompt, answer := None, None;
    match chat {
      case Completed(resp) =>
        answer := Some(ExtractAssistantText(resp));
      case RaisedAttributeError =>
        var p := BuildFallbackPrompt(level, msgs);
        fallbackPrompt := Some(p);
        if text.Generated? {
          answer := Some(text.text);
        }
      case RaisedOther =>
    }
  }

  class Session {
    var conversations: Dict<Conversation>
    var cur: Option<Id>
    /** The conversations as last written to `conversations.json`. */
    var saved: Dict<Conversation>

    ghost predicate Valid()
      reads this
    {
      conversations.Valid() && saved.Valid()
      && (cur.Some? ==> cur.value in conversations.values)
    }

    /** Python truthiness of the current id: set and not the empty string. */
    predicate HasCurrent()
      reads this
    {
      cur.Some? && cur.value != ""
    }

    /** A uuid4 string: never empty, never an existing key. */
    predicate IsFreshId(id: Id)
      reads this
    {
      id != "" && id !in conversations.values
    }

    /** The conversation a turn writes to: the current one, or a new one under the fresh id. */
    ghost function TurnId(freshId: Id): Id
      reads this
    {
      if HasCurrent() then cur.value else freshId
    }

    /** That conversation before the turn. */
    ghost function TurnBase(freshId: Id): Conversation
      reads this
      requires Valid()
    {
      if HasCurrent() then conversations.values[cur.value] else NewConversation
    }

    /** Start of a session: the loaded dict, and its first key (if any) as current. */
    constructor (loaded: Dict<Conversation>)
      requires loaded.Valid()
      ensures Valid()
      ensures conversations == loaded && saved == loaded
      ensures cur == loaded.First()
    {
      conversations := loaded;
      saved := loaded;
      cur := loaded.First();
    }

    /** "New Chat": a fresh id mapped to an empty "New Chat" conversation, inserted last and made current. */
    method NewChat(id: Id)
      requires Valid() && IsFreshId(id)
      modifies this
      ensures Valid()
      ensures conversations.keys == old(conversations.keys) + [id]
      ensures conversations.values == old(conversations.values)[id := NewConversation]
      ensures cur == Some(id)
      ensures saved == conversations
    {
      conversations := conversations.Put(id, NewConversation);
      cur := Some(id);
      saved := conversations;
    }

    /** Clicking a conversation's title makes it current; nothing is written. */
    method Select(id: Id)
      requires Valid() && id in conversations.values
      modifies this
      ensures Valid()
      ensures cur == Some(id)
      ensures conversations == old(conversations) && saved == old(saved)
    {
      cur := Some(id);
    }

    /**
     * "Delete" in the two simpler front-ends: pop the id whether or not it is
     * present, then make the first remaining key current, and save.
     */
    method Delete(id: Id)
      requires Valid()
      modifies this
      ensures Valid()
      ensures conversations == old(conversations).Pop(id)
      ensures cur == conversations.First()
      ensures saved == conversations
    {
      conversations := conversations.Pop(id);
      cur := conversations.First();
      saved := conversations;
    }

    /** "Delete" in the deployed front-end: all of the above, only when the id is present. */
    method DeleteIfPresent(id: Id)
      requires Valid()
      modifies this
      ensures Valid()
      ensures id !in old(conversations.values) ==>
        conversations == old(conversations) && cur == old(cur) && saved == old(saved)
      ensures id in old(conversations.values) ==>
        conversations == old(conversations).Pop(id) && cur == conversations.First() && saved == conversations
    {
      if id in conversations.values {
        conversations := conversations.Pop(id);
        cur := conversations.First();
        saved := conversations;
      }
    }

    /** "Save" under "Rename": the trimmed input becomes the title unless it is blank; saved. */
    method Rename(id: Id, input: string)
      requires Valid() && id in conversations.values
      modifies this
      ensures Valid()
      ensures conversations == old(conversations).Put(id, Renamed(old(conversations.values[id]), input))
      ensures cur == old(cur) && saved == conversations
    {
      var renamed := Renamed(conversations.values[id], input);
      conversations := conversations.Put(id, renamed);
      saved := conversations;
    }

    /** "Clear Current Chat": the current conversation's messages emptied, title kept; saved. No current id, no change. */
    method ClearCurrent()
      requires Valid()
      modifies this
      ensures Valid()
      ensures cur == old(cur)
      ensures !old(HasCurrent()) ==> conversations == old(conversations) && saved == old(saved)
      ensures old(HasCurrent()) ==>
        conversations == old(conversations).Put(cur.value, Cleared(old(conversations.values[cur.value])))
        && saved == conversations
    {
      if HasCurrent() {
        var id := cur.value;
        conversations := conversations.Put(id, Cleared(conversations.values[id]));
        saved := conversations;
      }
    }

    /**
     * The part every turn shares: with no current conversation a new empty one
     * is created under `freshId` and made current; the user message is then
     * appended in memory (not saved).
     */
    method BeginTurn(prompt: string, freshId: Id) returns (id: Id, msgs: seq<Message>)
      requires Valid() && IsFreshId(freshId)
      modifies this
      ensures Valid()
      ensures id == old(TurnId(freshId)) && cur == Some(id)
      ensures msgs == AddUserMessage(old(TurnBase(freshId)), prompt).messages
      ensures conversations == old(conversations).Put(id, AddUserMessage(old(TurnBase(freshId)), prompt))
      ensures saved == old(saved)
    {
      if !HasCurrent() {
        id := freshId;
        cur := Some(id);
        conversations := conversations.Put(id, NewConversation);
      } else {
        id := cur.value;
      }
      var c := conversations.values[id];
      msgs := c.messages + [Message(User, prompt)];
      conversations := conversations.Put(id, c.(messages := msgs));
    }

    /** The assistant's answer appended to conversation `id`, its title set on the first exchange; saved. */
    method CommitAnswer(id: Id, answer: string)
      requires Valid() && id in conversations.values
      modifies this
      ensures Valid()
      ensures conversations == old(conversations).Put(id, AddReply(old(conversations.values[id]), answer))
      ensures cur == old(cur) && saved == conversations
    {
      conversations := conversations.Put(id, AddReply(conversations.values[id], answer));
      saved := conversations;
    }

    /**
     * A turn with a streamed reply: the request is the system message and the
     * history; the chunks are accumulated and the result committed once, after
     * the stream ends.  If the call or the stream raises, the user message stays
     * in memory and nothing is saved.
     */
    method SendStreamed(prompt: string, level: Level, freshId: Id, reply: StreamReply)
      returns (request: seq<Message>, committed: bool)
      requires Valid() && IsFreshId(freshId)
      modifies this
      ensures Valid()
      ensures cur == Some(old(TurnId(freshId)))
      ensures request == Request(level, AddUserMessage(old(TurnBase(freshId)), prompt).messages)
      ensures committed <==> StreamedAnswer(reply).Some?
      ensures committed ==>
        conversations == old(conversations).Put(old(TurnId(freshId)),
          AddReply(AddUserMessage(old(TurnBase(freshId)), prompt), StreamedAnswer(reply).value))
        && saved == conversations
      ensures !committed ==>
        conversations == old(conversations).Put(old(TurnId(freshId)), AddUserMessage(old(TurnBase(freshId)), prompt))
        && saved == old(saved)
    {
      ghost var before, turn := conversations, AddUserMessage(TurnBase(freshId), prompt);
      var id, msgs := BeginTurn(prompt, freshId);
      request := Request(level, msgs);
      committed := false;
      if reply.Streamed? {
        var ok, out := Accumulate(reply.chunks);
        if ok {
          CommitAnswer(id, out);
          PutTwice(before, id, turn, AddReply(turn, out));
          committed := true;
        }
      }
    }

    /**
     * A turn with the non-streamed chat call: on AttributeError the history is
     * flattened into one prompt for the text-generation call (returned as
     * `fallbackPrompt`); any other failure of either call commits nothing and
     * leaves the user message in memory, unsaved.
     */
    method SendWithFallback(prompt: string, level: Level, freshId: Id, chat: ChatReply, text: TextReply)
      returns (request: seq<Message>, fallbackPrompt: Option<string>, committed: bool)
      requires Valid() && IsFreshId(freshId)
      modifies this
      ensures Valid()
      ensures cur == Some(old(TurnId(freshId)))
      ensures request == Request(level, AddUserMessage(old(TurnBase(freshId)), prompt).messages)
      ensures fallbackPrompt.Some? <==> chat.RaisedAttributeError?
      ensures fallbackPrompt.Some? ==>
        fallbackPrompt.value == FallbackPrompt(level, AddUserMessage(old(TurnBase(freshId)), prompt).messages)
      ensures committed <==> FallbackAnswer(chat, text).Some?
      ensures committed ==>
        conversations == old(conversations).Put(old(TurnId(freshId)),
          AddReply(AddUserMessage(old(TurnBase(freshId)), prompt), FallbackAnswer(chat, text).value))
        && saved == conversations
      ensures !committed ==>
        conversations == old(conversations).Put(old(TurnId(freshId)), AddUserMessage(old(TurnBase(freshId)), prompt))
        && saved == old(saved)
    {
      ghost var before, turn := conversations, AddUserMessage(TurnBase(freshId), prompt);
      var id, msgs := BeginTurn(prompt, freshId);
      request := Request(level, msgs);
      var answer;
      fallbackPrompt, answer := FallbackTurnAnswer(level, msgs, chat, text);
      committed := answer.Some?;
      if committed {
        CommitAnswer(id, answer.value);
        PutTwice(before, id, turn, AddReply(turn, answer.value));
      }
    }
  }
}
