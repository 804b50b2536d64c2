/**
 * Conversations and the messages in them, the reasoning level and the system
 * message it selects, and the per-conversation updates the front-end makes:
 * a user turn, an assistant reply with its auto-title, a rename and a clear.
 */
module Chat {
  import opened Text

  /** The `role` of a message: `"system"`, `"user"` or `"assistant"`. */
  datatype Role = System | User | Assistant

  datatype Message = Message(role: Role, content: string)

  /** The value stored under a conversation id: `{"title": ..., "messages": [...]}`. */
  datatype Conversation = Conversation(title: string, messages: seq<Message>)

  const DefaultTitle := "New Chat"

  /** `{"title": "New Chat", "messages": []}`, what "New Chat" stores. */
  const NewConversation := Conversation(DefaultTitle, [])

  // -------------------------------------------------------- reasoning level

  /** The "Reasoning Level" select box: a closed choice of three. */
  datatype Level = Low | Medium | High

  /** The fixed lookup from level to the reasoning line of the system message. */
  function Preamble(level: Level): (r: string)
    ensures StartsWith(r, "Reasoning: ")
  {
    match level
    case Low => "Reasoning: low"
    case Medium => "Reasoning: medium"
    case High => "Reasoning: high"
  }

  /** The three levels select three different preambles. */
  lemma PreambleInjective(a: Level, b: Level)
    requires a != b
    ensures Preamble(a) != Preamble(b)
  {
    assert Preamble(a)[11..] != Preamble(b)[11..];
  }

  const Persona := "You are a helpful assistant. "

  function SystemMessage(level: Level): (m: Message)
    ensures m.role == System && m.content == Persona + Preamble(level)
  {
    Message(System, Persona + Preamble(level))
  }

  /** The `messages` argument of the chat call: the system message, then the whole history in order. */
  function Request(level: Level, history: seq<Message>): (r: seq<Message>)
    ensures |r| == |history| + 1
    ensures r[0] == SystemMessage(level) && r[1..] == history
  {
    [SystemMessage(level)] + history
  }

  // ------------------------------------------------------------- auto-title

  const TitleLength := 30
  const Ellipsis := "..."

  /**
   * The title derived from a first message: a message of at most 30 characters
   * is its own title; a longer one is cut to its first 30 and marked with "...".
   */
  function AutoTitle(content: string): (t: string)
    ensures |content| <= TitleLength ==> t == content
    ensures |content| > TitleLength ==> |t| == TitleLength + |Ellipsis|
    ensures |content| > TitleLength ==> StartsWith(t, content[..TitleLength]) && EndsWith(t, Ellipsis)
  {
    if |content| > TitleLength then content[..TitleLength] + Ellipsis else content
  }

  /** A 41-character first message is cut to its first 30 characters and marked; `"Hi"` stays as it is. */
  lemma AutoTitleExamples()
    ensures AutoTitle("Explain quantum computing in simple terms") == "Explain quantum computing in s..."
    ensures AutoTitle("Hi") == "Hi"
  {
    var q := "Explain quantum computing in simple terms";
    assert |q| == 41;
    assert q[..TitleLength] == "Explain quantum computing in s";
  }

  // ------------------------------------------------- conversation updates

  /** The user's prompt appended to the conversation as a user message. */
  function AddUserMessage(c: Conversation, prompt: string): (r: Conversation)
    ensures r.title == c.title
    ensures r.messages == c.messages + [Message(User, prompt)]
  {
    c.(messages := c.messages + [Message(User, prompt)])
  }

  /**
   * The assistant's reply appended; when that brings the conversation to exactly
   * two messages, the title is re-derived from the first one.
   */
  function AddReply(c: Conversation, answer: string): (r: Conversation)
    ensures r.messages == c.messages + [Message(Assistant, answer)]
    ensures r.title != c.title ==> |r.messages| == 2
    ensures |r.messages| == 2 ==> r.title == AutoTitle(c.messages[0].content)
  {
    var msgs := c.messages + [Message(Assistant, answer)];
    Conversation(if |msgs| == 2 then AutoTitle(msgs[0].content) else c.title, msgs)
  }

  /** A completed turn appends exactly the user message and then the reply, leaving earlier messages as they were. */
  lemma TurnAppendsPair(c: Conversation, prompt: string, answer: string)
    ensures var r := AddReply(AddUserMessage(c, prompt), answer);
      && |r.messages| == |c.messages| + 2
      && r.messages[..|c.messages|] == c.messages
      && r.messages[|c.messages|] == Message(User, prompt)
      && r.messages[|c.messages| + 1] == Message(Assistant, answer)
  {
    var r := AddReply(AddUserMessage(c, prompt), answer);
    assert r.messages == c.messages + [Message(User, prompt), Message(Assistant, answer)];
  }

  /** The first exchange of an empty conversation titles it after the prompt. */
  lemma FirstExchangeTitles(c: Conversation, prompt: string, answer: string)
    requires c.messages == []
    ensures AddReply(AddUserMessage(c, prompt), answer).title == AutoTitle(prompt)
  {
  }

  /** Any later exchange keeps the title. */
  lemma LaterExchangeKeepsTitle(c: Conversation, prompt: string, answer: string)
    requires c.messages != []
    ensures AddReply(AddUserMessage(c, prompt), answer).title == c.title
  {
  }

  /**
   * A turn that failed leaves its user message behind, so the next successful
   * turn brings the conversation to three messages and the default title stays.
   */
  lemma FailedFirstTurnKeepsTitle(c: Conversation, lost: string, prompt: string, answer: string)
    requires c.messages == []
    ensures var r := AddReply(AddUserMessage(AddUserMessage(c, lost), prompt), answer);
      |r.messages| == 3 && r.title == c.title
  {
  }

  /** A rename: the input with surrounding whitespace removed becomes the title, but blank input keeps the old title. */
  function Renamed(c: Conversation, input: string): (r: Conversation)
    ensures r.messages == c.messages
    ensures AllSpace(input) ==> r.title == c.title
    ensures !AllSpace(input) ==> r.title == Strip(input) && r.title != []
  {
    StripEmptyIff(input);
    var t := Strip(input);
    c.(title := if t != [] then t else c.title)
  }

  /** A clear: title kept, messages gone. */
  function Cleared(c: Conversation): (r: Conversation)
    ensures r.title == c.title && r.messages == []
  {
    c.(messages := [])
  }
}
