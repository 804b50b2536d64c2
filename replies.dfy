/**
 * What the front-end makes of the inference provider's answers, and the text it
 * sends when the structured chat call is not available.  The provider itself is
 * not modelled: its answers are inputs, a sequence of stream chunks or a
 * response record whose fields may be missing.
 */
module Replies {
  import opened Optional
  import opened Text
  import opened Chat

  /**
   * A value the front-end reads from a reply object: missing or None, a string,
   * or some other object, which Python counts as true or false.
   */
  datatype Field = Missing | Str(s: string) | NonString(truthy: bool)

  predicate Truthy(f: Field) {
    match f
    case Missing => false
    case Str(s) => s != ""
    case NonString(t) => t
  }

  // ------------------------------------------------------------- streaming

  /**
   * One chunk of a streamed chat completion.  `hasChoice` is false when the chunk
   * has no first choice (reading it raises); `delta` is the first choice's delta
   * content (`Missing` when there is no delta or its content is None);
   * `generatedText` is `None` when the chunk has no `generated_text` attribute,
   * and otherwise that attribute's value, which may itself be None.
   */
  datatype Chunk = Chunk(hasChoice: bool, delta: Field, generatedText: Option<Field>)

  /** A chunk without delta content that has a `generated_text` attribute replaces everything received so far. */
  predicate Replaces(ch: Chunk) {
    ch.delta.Missing? && ch.generatedText.Some?
  }

  /**
   * A chunk the loop gets through without raising: it has a first choice; a
   * replacing chunk's `generated_text` is a string (anything else, None
   * included, makes the next concatenation with the cursor raise); and a truthy
   * delta content is a string (anything else cannot be appended to text).
   */
  predicate ChunkReadable(ch: Chunk) {
    && ch.hasChoice
    && (Replaces(ch) ==> ch.generatedText.value.Str?)
    && (Truthy(ch.delta) ==> ch.delta.Str?)
  }

  predicate Readable(chunks: seq<Chunk>) {
    forall k :: 0 <= k < |chunks| ==> ChunkReadable(chunks[k])
  }

  /** The delta content a chunk contributes when it does not replace: its string, or nothing. */
  function DeltaText(ch: Chunk): string {
    if ch.delta.Str? then ch.delta.s else ""
  }

  /** The concatenation of all delta contents, in order: the reference for a stream without replacements. */
  function Deltas(chunks: seq<Chunk>): string
    decreases |chunks|
  {
    if chunks == [] then "" else Deltas(chunks[..|chunks| - 1]) + DeltaText(chunks[|chunks| - 1])
  }

  predicate NoReplacement(chunks: seq<Chunk>) {
    forall k :: 0 <= k < |chunks| ==> !Replaces(chunks[k])
  }

  /**
   * The text so far after one more chunk: a replacing chunk's `generated_text`
   * takes its place; any other chunk appends its delta content, which leaves the
   * text as it was when that content is empty or falsy.
   */
  function Step(out: string, ch: Chunk): (r: string)
    requires ChunkReadable(ch)
    ensures Replaces(ch) ==> r == ch.generatedText.value.s
    ensures !Replaces(ch) ==> r == out + DeltaText(ch)
  {
    if Replaces(ch) then ch.generatedText.value.s
    else if Truthy(ch.delta) then out + ch.delta.s
    else
      assert out + DeltaText(ch) == out;
      out
  }

  /**
   * The text accumulated from the chunks in delivery order, starting from the
   * empty string.  Without a replacing chunk it is the concatenation of the
   * delta contents.
   */
  function Accumulated(chunks: seq<Chunk>): (r: string)
    requires Readable(chunks)
    ensures NoReplacement(chunks) ==> r == Deltas(chunks)
    decreases |chunks|
  {
    if chunks == [] then ""
    else
      var init := chunks[..|chunks| - 1];
      assert forall k :: 0 <= k < |init| ==> init[k] == chunks[k];
      Step(Accumulated(init), chunks[|chunks| - 1])
  }

  lemma ReadableAppend(a: seq<Chunk>, b: seq<Chunk>)
    requires Readable(a) && Readable(b)
    ensures Readable(a + b)
  {
    forall k | 0 <= k < |a + b| ensures ChunkReadable((a + b)[k]) {
      if k >= |a| { assert (a + b)[k] == b[k - |a|]; }
    }
  }

  /** Chunks that replace nothing only extend the text: each one's delta is appended in order. */
  lemma {:induction false} AccumulatedExtends(prefix: seq<Chunk>, tail: seq<Chunk>)
    requires Readable(prefix) && Readable(tail) && NoReplacement(tail)
    ensures Readable(prefix + tail)
    ensures Accumulated(prefix + tail) == Accumulated(prefix) + Deltas(tail)
    decreases |tail|
  {
    ReadableAppend(prefix, tail);
    if tail == [] {
      assert prefix + tail == prefix;
    } else {
      var init, last := tail[..|tail| - 1], tail[|tail| - 1];
      assert (prefix + tail)[..|prefix + tail| - 1] == prefix + init;
      assert (prefix + tail)[|prefix + tail| - 1] == last;
      assert Readable(init) && NoReplacement(init) by {
        forall k | 0 <= k < |init| ensures ChunkReadable(init[k]) && !Replaces(init[k]) {
          assert init[k] == tail[k];
        }
      }
      AccumulatedExtends(prefix, init);
      AppendAssociates(Accumulated(prefix), Deltas(init), DeltaText(last), Deltas(tail));
    }
  }

  /** The last replacing chunk wins: its `generated_text` followed by the deltas delivered after it. */
  lemma AccumulatedAfterReplacement(before: seq<Chunk>, ch: Chunk, after: seq<Chunk>)
    requires Readable(before) && ChunkReadable(ch) && Replaces(ch)
    requires Readable(after) && NoReplacement(after)
    ensures Readable(before + [ch] + after)
    ensures Accumulated(before + [ch] + after) == ch.generatedText.value.s + Deltas(after)
  {
    ReadableAppend(before, [ch]);
    AccumulatedExtends(before + [ch], after);
    assert (before + [ch])[..|before + [ch]| - 1] == before;
  }

  /**
   * The loop over the stream.  It ends with an error (`ok` false) at the first
   * chunk it cannot get through: one without a first choice, one whose
   * replacing `generated_text` is not a string, or one whose truthy delta
   * content is not a string.  Otherwise `out` is the accumulated text.
   */
  method Accumulate(chunks: seq<Chunk>) returns (ok: bool, out: string)
    ensures ok <==> Readable(chunks)
    ensures ok ==> out == Accumulated(chunks)
  {
    out := "";
    var i := 0;
    while i < |chunks|
      invariant 0 <= i <= |chunks|
      invariant Readable(chunks[..i])
      invariant out == Accumulated(chunks[..i])
    {
      var ch := chunks[i];
      if !ch.hasChoice {
        return false, out;
      }
      var t := ch.delta;
      if t.Missing? && ch.generatedText.Some? {
        var g := ch.generatedText.value;
        if !g.Str? {
          return false, out;
        }
        out := g.s;
      } else if Truthy(t) {
        if !t.Str? {
          return false, out;
        }
        out := out + t.s;
      }
      assert chunks[..i + 1][..i] == chunks[..i];
      i := i + 1;
    }
    assert chunks[..i] == chunks;
    return true, out;
  }

  /** Regrouping a concatenation: the step that extends a text built so far. */
  lemma AppendAssociates(h: string, t: string, line: string, u: string)
    requires u == t + line
    ensures (h + t) + line == h + u
  {
  }

  // ------------------------------------------------------------ extraction

  /** The first choice's `message`: its `content` and `reasoning_content`. */
  datatype ChatMessage = ChatMessage(content: Field, reasoningContent: Field)

  /**
   * A non-streamed chat completion: `message` is missing when reading
   * `choices[0].message` raises; `rendering` is `str(response)`, missing when
   * that raises.
   */
  datatype ChatResponse = ChatResponse(message: Option<ChatMessage>, rendering: Option<string>)

  /** The content field if it is truthy, else the reasoning field, as Python's `or` picks between them. */
  function Candidate(resp: ChatResponse): (f: Field)
    ensures Truthy(f) <==>
      resp.message.Some? && (Truthy(resp.message.value.content) || Truthy(resp.message.value.reasoningContent))
    ensures resp.message.Some? && Truthy(resp.message.value.content) ==> f == resp.message.value.content
    ensures resp.message.Some? && !Truthy(resp.message.value.content) ==> f == resp.message.value.reasoningContent
  {
    if resp.message.None? then Missing
    else if Truthy(resp.message.value.content) then resp.message.value.content
    else resp.message.value.reasoningContent
  }

  /**
   * The assistant's text: the chosen field stripped when it is a non-empty
   * string, else the stripped rendering of the whole response, else empty.
   */
  function ExtractAssistantText(resp: ChatResponse): (r: string)
    ensures IsStripped(r)
    ensures Candidate(resp).Str? && Candidate(resp).s != "" ==> r == Strip(Candidate(resp).s)
  {
    var c := Candidate(resp);
    if c.Str? && c.s != "" then Strip(c.s)
    else if resp.rendering.Some? then Strip(resp.rendering.value)
    else ""
  }

  /** A non-empty string `content` is used, stripped. */
  lemma ExtractPrefersContent(m: ChatMessage, rendering: Option<string>)
    requires m.content.Str? && m.content.s != ""
    ensures ExtractAssistantText(ChatResponse(Some(m), rendering)) == Strip(m.content.s)
  {
  }

  /** With an empty or missing `content`, a non-empty string `reasoning_content` is used instead. */
  lemma ExtractFallsBackToReasoning(m: ChatMessage, rendering: Option<string>)
    requires !Truthy(m.content) && m.reasoningContent.Str? && m.reasoningContent.s != ""
    ensures ExtractAssistantText(ChatResponse(Some(m), rendering)) == Strip(m.reasoningContent.s)
  {
  }

  /** An empty `content` and a `reasoning_content` of `"42"` give `"42"`. */
  lemma ExtractReasoningExample(rendering: Option<string>)
    ensures ExtractAssistantText(ChatResponse(Some(ChatMessage(Str(""), Str("42"))), rendering)) == "42"
  {
    StripStripped("42");
  }

  /** When neither field gives a non-empty string, the response's rendering is used, stripped, or `""` if it cannot be rendered. */
  lemma ExtractFallsBackToRendering(resp: ChatResponse)
    requires !(Candidate(resp).Str? && Candidate(resp).s != "")
    ensures ExtractAssistantText(resp) == if resp.rendering.Some? then Strip(resp.rendering.value) else ""
  {
  }

  // ------------------------------------------------------- fallback prompt

  /** `"User"` for a user message, `"Assistant"` for any other role. */
  function RoleLabel(role: Role): string {
    if role == User then "User" else "Assistant"
  }

  function PromptLine(m: Message): string {
    RoleLabel(m.role) + ": " + m.content + "\n"
  }

  /** One `"<Role>: <content>\n"` line per message, in order. */
  function Transcript(msgs: seq<Message>): (r: string)
    ensures r == "" <==> msgs == []
    ensures msgs != [] ==> r[|r| - 1] == '\n'
    decreases |msgs|
  {
    if msgs == [] then "" else Transcript(msgs[..|msgs| - 1]) + PromptLine(msgs[|msgs| - 1])
  }

  function PromptHeader(level: Level): string {
    "System: You are a helpful assistant. " + Preamble(level) + "\n\n"
  }

  /** The flattened prompt for the text-generation call. */
  function FallbackPrompt(level: Level, msgs: seq<Message>): (p: string)
    ensures StartsWith(p, PromptHeader(level) + Transcript(msgs))
    ensures EndsWith(p, "Assistant:")
  {
    var h := PromptHeader(level) + Transcript(msgs);
    assert (h + "Assistant:")[..|h|] == h;
    h + "Assistant:"
  }

  /** The transcript of two histories in a row is the two transcripts in a row. */
  lemma {:induction false} TranscriptAppend(a: seq<Message>, b: seq<Message>)
    ensures Transcript(a + b) == Transcript(a) + Transcript(b)
    decreases |b|
  {
    if b == [] {
      assert a + b == a;
    } else {
      var init, last := b[..|b| - 1], b[|b| - 1];
      assert (a + b)[..|a + b| - 1] == a + init;
      assert (a + b)[|a + b| - 1] == last;
      TranscriptAppend(a, init);
      AppendAssociates(Transcript(a), Transcript(init), PromptLine(last), Transcript(b));
    }
  }

  /**
   * The prompt opens with the system line and a blank line, holds the earlier
   * history, then the latest user message on a `"User: "` line of its own, and
   * ends with `"Assistant:"` and nothing after it.
   */
  lemma FallbackPromptShape(level: Level, history: seq<Message>, prompt: string)
    ensures var p := FallbackPrompt(level, history + [Message(User, prompt)]);
      && StartsWith(p, PromptHeader(level) + Transcript(history))
      && p == PromptHeader(level) + Transcript(history) + ("User: " + prompt + "\n") + "Assistant:"
      && EndsWith(p, "Assistant:")
  {
    var m := Message(User, prompt);
    TranscriptSnoc(history, m);
    assert PromptLine(m) == "User: " + prompt + "\n";
    AppendAssociates(PromptHeader(level), Transcript(history), PromptLine(m), Transcript(history + [m]));
    AppendKeepsPrefix(PromptHeader(level) + Transcript(history), PromptLine(m), "Assistant:");
  }

  /** The transcript of the first i + 1 messages is that of the first i followed by message i's line. */
  lemma TranscriptStep(msgs: seq<Message>, i: nat)
    requires i < |msgs|
    ensures Transcript(msgs[..i + 1]) == Transcript(msgs[..i]) + PromptLine(msgs[i])
  {
    assert msgs[..i + 1][..i] == msgs[..i];
  }

  /** The transcript of one more message ends with that message's line. */
  lemma TranscriptSnoc(history: seq<Message>, m: Message)
    ensures Transcript(history + [m]) == Transcript(history) + PromptLine(m)
  {
    assert (history + [m])[..|history|] == history;
  }

  /** Whatever is appended after a text, the result starts with that text. */
  lemma AppendKeepsPrefix(h: string, u: string, v: string)
    ensures StartsWith((h + u) + v, h)
  {
    assert ((h + u) + v)[..|h|] == h;
  }

  /** One more message extends the prompt built so far by that message's line. */
  lemma PromptStep(level: Level, msgs: seq<Message>, i: nat, p: string)
    requires i < |msgs| && p == PromptHeader(level) + Transcript(msgs[..i])
    ensures p + PromptLine(msgs[i]) == PromptHeader(level) + Transcript(msgs[..i + 1])
  {
    TranscriptStep(msgs, i);
    AppendAssociates(PromptHeader(level), Transcript(msgs[..i]), PromptLine(msgs[i]), Transcript(msgs[..i + 1]));
  }

  /** The loop that builds the flattened prompt line by line. */
  method BuildFallbackPrompt(level: Level, msgs: seq<Message>) returns (p: string)
    ensures p == FallbackPrompt(level, msgs)
  {
    var sys := Preamble(level);
    p := "System: You are a helpful assistant. " + sys + "\n\n";
    var i := 0;
    while i < |msgs|
      invariant 0 <= i <= |msgs|
      invariant p == PromptHeader(level) + Transcript(msgs[..i])
    {
      var role := RoleLabel(msgs[i].role);
      var line := role + ": " + msgs[i].content + "\n";
      PromptStep(level, msgs, i, p);
      p := p + line;
      i := i + 1;
    }
    assert msgs[..i] == msgs;
    p := p + "Assistant:";
  }
}
