# GEN_AI_ChatBot: a verified model of the chat front-end's core

GEN_AI_ChatBot is a chat front-end for the `openai/gpt-oss-20b` model. It
comes as three near-identical scripts: `chatbot.py`, `app.py` and
`deployed/chatbot.py`. Each one keeps a store of conversations in the session
state. The store is an insertion-ordered dict from id to `{title, messages}`,
plus the id of the current conversation. The store is written to
`conversations.json` by "New Chat", by delete, rename and clear, and by a turn
that completes with an answer. The user message a turn appends is kept in
memory, and the next save writes it: with the answer when the turn completes,
or, when the turn fails, with whatever later action saves the store. On every turn,
the script sends the history to the inference provider with a system message
chosen by the reasoning level. It commits the answer, and when the
conversation then holds exactly two messages it is titled after the first.
This project models that logic in Dafny and proves its properties:

- `text.dfy` (module `Text`): the Python string operations the scripts rely on.
  These are `isspace`, `strip`, whitespace `split`, `splitlines` (every Python
  line boundary, with `\r\n` taken as one) and `"\n".join`.
- `ordered_dict.dfy` (module `OrderedDict`): a Python dict as a key order plus a
  map. It supports storing, popping and taking the first key.
- `chat.dfy` (module `Chat`): messages and conversations, the reasoning level and
  its system message, the request sent to the chat call, the auto-title, and the
  per-conversation updates.
- `replies.dfy` (module `Replies`): what the scripts make of the provider's
  answers. This covers the streamed-chunk loop, the field fallbacks of
  `_extract_assistant_text`, and the flattened prompt that `app.py` sends to the
  text-generation call.
- `credentials.dfy` (module `Credentials`): the token scan of `api.txt` and the
  rewrite of `.env`. Both are in `deployed/chatbot.py`.
- `session.dfy` (module `Session`): the session state as a class. Its fields are
  `conversations`, `cur` and `saved`, which is the last snapshot written to
  `conversations.json`. Each sidebar action and each kind of chat turn is a
  method.

The provider is not modelled. Its answers are inputs to the turn methods: a
sequence of stream chunks, a response record whose fields may be missing, or
the fact that a call raised. A fresh `uuid4` id is an input too, known to be
non-empty and not yet a key.

The code titles a conversation only when it holds exactly two messages right
after a reply is appended (`deployed/chatbot.py:377`). A turn that fails still
leaves its user message in memory. The next successful turn then brings the
conversation to three messages, and the title stays "New Chat".
`Chat.FailedFirstTurnKeepsTitle` states this case. The auto-title keeps the
first 30 characters of the first message, so "Explain quantum computing in
simple terms" becomes "Explain quantum computing in s..."
(`Chat.AutoTitleExamples`).

## Model

| member | source | states |
|---|---|---|
| Text.Strip | deployed/chatbot.py:21 | The result has no leading or trailing whitespace (Python's `isspace` set) and is a contiguous slice of the input. Only whitespace is cut from either end. |
| Text.StripIdempotent | app.py:19 | Stripping twice gives the same text as stripping once. |
| Text.StripEmptyIff | deployed/chatbot.py:324 | The stripped text is empty exactly when the input is all whitespace. This is the case in which a rename keeps the old title. |
| Text.StripStripped | app.py:19 | A text with no whitespace at either end is left unchanged by stripping. |
| Text.StripKeepsHead | deployed/chatbot.py:276 | When the text starts with a non-space character and the character at position m is not a space, its stripped form starts with the first m + 1 characters. |
| Text.Words | deployed/chatbot.py:15 | `split()` yields only non-empty words that contain no whitespace. |
| Text.WordsFirstWord | deployed/chatbot.py:15 | A non-empty run without whitespace followed by a whitespace character splits off as the first word. The rest of the text gives the remaining words. |
| Text.WordsSkipSpace | deployed/chatbot.py:15 | A leading whitespace character contributes no word. |
| Text.WordsOfWord | deployed/chatbot.py:15 | A non-empty text without whitespace is exactly one word. |
| Text.WordsEmptyIff | deployed/chatbot.py:15 | `split()` yields no word exactly when the text is all whitespace. |
| Text.NewlinesToSpaces | deployed/chatbot.py:15 | Every newline becomes a space. Every other character and the length stay the same. |
| Text.SplitLines | deployed/chatbot.py:19 | `splitlines()` yields lines that contain no line-boundary character, and it yields none exactly for the empty text. |
| Text.Join | deployed/chatbot.py:279 | Joining no lines gives "". Otherwise the result starts with the first line and ends with the last. |
| Text.SplitAtBreak | deployed/chatbot.py:274 | A text that opens with a line and any line boundary splits into that line followed by the lines of the rest. A `\r` ends a line on its own only when no `\n` follows it. |
| Text.SplitAtCrLf | deployed/chatbot.py:274 | `\r\n` ends one line, and the text after it gives the remaining lines. |
| Text.SplitLastLine | deployed/chatbot.py:19 | A non-empty last line without a final line break is one line. |
| Text.JoinNewlineTerminates | deployed/chatbot.py:279 | Joining non-empty lines with newlines and adding a final newline ends every line with its own newline. |
| Text.SplitTerminated | deployed/chatbot.py:274-279 | Splitting newline-terminated lines that have no line breaks gives the same lines back. |
| OrderedDict.Without | deployed/chatbot.py:314 | Removing a key from the key order keeps exactly the other keys, stays duplicate-free, and changes nothing when the key is absent. |
| OrderedDict.WithoutEach | app.py:186 | In a duplicate-free key order, removing a key closes the gap wherever the key sits. |
| OrderedDict.WithoutAt | app.py:186 | Removing the key at position i closes the gap and keeps every other key in its place. |
| OrderedDict.Dict.Put | deployed/chatbot.py:293 | Storing under a key maps it to the value. An existing key keeps its position and a new key goes last. The dict stays valid. |
| OrderedDict.Dict.Pop | app.py:186 | After a pop the key is gone and every other entry is unchanged. The remaining keys keep their order, with the gap closed. Popping an absent key changes nothing. |
| OrderedDict.Dict.First | deployed/chatbot.py:315 | The result is None exactly when the dict is empty. Otherwise it is the earliest inserted key. |
| OrderedDict.FirstAfterPop | chatbot.py:202 | After deleting a key, the first key is the old first key. If the deleted key was first, it is the second key, or None if the deleted key was the only one. |
| OrderedDict.PutTwice | chatbot.py:224-238 | Storing under the same key twice equals storing the second value once. The key keeps its place. |
| Chat.Preamble | app.py:246 | Each level maps to its own "Reasoning: ..." line. |
| Chat.PreambleInjective | app.py:246 | Different levels give different preambles. |
| Chat.SystemMessage | app.py:247 | The system message has role system and content "You are a helpful assistant. " followed by the preamble. |
| Chat.Request | chatbot.py:229 | The chat call receives the system message first, then the whole history in order. |
| Chat.AutoTitle | app.py:277 | A message of at most 30 characters is its own title. A longer message gives its first 30 characters followed by "...", 33 characters in all. |
| Chat.AutoTitleExamples | chatbot.py:237 | The 41-character message gives "Explain quantum computing in s..." and "Hi" gives "Hi". |
| Chat.AddUserMessage | app.py:238-239 | The prompt is appended as a user message and the title is unchanged. |
| Chat.AddReply | app.py:275-278 | The answer is appended as an assistant message. The title changes only when the conversation now holds two messages, and then it is the auto-title of the first message. |
| Chat.TurnAppendsPair | deployed/chatbot.py:361-376 | A completed turn appends exactly the user message and then the assistant message. Earlier messages are unchanged. |
| Chat.FirstExchangeTitles | deployed/chatbot.py:377 | The first exchange of an empty conversation titles it after its prompt. |
| Chat.LaterExchangeKeepsTitle | chatbot.py:237 | Any exchange in a conversation that already has messages keeps its title. |
| Chat.FailedFirstTurnKeepsTitle | deployed/chatbot.py:361-379 | After a failed first turn, the next successful turn leaves three messages and the old title. |
| Chat.Renamed | app.py:196-197 | Blank input keeps the old title. Otherwise the stripped input, which is non-empty, becomes the title. The messages are unchanged. |
| Chat.Cleared | app.py:286 | The messages are emptied and the title is kept. |
| Replies.Step | deployed/chatbot.py:372-374 | A chunk with no delta content and a `generated_text` replaces the text so far with its `generated_text`. Any other chunk appends its delta content, or nothing when that is empty or missing. |
| Replies.Accumulated | chatbot.py:231-234 | A stream without a replacing chunk yields the concatenation of its deltas. |
| Replies.ReadableAppend | deployed/chatbot.py:370-374 | Two streams the loop can read are readable in a row. |
| Replies.AccumulatedExtends | deployed/chatbot.py:374 | Chunks that replace nothing only append their deltas, in delivery order. |
| Replies.AccumulatedAfterReplacement | deployed/chatbot.py:373 | A chunk with no delta content and a `generated_text` discards everything before it. The result is its `generated_text` followed by the later deltas. |
| Replies.Accumulate | deployed/chatbot.py:370-374 | The loop succeeds exactly when every chunk has a first choice, every replacing chunk has a string `generated_text`, and every truthy delta content is a string. It then returns the accumulated text. |
| Replies.Candidate | app.py:15-17 | The candidate is truthy exactly when there is a message and its `content` or its `reasoning_content` is truthy. It is `content` when that is truthy, and `reasoning_content` otherwise. |
| Replies.ExtractAssistantText | app.py:10-25 | The result is always stripped. When `content or reasoning_content` is a non-empty string, the result is that string stripped. |
| Replies.ExtractPrefersContent | app.py:14-19 | A non-empty string `content` is used, stripped. |
| Replies.ExtractFallsBackToReasoning | app.py:15-19 | When `content` is falsy, a non-empty string `reasoning_content` is used, stripped. |
| Replies.ExtractReasoningExample | app.py:17-19 | Empty `content` with `reasoning_content` "42" gives "42". |
| Replies.ExtractFallsBackToRendering | app.py:22-25 | When neither field gives a non-empty string, the result is the stripped rendering of the response, or "" if it cannot be rendered. |
| Replies.Transcript | app.py:262-264 | The transcript is empty exactly when there are no messages. Otherwise it ends with a newline. |
| Replies.FallbackPrompt | app.py:261-265 | The prompt starts with the system line, a blank line and the transcript of the history, and it ends with "Assistant:". |
| Replies.TranscriptAppend | app.py:262-264 | The transcript of two histories in a row is their two transcripts in a row. |
| Replies.TranscriptSnoc | app.py:262-264 | The transcript of one more message is the old transcript followed by that message's line. |
| Replies.TranscriptStep | app.py:262-264 | The transcript of the first i + 1 messages is the transcript of the first i followed by the line of message i, the step the loop takes. |
| Replies.PromptStep | app.py:262-264 | Adding one message's line to the prompt built so far gives the prompt for one more message. |
| Replies.FallbackPromptShape | app.py:261-265 | The prompt starts with the system line, a blank line and the earlier history. It then has the latest message as a "User: " line and ends with "Assistant:". |
| Replies.BuildFallbackPrompt | app.py:261-265 | The loop builds exactly the flattened prompt. |
| Credentials.AfterFirstEquals | deployed/chatbot.py:21 | The result is the text after the first `=` of the line. |
| Credentials.IsTokenWord | deployed/chatbot.py:16 | A token-like word starts with "hf_" and has more than 10 characters. |
| Credentials.IsKeyLine | deployed/chatbot.py:20 | A key line contains "HF_TOKEN" and an `=`. |
| Credentials.ScanToken | deployed/chatbot.py:15-24 | The result is always stripped. When a token-like word exists, the result is the first such word. |
| Credentials.ReadFallbackToken | deployed/chatbot.py:10-24 | A missing or unreadable file gives "". An existing file's text is scanned as `Credentials.ScanToken` states. The result is always stripped. |
| Credentials.ScanPrefersTokenWord | deployed/chatbot.py:15-17 | The first word that starts with "hf_" and is longer than 10 characters is returned, whatever key lines the text holds. |
| Credentials.ScanFallsBackToKeyLine | deployed/chatbot.py:19-21 | Without a token-like word, the result is the stripped value after the first `=` of the first line that holds both "HF_TOKEN" and `=`. |
| Credentials.ReadKeyLineFile | deployed/chatbot.py:11-21 | A file holding only the line "HF_TOKEN=<value>", with a non-empty value without whitespace and no final newline, gives that value. Its one word starts with "HF_", not "hf_", so the key line is used. |
| Credentials.ScanFindsNothing | deployed/chatbot.py:24 | With neither a token-like word nor a key line, the result is "". |
| Credentials.IsTokenAssignment | deployed/chatbot.py:276 | A line assigns the token when its stripped form starts with "HF_TOKEN=". |
| Credentials.WithoutTokenLines | deployed/chatbot.py:276 | The kept lines are exactly the input lines that do not assign the token. |
| Credentials.WithoutTokenLinesAppend | deployed/chatbot.py:276 | The filter distributes over concatenation, so the kept lines keep their order. |
| Credentials.WithoutTokenLinesKeepsAll | deployed/chatbot.py:276 | Lines of which none assigns the token pass through unchanged. |
| Credentials.RefilterKeeps | deployed/chatbot.py:276-277 | Filtering the kept lines plus the token line again gives back exactly the kept lines. |
| Credentials.AssignmentLineIsAssignment | deployed/chatbot.py:276-277 | The appended "HF_TOKEN=<token>" line is itself removed by the filter. |
| Credentials.EnvLines | deployed/chatbot.py:271-274 | A missing `.env` gives no lines. An existing one gives exactly the `splitlines()` of its text, and none of those lines contains a line break. |
| Credentials.RewriteEnv | deployed/chatbot.py:271-279 | The new text is the kept lines followed by one "HF_TOKEN=<token>" line, each line ending in a newline. |
| Credentials.TerminatedSnoc | deployed/chatbot.py:277-279 | Appending a line adds that line and its newline at the end of the text. |
| Credentials.AssignmentNoBreak | deployed/chatbot.py:277 | For a token without line-break characters, the "HF_TOKEN=<token>" line has none either. |
| Credentials.RewriteEnvLines | deployed/chatbot.py:271-279 | For a token without line-break characters, the new text split back into lines is the kept lines in order, then the token line. No earlier line assigns the token. |
| Credentials.RewriteEnvIdempotent | deployed/chatbot.py:268-279 | For a token without line-break characters, saving the same token twice leaves the text the first save wrote. |
| Session.StreamedAnswer | deployed/chatbot.py:369-374 | An answer is committed exactly when the call returns a stream the loop can read, and it is then the accumulated text. A stream without a replacing chunk commits the concatenation of its deltas. |
| Session.FallbackAnswer | app.py:250-271 | A completed chat call commits the extracted assistant text, which is stripped. After AttributeError, an answer is committed exactly when the text-generation call returns, and it is the generated text. Any other failure commits nothing. |
| Session.FallbackTurnAnswer | app.py:250-271 | The flattened prompt is built exactly when the chat call raised AttributeError. The answer is the extracted chat text or the generated text. |
| Session.Session.HasCurrent | chatbot.py:222 | There is a current conversation when the current id is set and is not the empty string. |
| Session.Session.constructor | chatbot.py:186-187 | The session starts from the loaded dict, with its first key (or None) current and the dict as saved. |
| Session.Session.NewChat | chatbot.py:194 | A fresh id is appended to the key order and mapped to an empty "New Chat" conversation. No other entry changes. The new id becomes current and the store is saved. |
| Session.Session.Select | chatbot.py:200 | The chosen id becomes current. Nothing else changes. |
| Session.Session.Delete | chatbot.py:202 | The id is popped and the first remaining key, or None, becomes current, whatever was current before. The store is saved. |
| Session.Session.DeleteIfPresent | deployed/chatbot.py:313-316 | The same as Delete when the id is present. Otherwise nothing changes. |
| Session.Session.Rename | deployed/chatbot.py:323-326 | Only the renamed conversation changes, as Chat.Renamed states. The current id is kept and the store is saved. |
| Session.Session.ClearCurrent | app.py:285-287 | Only the current conversation changes, as Chat.Cleared states, and the store is saved. Without a current id nothing changes. |
| Session.Session.BeginTurn | chatbot.py:222-224 | With no current id, a new empty conversation is created under the fresh id and made current. The prompt is then appended in memory and nothing is saved. |
| Session.Session.CommitAnswer | chatbot.py:236-238 | The answer is appended, with the auto-title on the first exchange, and the store is saved. |
| Session.Session.SendStreamed | deployed/chatbot.py:358-379 | The request is the system message plus the history. When the stream is readable, the accumulated answer is committed and saved. Otherwise the user message stays in memory and nothing is saved. |
| Session.Session.SendWithFallback | app.py:233-281 | The fallback prompt is sent only after AttributeError. Whatever answer there is gets committed and saved. On any other failure, only the unsaved user message remains. |

## Left out

- The Streamlit user interface: rendering, CSS, widgets, `st.rerun` and `st.stop`, and the transient rename state (`rename_id`, `rename_value`, Cancel). These are presentation only. The Save button is modelled as `Session.Session.Rename`.
- The inference client: construction, `chat_completion` and `text_generation`. Their results are inputs. A streamed call that raises is `CallRaised`. In `deployed/chatbot.py` a missing client raises at the call, which is the same case. A stream that raises part-way is a chunk with no first choice. The temperature 0.7 and the `max_tokens` limits are not modelled.
- `_load` and `_save`: the JSON file I/O and its bare `except`. Loading is the constructor's argument. Saving is the snapshot `saved := conversations`. A save that fails is not modelled.
- `load_dotenv`, `os.environ`, `os.getenv`, the sidebar token input and the token caption. These are environment I/O.
- Reading `api.txt` and `.env` and writing `.env`. The model takes the file text as read, with universal newlines already applied, and returns the text to write.
- `uuid.uuid4()`: the turn and "New Chat" methods take the fresh id as a parameter, known to be non-empty and not already a key.
- The in-place aliasing between the `msgs` list and the stored conversation: each turn method stores the new message list instead.
- A current id that is set but missing from the store makes a turn raise outside its handler. The `Valid` invariant of `Session.Session` rules this out, because every operation keeps the current id in the store.
- Credentials.RewriteEnvLines: proved only for a token that holds no line-break character. `splitlines()` also breaks at characters such as U+2028. A token like "a" U+2028 "b" is written as one line but read back as two, so the lines do not come back as written.
- Credentials.RewriteEnvIdempotent: proved only for a token without line-break characters. For the token above, the second save keeps the "b" part as a separate line, and the text changes.
