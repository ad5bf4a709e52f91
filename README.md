# Mohini chat client — a verified model of its logic

`ChatBotGUI` is a Swing chat window. It keeps a short conversation history,
sends that history to an OpenRouter chat-completion endpoint, shows the
answer, and reads it aloud through a PowerShell speech synthesiser fed from a
queue. This project models the part of the window that is logic rather than
presentation. The model is written in Dafny and every property listed below
is proved.

- **History** (`history.dfy`): the bounded list of turns that `addMessage`
  maintains, and the replay of a saved history file that
  `loadConversationHistory` performs.
- **Completion** (`completion.dfy`): the request `getAIResponse` builds. It
  carries the system persona, then the history in order, with `max_tokens`
  1000. The module also models the decision the method makes on the reply:
  key check first, status 200 only. The HTTP exchange is a function
  parameter `post`. The JSON extraction of the answer is a parameter `parse`.
- **Speech text** (`speech_text.dfy`): `cleanForSpeech` as its twelve steps
  (eleven `replaceAll` calls and `trim()`), each a string function, plus the `safeText` quote escaping written
  into the synthesis script. `\s` is Java's default class (space, tab, line
  feed, vertical tab, form feed, carriage return). `trim()` strips the
  characters at or below U+0020. The class `[\p{So}\p{Cn}]` is a parameter
  `symbolic`, and `UnicodeFacts` states the only facts used about it:
  - no ASCII character is in it;
  - every emoji the mapping steps look for begins with a character in it.
- **Narration** (`narration.dfy`): the queue and its two flags as a state
  machine. `speak`, `stopSpeaking`, `resumeSpeaking` and each turn of the
  `runTTS` loop are atomic transitions. A trace model of these transitions
  counts the consumer threads alive.
- **Session** (`chat_session.dfy`): class `ChatSession` holds
  `conversationHistory`, `ttsQueue`, `ttsRunning` and `ttsStopped` as
  fields. Its methods update them in place, as the Java methods do. Each
  method is proved against the specification functions above, and the class
  invariant `Valid` is preserved: at most sixteen turns, and only non-empty
  speakable texts in the queue.

Behaviour of the code worth knowing, each proved about the model:

- The history holds up to **sixteen** turns. `addMessage` removes the oldest
  turn only when the size is already greater than 15 (ChatBotGUI.java:286),
  and then appends (`SixteenTurnsAreAllKept`).
- A malformed entry in the history file is not skipped. Its exception ends
  the loading, so the entries after it are lost (`LoadedTurns`).
- `cleanForSpeech` is not idempotent. `http@://x` cleans to `http://x`
  because the `@` is deleted after links are removed, and cleaning that again
  gives the empty text (`CleaningCanUncoverALink`). It is idempotent on
  results that contain no link (`CleanForSpeechIdempotentWithoutLinks`).
- Four cleaning steps never change the text: the three emoji-to-word
  mappings (ChatBotGUI.java:344-346) and the code-fence removal (line 342),
  although each is written to rewrite something. Step 1 already rewrote every backtick, and step 3
  already deleted the symbol each emoji begins with
  (`EmojiAndFenceStepsNeverFire`).
- A text spoken after Stop, while the old consumer is still running, is
  queued without a new consumer. That consumer then takes it and discards it
  unspoken, and Play finds nothing to resume
  (`SpeakAfterStopWhileRunningIsLost`).

## Model

| member | source | states |
|---|---|---|
| History.AddTurnKeepsNewest | ChatBotGUI.java:285-293 | adding a turn makes it the newest; the history grows by one until it holds sixteen and never shrinks; what remains is the newest part of the old turns plus the new one, in order, so only the oldest turn can be dropped |
| History.HistoryBoundIsSixteen | ChatBotGUI.java:286-292 | below sixteen turns the history gains one; at sixteen it stays at sixteen, losing exactly the turn at index 0 |
| History.ReplayKeepsNewest | ChatBotGUI.java:311-315 | adding turns one by one keeps exactly the newest `max(n, min(n + k, 16))` of the old and new turns, in order; a history that starts with at most sixteen turns keeps at most sixteen |
| History.SixteenTurnsAreAllKept | ChatBotGUI.java:286-287 | sixteen turns added to an empty history are all kept; the first is not evicted |
| History.FirstMalformed | ChatBotGUI.java:311-316 | the position of the first record that is not an object with string `role` and `content`: every record before it is well formed, and the record at it is not |
| History.LoadedTurns | ChatBotGUI.java:301-316 | a missing or unparsable file adds no turn; otherwise the turns added are those of the records before the first malformed one, in file order |
| Completion.BuildMessages | ChatBotGUI.java:173-176 | the message list is the system turn followed by every history turn, in order |
| Completion.Outcome | ChatBotGUI.java:191-204 | no connection is a network failure; a status outside 200-299 with no error stream fails without code or body; any other status but 200 is an error carrying the status and the body read; status 200 answers exactly when the body holds a content string, with that string, and is a malformed reply otherwise |
| Completion.GetAIResponse | ChatBotGUI.java:149-204 | a missing or empty key fails before any request is sent; otherwise exactly one request is sent, to the chat URL, with a `Bearer` key, the model `gpt-4o-mini`, `max_tokens` 1000 and the system turn followed by the history; an unreachable service is a network failure; a status other than 200 whose body can be read is an error carrying the status and body; a status outside 200-299 with no error stream is an error carrying neither; status 200 with no content string is a malformed reply; the call answers exactly when the status is 200 and the body holds a content string, and the answer is that string; once a request is sent, the outcome is `Outcome` of its reply |
| SpeechText.ReplaceCharsLemma | ChatBotGUI.java:337-338 | replacing a character class leaves no character of the class and adds only the replacement character; a text without the class is unchanged |
| SpeechText.DeleteCharsLemma | ChatBotGUI.java:339-343 | deleting a character class keeps only characters of the text outside the class; a text without the class is unchanged |
| SpeechText.RemoveUrlsKeepsCharacters | ChatBotGUI.java:341 | removing links adds no character |
| SpeechText.RemoveUrlsWithoutLinks | ChatBotGUI.java:341 | a text in which `https?://\S+` matches nowhere is unchanged by the link removal |
| SpeechText.RemoveFencesLemma | ChatBotGUI.java:342 | removing fenced blocks adds no character; a text without backticks is unchanged |
| SpeechText.ReplaceAlternativesLemma | ChatBotGUI.java:344-346 | the emoji mappings add only the characters of their replacement word; a text with no character that begins an emoji is unchanged |
| SpeechText.CollapseSpacesLemma | ChatBotGUI.java:347 | after collapsing, no two neighbouring characters are `\s`; only the space is added; the result begins with `\s` only if the input does; a text without neighbouring `\s` is unchanged |
| SpeechText.TrimIsSlice | ChatBotGUI.java:348 | `trim()` returns a slice of its input that neither begins nor ends with a character at or below U+0020 |
| SpeechText.TrimDropsOnlyTrimmable | ChatBotGUI.java:348 | every character `trim()` drops, before or after the slice, is at or below U+0020 |
| SpeechText.TrimBlank | ChatBotGUI.java:121-122 | the trimmed input is empty exactly when every character is at or below U+0020, which is when `sendMessage` ignores the input |
| SpeechText.TrimKeepsCharacters | ChatBotGUI.java:348 | `trim()` adds no character and introduces no neighbouring `\s` |
| SpeechText.TrimKeepsTrimmed | ChatBotGUI.java:348 | a text that neither begins nor ends with a character at or below U+0020 is unchanged by `trim()` |
| SpeechText.DeletionStepsLeaveNoUnspoken | ChatBotGUI.java:337-343 | after the first seven steps, no curly or straight-backtick quote, markup, decorative or symbol character is left |
| SpeechText.EmojiStepsAddOnlyWords | ChatBotGUI.java:344-346 | the three mapping steps add only the letters and spaces of " happy ", " sad " and " heart " |
| SpeechText.LayoutStepsAreSpeakable | ChatBotGUI.java:347-348 | collapsing and trimming a text free of unspoken characters gives a trimmed text with no neighbouring `\s` and no unspoken character |
| SpeechText.CleanTextIsSpeakable | ChatBotGUI.java:336-348 | the whole chain yields a trimmed text with no neighbouring `\s`, none of the characters the quote, markup and decorative steps delete, and no symbol character outside ASCII |
| SpeechText.CleanForSpeech | ChatBotGUI.java:333-349 | null gives ""; any result is trimmed, has no two neighbouring `\s`, and contains none of the deleted quote, markup, decorative or symbol characters |
| SpeechText.NoEmojiAfterDeletions | ChatBotGUI.java:337-343 | after the deletions, no backtick is left and no character that begins one of the mapped emoji |
| SpeechText.EmojiAndFenceStepsNeverFire | ChatBotGUI.java:337-346 | for every input, the chain equals the same chain without the fence removal and without the three emoji mappings |
| SpeechText.CleanForSpeechIdempotentWithoutLinks | ChatBotGUI.java:333-349 | cleaning a cleaned text again changes nothing when no link matches in it |
| SpeechText.CleaningCanUncoverALink | ChatBotGUI.java:341-343 | cleaning `http@://x` gives `http://x`, and cleaning that gives "", so cleaning is not idempotent |
| SpeechText.EscapeQuotes | ChatBotGUI.java:367 | every `"` of the escaped text is preceded by a backtick; it does not begin with `"`; it is empty exactly when the input is |
| SpeechText.EscapeQuotesRoundTrip | ChatBotGUI.java:367 | reading the escaped text back, where `` `" `` is the only escape read and stands for `"`, gives back the original text |
| SpeechText.EscapeQuotesOnlyAddsBackticks | ChatBotGUI.java:367 | deleting the backticks from the escaped text of a backtick-free input gives the input: only backticks are inserted, every other character is kept |
| Narration.Enqueue | ChatBotGUI.java:320-331 | an empty cleaned text changes nothing; any other is appended at the tail; a consumer is marked running exactly when one already ran or none ran and narration was not stopped |
| Narration.Poll | ChatBotGUI.java:357-362 | a consumer turn takes the head; with an empty queue it ends and clears `running`; when stopped it ends, clears `running` and discards the head unspoken; otherwise it speaks the head and leaves the rest queued |
| Narration.DrainSpeaksQueue | ChatBotGUI.java:354-363 | a consumer that is not stopped speaks the whole queue in order, each text once, and leaves nothing queued and `running` clear |
| Narration.ConsumerSpeaksQueueInOrder | ChatBotGUI.java:351-363 | a run of `runTTS` with nothing else happening speaks exactly what was queued, first in first out, and ends idle |
| Narration.StopThenResume | ChatBotGUI.java:396-412 | stop empties the queue and sets the flag; stopping twice equals stopping once; resume right after stop starts nothing and changes nothing |
| Narration.SpeakAfterStopWaitsForResume | ChatBotGUI.java:406-412 | with no consumer running, a text spoken after stop is queued without starting a consumer, and resume then starts one that speaks it |
| Narration.SpeakAfterStopWhileRunningIsLost | ChatBotGUI.java:357-362 | with a consumer still running, a text spoken after stop is taken by that consumer and dropped unspoken, and resume then has nothing to play |
| Narration.StepKeepsOneConsumer | ChatBotGUI.java:324-330 | every call and consumer step keeps `ttsRunning` set exactly when one consumer thread is alive |
| Narration.AtMostOneConsumer | ChatBotGUI.java:320-412 | in every interleaving of speak, stop, play and consumer steps, at most one consumer thread is alive |
| ChatBot.ChatSession.constructor | ChatBotGUI.java:24-110 | a new window starts from the field initialisers (empty history, nothing queued, no consumer, stop flag clear) and loads the saved history file: its history is the replay of the file's loaded turns onto the empty list, and the narration state stays idle |
| ChatBot.ChatSession.AddMessage | ChatBotGUI.java:285-293 | the history becomes `AddTurn` of the old one; the narration state is unchanged; at most sixteen turns are kept |
| ChatBot.ChatSession.LoadConversationHistory | ChatBotGUI.java:301-317 | the history becomes the old one with the loaded turns added one by one through `addMessage`; the narration state is unchanged |
| ChatBot.ChatSession.SendMessage | ChatBotGUI.java:120-125 | blank input changes nothing; otherwise the trimmed text is added as a user turn |
| ChatBot.ChatSession.Speak | ChatBotGUI.java:320-331 | the narration state becomes `Enqueue` of the cleaned text; a consumer is started exactly when the cleaned text is not empty, none runs, and narration is not stopped; the history is unchanged |
| ChatBot.ChatSession.PollNext | ChatBotGUI.java:357-363 | one turn of the consumer loop on the fields is `Poll` on the narration state |
| ChatBot.ChatSession.RunTTS | ChatBotGUI.java:351-394 | the consumer loop ends in the state `RunConsumer` gives: idle, with one synthesis script per text that was queued, in order; reading each script's text back, where `` `" `` is the only escape read, gives the queued text |
| ChatBot.ChatSession.StopSpeaking | ChatBotGUI.java:396-400 | the narration state becomes `Stop` of the old one; the history is unchanged |
| ChatBot.ChatSession.ResumeSpeaking | ChatBotGUI.java:406-412 | the narration state becomes `Resume` of the old one; a consumer is started exactly when none runs and something is queued |
| ChatBot.ChatSession.ReceiveResponse | ChatBotGUI.java:131-144 | an answer is spoken and then added as an assistant turn; an error changes neither history nor queue |
| ChatBot.ChatSession.Converse | ChatBotGUI.java:120-146 | blank input sends nothing and changes nothing; a missing key sends nothing and fails with the missing-key error; otherwise one request is sent, to the chat URL with the `Bearer` key, the model and `max_tokens` 1000, carrying the system turn and the history that already includes the new user turn; the outcome is `Outcome` of its reply, so each error is the one `getAIResponse` raises; it is an answer exactly when the reply has status 200 and a content string, and the answer is that string; a failure leaves the user turn added and the narration state unchanged; an answer is queued for speech as `Enqueue` of its cleaned text and added as an assistant turn after the user turn |

## Definitions

The functions that model the source directly. Each one's properties are stated by the members in the table above.

| definition | source | models |
|---|---|---|
| History.AddTurn | ChatBotGUI.java:285-293 | `addMessage` on the history list |
| History.Replay | ChatBotGUI.java:311-315 | the loading loop's `addMessage` calls, one per record |
| History.Turns | ChatBotGUI.java:312-313 | the role and content read from each well-formed record |
| Completion.KeyMissing | ChatBotGUI.java:150-151 | the key guard: unset or empty |
| Narration.Begin | ChatBotGUI.java:352 | `runTTS` clearing the stop flag |
| Narration.Stop | ChatBotGUI.java:396-400 | `stopSpeaking`: set the flag, clear the queue |
| Narration.Resume | ChatBotGUI.java:406-412 | `resumeSpeaking`: start a consumer when none runs and something is queued |
| Narration.Drain | ChatBotGUI.java:354-363 | the consumer loop, polled until it ends |
| Narration.RunConsumer | ChatBotGUI.java:351-363 | a whole `runTTS` run |
| Narration.Step | ChatBotGUI.java:320-412 | one event among `speak`, `stopSpeaking`, `resumeSpeaking` and the consumer's steps |
| SpeechText.NormalizeSingleQuotes | ChatBotGUI.java:337 | `` [‘’`] `` to `'` |
| SpeechText.NormalizeDoubleQuotes | ChatBotGUI.java:338 | `[“”]` to `"` |
| SpeechText.DeleteSymbols | ChatBotGUI.java:339 | deleting `[\p{So}\p{Cn}]` |
| SpeechText.DeleteMarkup | ChatBotGUI.java:340 | deleting the markup class |
| SpeechText.RemoveUrls | ChatBotGUI.java:341 | deleting `https?://\S+` matches, leftmost first |
| SpeechText.RemoveFences | ChatBotGUI.java:342 | deleting lazy fenced blocks |
| SpeechText.DeleteDecorations | ChatBotGUI.java:343 | deleting `[@#$%^&+=<>]` |
| SpeechText.MapHappyFaces | ChatBotGUI.java:344 | the three happy emoji to " happy " |
| SpeechText.MapSadFaces | ChatBotGUI.java:345 | the three sad emoji to " sad " |
| SpeechText.MapHeartAndFire | ChatBotGUI.java:346 | fire and heart to " heart " |
| SpeechText.CollapseSpaces | ChatBotGUI.java:347 | each run of two or more `\s` to one space |
| SpeechText.Trim | ChatBotGUI.java:348 | `String.trim()` |
| SpeechText.CleanText | ChatBotGUI.java:336-348 | the twelve steps in order |
| SpeechText.ReadEscapedQuotes | ChatBotGUI.java:375 | the string literal `$speak.Speak("…")` as read back, with `` `" `` as its only escape |

## Left out

- Swing layout, message bubbles, the typing indicator, auto-scroll and the per-character reveal animation (`displayMessage` and friends): presentation only.
- The HTTP connection, the request body's JSON serialisation and the JSON parsing of the reply: the exchange is the parameter `post`, and the extraction of `choices[0].message.content` is the parameter `parse`.
- The text of the error messages ("Set OPENROUTER_API_KEY first.", "HTTP <code>: <body>", " @ Error : NETWORK NOT AVAILABLE !!! ..."): errors are the constructors of `ChatError`, and their display is presentation.
- Reading and writing `mohini_history.json` (`saveConversationHistory`, the file read in `loadConversationHistory`): disk I/O. A file is given to the model as an optional list of records, each either a turn or malformed.
- The PowerShell script file, `Runtime.exec`, `waitFor`, `destroy` and the printed TTS errors: an external process. Speaking a text has no effect on the modelled state, and the script text is modelled only as the escaped text it embeds.
- Threads, `synchronized` blocks, the `volatile` flag and `SwingUtilities.invokeLater`. Each method is one atomic step. The interleaving model in `Narration` reorders these steps freely but does not model data races inside a step.
- The Unicode tables behind `\p{So}` and `\p{Cn}`: a parameter, constrained only by `UnicodeFacts`.
- Strings are sequences of Unicode code points, not Java's UTF-16 code units. The regex steps work on code points in both.
- SpeechText.ReadEscapedQuotes: models only the `` `" `` escape of PowerShell double-quoted strings. Other backtick escapes and `$` expansion are not modelled; cleaned texts contain no backtick and no `$`. PowerShell also ends a double-quoted string at the curly quotes U+201C, U+201D and U+201E. Step 2 rewrites only the first two, and U+201E (category Ps) survives cleaning and is not escaped, so a cleaned text containing it breaks the synthesis script. The read-back in `EscapeQuotesRoundTrip` and `ChatSession.RunTTS` does not capture this.
- Narration.Step: lets `ConsumerBegins` happen at any time while a consumer is alive, not only once at its start. This allows more interleavings than the threads do, so the one-consumer result covers the real ones.
