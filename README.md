# Medical chatbot chat path, modelled in Dafny

This project models the online chat path of the Medical_RAG chatbot: a FastAPI
service that answers health questions. It either retrieves documents and streams
an LLM answer, or streams a canned reply. It has three parts.

- **Query classifier** (`QueryClassifier` in `src/utility.py`).
  - `needs_retrieval` lower-cases, strips and splits the message. It then applies
    an ordered, first-match-wins rule list and returns a decision with one of six
    reason tags:
    1. A simple-intent phrase matches a message of at most three words.
    2. A medical keyword is a substring of the message.
    3. A question word is among the first three tokens of a message of at least
       three words.
    4. A single word, four or more words, or the default.
  - `get_simple_response` picks the canned reply of the first pattern group that
    matches, or the generic fallback.
  - Module `Text` gives the ASCII string primitives (`lower`, `strip`, `split`,
    substring search, and the `\b(a|b|…)\b` phrase search with Python's word
    boundary). It proves the scanning functions equal to their logical
    definitions.
  - Module `QueryClassifierExamples` works through concrete messages ("hi", "ok",
    "what are the symptoms of flu", "show the latest results").
- **Stream framing** (`StreamingHandler` in `src/utility.py`).
  - Module `Streaming` models each Server-Sent-Events frame as `Token`, `Done` or
    `Error`, and the retrieval chain's stream as a finite list of chunks with an
    optional failure.
  - The two generators are loops proved equal to the frame sequences `RagFrames`
    and `SimpleFrames`. Lemmas state what those sequences promise: exactly one
    terminal frame, the tokens in order, and the full answer as their
    concatenation.
- **Session memory and the chat endpoint** (`app.py`).
  - Module `Sessions` holds the `chat_histories` dictionary as the class
    `SessionStore`. Its field `histories: map<string, seq<Message>>` is updated by
    get-or-create, the two appends, the ten-message window and the clear done by
    the index page.
  - Lemmas show that every committed history alternates question and answer and
    holds at most ten messages. After any number of turns it is exactly the last
    ten messages of the conversation.
  - Module `ChatEndpoint` models `POST /get`:
    1. Classify the message.
    2. Produce the retrieval or canned stream.
    3. Relay it frame by frame, keeping the full answer from the terminal frame.
    4. Commit the turn, unless the run is interrupted.
  - How the run ends is a parameter `Interruption`. `Completes` runs to the end.
    `RaisesAfter(k)` is an exception after k frames, caught by the endpoint's
    handler. `ClosedAfter(k)` is the client going away after k frames; the
    generator is closed and the handler does not catch that.

## Model

| member | source | states |
|---|---|---|
| Text.Lower | src/utility.py:74 | each character is lower-cased, the length is kept, and no upper-case letter remains |
| Text.Strip | src/utility.py:74 | the result is a contiguous slice of the input that neither starts nor ends with whitespace, everything before and after that slice is whitespace, and the result is empty exactly when the input is all whitespace |
| Text.SplitYieldsWords | src/utility.py:75 | every token of the split is a non-empty run of non-whitespace characters |
| Text.SplitEmptyIffBlank | src/utility.py:75 | a text splits into no words exactly when every character is whitespace |
| Text.SplitThreeWords | src/utility.py:75 | three words, each followed by a single space, add exactly three to the word count of the remainder |
| Text.Contains | src/utility.py:85 | `k in s` holds exactly when k occurs at some position of s |
| Text.Search | src/utility.py:80 | the left-to-right regex scan finds a match exactly when some alternative occurs with a word boundary on both sides |
| Text.PhraseAtDelimited | src/utility.py:14-18 | for an alternative that starts and ends with a word character, `\b` on both sides means a non-word character or the end of the text on each side |
| QueryClassifier.FirstMatchingPattern | src/utility.py:79-81 | the chosen group matches and no earlier group does; no group matches when none is chosen |
| QueryClassifier.Decide | src/utility.py:78-118 | the rules in their source order: simple_greeting exactly when at most three words and a pattern matches; medical_keyword_detected exactly when that rule does not fire and a keyword occurs; question_detected exactly when neither earlier rule fires, there are at least three words and a question word leads; single_word, substantial_query and default_no_retrieval each exactly when its own rule is the first to fire; the decision is true exactly for the three retrieval reasons |
| QueryClassifier.NeedsRetrieval | src/utility.py:64-118 | the decision is true exactly for medical_keyword_detected, question_detected and substantial_query; a negative decision implies at most three words; simple_greeting exactly when at most three words and a pattern matches; medical_keyword_detected exactly when rule 1 does not fire and a keyword occurs; question_detected exactly when neither earlier rule fires, there are at least three words and a question word is among the first three; single_word and substantial_query imply their word counts |
| QueryClassifier.SimpleResponse | src/utility.py:121-172 | the reply is one of the five pattern replies or the fallback, and it is the fallback when no pattern matches |
| QueryClassifier.SimpleResponseOfFirstMatch | src/utility.py:134-167 | the reply belongs to the first pattern group, in list order, that matches |
| QueryClassifier.RepliesDistinct | src/utility.py:134-172 | the six canned replies are pairwise different |
| QueryClassifier.FallbackIffNoPattern | src/utility.py:121-172 | the reply is the fallback exactly when no pattern group matches |
| QueryClassifier.BlankQueryIsDefault | src/utility.py:74-118 | an empty or all-whitespace message gives (False, default_no_retrieval) |
| QueryClassifier.SimplePatternWins | src/utility.py:78-81 | at most three words and a matching pattern give (False, simple_greeting), whatever keywords or question words are present |
| QueryClassifier.KeywordWinsOverQuestion | src/utility.py:83-86 | once rule 1 does not fire, a keyword anywhere gives (True, medical_keyword_detected), before the question-word rule |
| QueryClassifier.QuestionRuleFires | src/utility.py:88-108 | once neither rule 1 nor rule 2 fires, at least three words with a question word among the first three give (True, question_detected) |
| QueryClassifier.SingleWordNoRetrieval | src/utility.py:110-112 | one word with no pattern and no keyword gives (False, single_word) |
| QueryClassifier.NoRetrievalReply | src/utility.py:64-172 | when no retrieval is needed, the canned reply is the fallback exactly when the reason is not simple_greeting |
| QueryClassifierExamples.ClassifyHi | src/utility.py:14 | "hi", in any case and with surrounding whitespace, is a simple greeting |
| QueryClassifierExamples.ClassifyOk | src/utility.py:17 | "ok" is a simple greeting because rule 1 is tried before everything else |
| QueryClassifierExamples.ClassifySymptomsQuestion | src/utility.py:84-86 | "what are the symptoms of flu" is retrieved for the keyword "symptom", not for its question word |
| QueryClassifierExamples.ClassifyKeywordInsideWord | src/utility.py:84-86 | "show the latest results" is retrieved because "test" occurs inside "latest" |
| Streaming.StreamRagResponse | src/utility.py:179-208 | the generator's frames are exactly the frame sequence of its source |
| Streaming.StreamSimpleResponse | src/utility.py:211-230 | the generator's frames are exactly the character frames of the reply followed by done |
| Streaming.RagFramesContract | src/utility.py:192-208 | exactly one terminal frame, preceded by one token per chunk that has an answer, in order; a normal end gives done with the concatenation of the tokens; a failure gives a single "Streaming error: " frame and no done |
| Streaming.SimpleFramesContract | src/utility.py:224-230 | the length is the reply's plus one; the i-th frame carries the i-th character; the last frame is done with the whole reply; the tokens spell the reply |
| Sessions.KeepLast | app.py:85-87 | the result is the last min(n, max) messages of the history, in their original order |
| Sessions.WindowAsWrittenAgrees | app.py:81-87 | for every bound of at least one, the slice as written keeps exactly the last `max_messages` messages |
| Sessions.WindowAsWrittenZero | app.py:85-87 | with a bound of zero the slice as written keeps the whole non-empty history, not none of it |
| Sessions.CommitShape | app.py:148-152 | a committed turn leaves between two and ten messages; the question and then the answer are last; nothing is dropped while the window has room |
| Sessions.CommitPaired | app.py:148-152 | a history that alternates question and answer still does after a commit |
| Sessions.KeepLastAppend | app.py:81-87 | trimming before appending keeps the same window as trimming after |
| Sessions.ReplayKeepsWindow | app.py:148-152 | after any number of completed turns the history is the last ten messages of the whole conversation, and it stays paired |
| Sessions.SessionStore.constructor | app.py:30 | the store starts empty |
| Sessions.SessionStore.GetChatHistory | app.py:74-77 | returns the session's history, inserting an empty one only when the session is unknown; no other session changes |
| Sessions.SessionStore.AddUserMessage | app.py:148 | appends the question to that session only |
| Sessions.SessionStore.AddAiMessage | app.py:149 | appends the answer to that session only |
| Sessions.SessionStore.ManageMemoryWindow | app.py:81-87 | a known session keeps its last `max_messages` messages; unknown and other sessions are untouched |
| Sessions.SessionStore.Clear | app.py:100 | serving the index page leaves no sessions |
| Sessions.SessionStore.RecordTurn | app.py:147-152 | the session's history becomes the window of ten over the old history extended by the question and then the answer; bounded, paired stores stay so |
| ChatEndpoint.StripDataMarkersIdentity | app.py:135 | a text that does not contain "data: " survives the replace unchanged |
| ChatEndpoint.RecordedAnswerOfRag | app.py:128-137 | the answer kept from a retrieval stream is exactly the text streamed token by token, or "" when the stream ended in a streaming error |
| ChatEndpoint.RecordedAnswerAsWrittenOfRag | app.py:133-137 | as written, the kept answer is the streamed text with every "data: " removed; it agrees with the streamed text when that does not contain "data: "; it is "" after a streaming error |
| ChatEndpoint.DataMarkerLost | app.py:135 | an answer "data: " that the user saw in full is kept as "" |
| ChatEndpoint.Respond | app.py:117-145 | classifies the message and produces the retrieval stream or the canned reply's stream, whichever the decision selects |
| ChatEndpoint.Relay | app.py:119-157 | the client receives all frames, a prefix cut by a closed connection, or a prefix followed by the generic error frame; the commit is reached only when the run completes, carrying the retrieval stream's kept answer in the corrected reading (the done frame's full answer as sent) or the canned reply |
| ChatEndpoint.Chat | app.py:109-157 | the frames are those of the selected path as the interruption cuts them; the session's history becomes the commit of the question and the path's answer (in the corrected reading of the kept answer) when the run completes, and the history it had (empty for a new session) otherwise; no other session changes |
| ChatEndpoint.HistoryAfterBounded | app.py:147-157 | whatever the turn's outcome, a store whose histories are all paired and within ten messages stays so |
| ChatEndpoint.CompletedTurn | app.py:121-152 | a completed turn sends one well-terminated stream and commits the question and answer last; in the corrected reading, the committed answer is the streamed text, the canned reply in the simple branch, and "" with the streaming error frame when retrieval failed |
| ChatEndpoint.InterruptedTurn | app.py:154-157 | an interrupted turn leaves the history unchanged; an exception ends the response with exactly one generic error frame, the only terminal frame when it strikes before the inner stream's end; a closed connection sends a prefix, with no terminal frame before the end |

## Left out

- Text: `lower`, `strip` and `split` are modelled on ASCII. Python's Unicode case mapping and its non-ASCII whitespace are not modelled.
- Text.IsWordChar: `\w` and `\b` are modelled on ASCII letters, digits and `_`. Python's `\w` also matches Unicode letters and digits, so a boundary next to a non-ASCII letter is not modelled.
- Text.Search: the regular expressions are modelled by their meaning: some alternative with a word boundary on both sides. The regex engine is not modelled.
- Streaming: the JSON serialisation of frames is not modelled. This covers quoting, `\uXXXX` escapes for non-ASCII text, and the `data: … \n\n` wrapping. A frame is its datatype value.
- Streaming: the chain's chunks are abstracted to an optional `answer` string. Non-string answers are not modelled.
- Streaming: the `asyncio.sleep(0.01)` pacing and all async scheduling are left out, and generators are modelled as complete frame sequences.
- ChatEndpoint.StripDataMarkers: applies Python's replace to the answer text, not to its JSON encoding. A JSON escape ending in "d" or "da" (such as `\u00ad` or `\u00da`) can join the text after it to form "data: "; the replace then alters the escape, which may break the parse or decode a different character. That case is not modelled.
- ChatEndpoint.Relay: commits the corrected reading of the kept answer, the done frame's full answer as sent. As written, app.py:135 removes every "data: " from it; that behaviour is `ChatEndpoint.RecordedAnswerAsWritten`, with `RecordedAnswerAsWrittenOfRag` and `DataMarkerLost` proved about it.
- ChatEndpoint.Chat: commits the same corrected reading as Relay. The program as written commits the answer with every "data: " removed.
- ChatEndpoint.CompletedTurn: "the committed answer is the streamed text" holds for the corrected reading. As written it holds only for answers that do not contain "data: " (`StripDataMarkersIdentity`).
- ChatEndpoint.Chat: the retrieval chain, retriever and LLM (app.py:36-70) are the parameter `answerer`, a function of the question and the prior history.
- ChatEndpoint.Chat: a run that raises is modelled as raising before the commit. An exception between the two appends, which would leave only the question recorded, is not modelled.
- ChatEndpoint.Chat: the logging `print` calls are not modelled.
- ChatEndpoint.Chat: concurrent requests are not modelled; requests run one after another. An index page served while a stream is in flight would detach that stream's history object. That aliasing of the history object is not modelled.
- Sessions.SessionStore.ManageMemoryWindow: takes a natural-number bound and keeps the last `max_messages` messages, the evidently intended behaviour. The as-written slice for a bound of zero or a negative bound is `Sessions.WindowAsWritten`. A negative bound −j drops the first j messages instead of trimming.
- The index page: only its `chat_histories.clear()` is modelled. The template rendering and the `uuid4` session id are I/O and randomness.
- The PDF ingestion, embedding download, configuration checks and prompt text are not part of this model.

## Findings

| source | as written | input that shows it | evidently intended | confidence | as-written member | corrected member |
|---|---|---|---|---|---|---|
| app.py:87 | the window slices `[-max_messages:]`, and `-0` is `0`, so a bound of zero selects the whole list | any non-empty history with `max_messages=0` | keep the last zero messages, i.e. none | not executed; latent, since the only caller passes 10 | Sessions.WindowAsWrittenZero | Sessions.KeepLast |
| app.py:135 | the whole frame text goes through `replace("data: ", "")`, so every occurrence of "data: " inside the answer is removed as well as the SSE prefix | an LLM answer containing "data: ", e.g. "Lab data: normal", is recorded in the history as "Lab normal" | remove only the leading SSE prefix, so the history records the answer the user saw | not executed | ChatEndpoint.DataMarkerLost | ChatEndpoint.RecordedAnswerOfRag |
