# BetterCallRobots core, modelled in Dafny

BetterCallRobots answers phone calls with a Gemini chat model. A relay sends
each caller's transcribed speech over a WebSocket, and the server sends back
the model's replies. A separate content pipeline cuts scraped web pages into
token-bounded chunks and serves them through a small keyword retriever.

This project models three pieces of the server:

- **Chunking and retrieval** (`services/api/content_processor.py`):
  - `ContentProcessor._chunk_content` cuts a document into overlapping
    500-token windows with a stride of 450.
  - `_adjust_chunk_boundary` snaps each window's text to a sentence ending.
  - `SimpleRAGRetriever` is an in-memory index with `add_document`, a
    keyword `search` and `get_document_stats`.
- **The session registry** (`GeminiLLM` in `llm.py`). `services/api/llm.py`
  is a byte-identical copy, so one class models both. The rows below cite
  `llm.py` for the class members and `services/api/llm.py` for the pure
  functions that specify them.
- **The call loop** (`websocket_endpoint` in `main.py`). The socket becomes a
  sequence of input events and a sequence of sent messages. The loop is a
  transition function `Step`, and `Run` folds it over the events. The method
  `Serve`, which updates the shared `GeminiLLM` in place, is proved to do
  what `Run` says.

The modules are:

- `Wrappers`: `Option` and `Result`.
- `PyStr`: the Python `str` semantics the code relies on.
  - Slicing, including negative and out-of-range bounds.
  - `strip()` and `split()` over Python's whitespace set.
  - `lower()`.
  - `count()`: non-overlapping, and `len + 1` for an empty needle.
  - `rfind()`.
- `Documents`: `ProcessedChunk` and `ProcessedDocument`.
- `Boundary`: `_adjust_chunk_boundary`.
- `Chunker`: `_chunk_content`. The tokenizer is a pair of uninterpreted
  `encode`/`decode` functions passed as parameters.
- `Ranking`: the stable descending sort `list.sort(key=..., reverse=True)`.
- `Retrieval`: `SimpleRAGRetriever`.
- `Sessions`: `GeminiLLM`.
- `Relay`: `websocket_endpoint`.

Three results about `_adjust_chunk_boundary` are worth noting. All three
describe the code as written.

- The cut index is `len(text) - 100 + best_split + 1`. For texts of 50 to
  99 characters it subtracts 100 even though the searched tail is the whole
  text (`SnapMediumMisplacesCut`). When the index is not negative, the kept
  prefix stops `100 - len(text)` characters short of the ending. When it is
  negative, Python counts it from the end, and the prefix runs
  `2 * len(text) - 100` characters past the ending: a 60-character text
  with its only '.' at index 30 gets the index -9 and keeps 51 characters.
  So for 51 to 99 characters the cut always misses the ending. At exactly
  50 characters the two offsets are 50 and 0: an ending at index 21 to 48
  gives a negative index that resolves to exactly `best_split + 1`, the
  right cut, and an ending at index 49 gives the index 0, which keeps
  nothing.
- A 60-character text ending its first sentence at index 39 comes back as
  the empty string (`SnapCanEraseText`).
- `_chunk_content` uses the snapped text as the chunk content, so these
  chunks lose text. Each chunk's `token_count` is still the length of the
  window before snapping.

On the call loop:

- Only the latest `call_sid` of a connection is cleaned up on disconnect
  (`DisconnectClearsLatestOnly`).
- An empty `callSid` is falsy, so its session is never removed
  (`EmptyCallSidLeaks`).
- Any exception other than `WebSocketDisconnect` and a `ValueError` from the
  backend ends the handler with no cleanup: no later event is handled and
  the registry keeps the call's session (`CrashSkipsCleanup`; a frame that
  is not JSON is one instance, `MalformedFrameLeaks`).

## Model

| member | source | states |
|---|---|---|
| `PyStr.Slice` | services/api/content_processor.py:195 | Python slicing: non-negative bounds are clamped to the length; a negative start counts from the end; a negative stop on a prefix slice counts from the end |
| `PyStr.Strip` | services/api/content_processor.py:237-239 | `strip()` never lengthens the text; `StripSpec` gives the rest |
| `PyStr.StripSpec` | services/api/content_processor.py:176 | `strip()` is empty exactly when the text is all whitespace; otherwise it is the slice between the leading and the trailing whitespace and starts and ends with a non-space |
| `PyStr.Lower` | services/api/content_processor.py:261 | `lower()` keeps the length and lower-cases each character, ASCII letters only |
| `PyStr.Split` | services/api/content_processor.py:262 | `split()` yields non-empty words free of whitespace; with `SplitKeepsNonSpace`, `SplitInOrder` and `SplitWordsExactly` the words are exactly the maximal whitespace-free runs, in order |
| `PyStr.SplitKeepsNonSpace` | services/api/content_processor.py:269 | concatenating the words of `split()` gives back every non-whitespace character of the text, in order |
| `PyStr.SplitInOrder` | services/api/content_processor.py:262 | the words of `split()` sit at strictly increasing positions of the text, each a whole word and each ending before the whitespace that precedes the next |
| `PyStr.WholeWordInSplit` | services/api/content_processor.py:262 | every whole word of the text, wherever it occurs, is one of the words of `split()` |
| `PyStr.SplitWordsExactly` | services/api/content_processor.py:262 | a string is a word of `split()` exactly when it is non-empty, free of whitespace and occurs in the text as a whole word |
| `PyStr.WordSet` | services/api/content_processor.py:262-269 | `set(text.split())` holds exactly the non-empty, whitespace-free strings that occur in the text as whole words |
| `PyStr.SplitWordsAreWhole` | services/api/content_processor.py:262 | every word of `split()` occurs in the text as a whole word: preceded by whitespace or the start, followed by whitespace or the end |
| `PyStr.SetOf` | services/api/content_processor.py:262 | `set(words)` contains exactly the words of the list |
| `PyStr.Count` | services/api/content_processor.py:273 | `count(sub)` is `len + 1` for an empty `sub`; otherwise it is positive exactly when `sub` occurs, and `CountIsMaximal` pins down its value |
| `PyStr.CountFits` | services/api/content_processor.py:273 | the non-overlapping matches counted by `count(sub)` fit in the text: their number times `len(sub)` is at most `len(text)` |
| `PyStr.CountFromReached` | services/api/content_processor.py:273 | the left-to-right scan from index i finds as many non-overlapping occurrences as it counts |
| `PyStr.CountFromMaximal` | services/api/content_processor.py:273 | no set of non-overlapping occurrences from index i is larger than the scan's count |
| `PyStr.CountIsMaximal` | services/api/content_processor.py:273 | for a non-empty `sub`, `count(sub)` is the largest number of pairwise non-overlapping occurrences of `sub`, and that many exist |
| `PyStr.RFind` | services/api/content_processor.py:232 | `rfind(sub)` is -1 or a position where `sub` occurs, and `sub` occurs at no later position |
| `Documents.SumTokensAppend` | services/api/content_processor.py:289 | the token total of a concatenation of chunk lists is the sum of their totals |
| `Documents.SumTokens` | services/api/content_processor.py:289 | the token total is not negative when no chunk count is, and is 0 when every count is 0 |
| `Documents.DomainOf` | services/api/content_processor.py:290 | `metadata.get("domain", "unknown")`: the chunk's `domain` when the key is present, `"unknown"` otherwise |
| `Documents.Domains` | services/api/content_processor.py:290 | the domain set holds each chunk's `domain` (or "unknown" when missing) and nothing else |
| `Documents.DomainsAppend` | services/api/content_processor.py:290 | the domains of a concatenation are the union of the domains |
| `Boundary.BestOver` | services/api/content_processor.py:230-234 | the loop's `best_split` over a list of endings is -1 or an index beyond 20 and within the tail |
| `Boundary.BestSplit` | services/api/content_processor.py:227-234 | `best_split` is -1 or an index beyond 20 that lies inside the tail, so the character at it exists |
| `Boundary.BestOverRightmost` | services/api/content_processor.py:230-234 | the loop's `best_split` over any list of endings is -1 or a start of one of them beyond index 20, and no such start lies to its right |
| `Boundary.BestSplitRightmost` | services/api/content_processor.py:227-234 | `best_split` is -1 when no '.', '!', '?' or blank line starts beyond index 20 of the last 100 characters; otherwise it is the rightmost such start |
| `Boundary.FindBestSplit` | services/api/content_processor.py:230-234 | the loop over the four endings leaves in `best_split` what `BestSplit` specifies |
| `Boundary.Tail` | services/api/content_processor.py:227 | `text[-100:]` is the whole text when it is at most 100 characters long and its last 100 characters otherwise |
| `Boundary.CutAt` | services/api/content_processor.py:236-239 | the cut-and-strip result is no longer than the text and, unless empty, starts and ends with a non-whitespace character |
| `Boundary.SnapBoundary` | services/api/content_processor.py:219-239 | a text under 50 characters comes back unchanged; any other text comes back no longer, and trimmed of whitespace at both ends |
| `Boundary.AdjustChunkBoundary` | services/api/content_processor.py:219-239 | the method, loop included, returns what `SnapBoundary` specifies |
| `Boundary.SnapShortUnchanged` | services/api/content_processor.py:223-224 | a text shorter than 50 characters is returned unchanged |
| `Boundary.SnapWithoutEnding` | services/api/content_processor.py:230-239 | without a sentence ending beyond index 20 of the tail the result is `text.strip()` |
| `Boundary.SnapLongCutsAfterEnding` | services/api/content_processor.py:227-237 | for a text of at least 100 characters with a sentence ending beyond index 20 of its last 100 characters, the result is the stripped prefix ending at the first character of the rightmost ending, which is '.', '!', '?' or a newline |
| `Boundary.MediumSlice` | services/api/content_processor.py:237 | for 50 to 99 characters the cut slice is a prefix whose length `KeptLength` gives, resolving a negative index from the end |
| `Boundary.SnapMediumMisplacesCut` | services/api/content_processor.py:227-237 | for 50 to 99 characters the kept prefix misses the ending by `100 - len(text)` characters, or is taken from the end when the index is negative |
| `Boundary.SnapCanEraseText` | services/api/content_processor.py:236-237 | a 60-character text with a '.' at index 39 and no later ending snaps to the empty string |
| `Chunker.ChunkMeta` | services/api/content_processor.py:203-207 | the chunk metadata is the document's metadata with `chunk_index` and `total_chunks` set and every other key kept |
| `Chunker.NumWindows` | services/api/content_processor.py:194 | the loop runs ceil(n / 450) times: none for no tokens; otherwise the last start is below n and the next would not be |
| `Chunker.NumWindowsBounds` | services/api/content_processor.py:194 | more than 500 tokens make at least two windows |
| `Chunker.Window` | services/api/content_processor.py:195 | `tokens[i:i + 500]` for the k-th start 450k: empty past the end, otherwise the min(500, n - 450k) tokens from 450k on |
| `Chunker.StartBelow` | services/api/content_processor.py:194 | every start the `range` produces lies inside the token sequence |
| `Chunker.WindowShape` | services/api/content_processor.py:194-195 | window k is the plain slice starting at 450k, between 1 and 500 tokens long |
| `Chunker.WindowsOverlap` | services/api/content_processor.py:194-195 | consecutive windows share 50 tokens, or fewer when the text ends sooner |
| `Chunker.ReassembleFrom` | services/api/content_processor.py:194-195 | the windows from the k-th on, with each overlap dropped, rebuild the tokens from 450k on |
| `Chunker.WindowsReassemble` | services/api/content_processor.py:194-195 | the windows cover the tokens exactly once and in order, once the overlaps are dropped |
| `Chunker.WindowChunk` | services/api/content_processor.py:195-209 | the chunk of window k carries `chunk_index` k and the given `total_chunks`; its token count is the window's length, at most 500; its text is no longer than the decoded window |
| `Chunker.WindowChunkFacts` | services/api/content_processor.py:194-209 | the chunk of a window the loop reaches counts at least one token |
| `Chunker.WindowChunks` | services/api/content_processor.py:190-215 | the long-content result has one chunk per window, each labelled with its index and the chunk count and holding between 1 and 500 tokens |
| `Chunker.WindowAt` | services/api/content_processor.py:195-209 | one iteration's chunk: the snapped text of window k, metadata with `chunk_index` k and the -1 placeholder, and the window length |
| `Chunker.SlideWindows` | services/api/content_processor.py:190-211 | the windowing loop appends one chunk per window start, with the snapped text, `chunk_index` k, the -1 placeholder and the window length |
| `Chunker.BackfillTotals` | services/api/content_processor.py:213-215 | the second loop sets every chunk's `total_chunks` to the number of chunks and changes nothing else |
| `Chunker.ChunkWindows` | services/api/content_processor.py:190-215 | the two loops together return what `WindowChunks` specifies |
| `Chunker.ChunkContent` | services/api/content_processor.py:172-217 | whitespace-only content gives no chunk; at most 500 tokens gives the content itself as chunk 0 of 1; more tokens give the (at least two) window chunks `WindowChunks` specifies; every chunk has `chunk_index` k, `total_chunks` equal to the count, and at most 500 tokens |
| `Ranking.SortDescPermutes` | services/api/content_processor.py:281 | the sort returns a permutation of its input |
| `Ranking.SortDesc` | services/api/content_processor.py:281 | the sort keeps the number of items; `SortDescPermutes`, `SortDescDescending` and `SortDescStable` give the rest |
| `Ranking.SortDescDescending` | services/api/content_processor.py:281 | scores come out non-increasing |
| `Ranking.SortDescStable` | services/api/content_processor.py:281 | for every score, the items with that score come out in their input order |
| `Ranking.WithScore` | services/api/content_processor.py:281 | the items of one score: every item it holds has that score and comes from the input, and every input item with that score is in it |
| `Ranking.BeforeWithScore` | services/api/content_processor.py:281 | two items of the same score that are in one order in a list are in that order among the list's items of that score |
| `Ranking.WithScoreBefore` | services/api/content_processor.py:281 | two items in one order among the items of one score are in that order in the list |
| `Ranking.SortDescKeepsTies` | services/api/content_processor.py:281 | two items of equal score are in one order after the sort exactly when they were in that order before it |
| `Retrieval.Score` | services/api/content_processor.py:271-275 | the score is never negative, and positive exactly when the lower-cased query and content share a word or the content contains the query |
| `Retrieval.EmptyQueryMatchesAll` | services/api/content_processor.py:273-275 | an empty query gives every chunk the score `2 * (len(content) + 1)`, so every chunk matches |
| `Retrieval.MorePhraseMatchesScoreHigher` | services/api/content_processor.py:272-275 | among chunks containing every query word, more phrase occurrences mean a higher score |
| `Retrieval.ScoreChunk` | services/api/content_processor.py:268-275 | the loop body computes a chunk's score from the query's lower-cased form and word set |
| `Retrieval.Positive` | services/api/content_processor.py:277-278 | the kept pairs are exactly the chunks with a positive score, each paired with that score, in the order of the chunk list; `PositiveAtPositions` adds that each positive position gives exactly one pair |
| `Retrieval.Positions` | services/api/content_processor.py:277-278 | the positions of the chunks with a positive score, strictly increasing, all of them |
| `Retrieval.PositiveAtPositions` | services/api/content_processor.py:267-278 | the kept pairs are one per positive-scoring position, in position order: a chunk indexed twice is kept twice, and ties keep their index order |
| `Retrieval.Scored` | services/api/content_processor.py:265-278 | `scored_chunks` holds exactly the chunks with a positive `search` score, each paired with it, in index order; it is `Positive` for the `search` score, so `PositiveAtPositions` also applies |
| `Retrieval.ScoreAll` | services/api/content_processor.py:265-278 | the scoring loop builds `scored_chunks` |
| `Retrieval.RankedSound` | services/api/content_processor.py:280-281 | every ranked pair is a chunk of the index with its positive score |
| `Retrieval.RankedComplete` | services/api/content_processor.py:280-281 | every chunk with a positive score appears in the ranking |
| `Retrieval.RankedFacts` | services/api/content_processor.py:280-282 | a prefix of the ranking holds indexed chunks with positive, non-increasing scores, and no left-out chunk scores higher than a returned one |
| `Retrieval.RankedTies` | services/api/content_processor.py:277-282 | in a prefix of the ranking, chunks of equal score appear in the order they were indexed |
| `Retrieval.TopK` | services/api/content_processor.py:280-282 | the result is the chunks of the first `top_k` entries (Python slice) of the stable descending ranking, `min(top_k, n)` of them for a non-negative `top_k` |
| `Retrieval.SearchFacts` | services/api/content_processor.py:265-282 | a prefix of the ranking of `search` scores holds indexed chunks with positive, non-increasing scores; no left-out match scores higher than a returned chunk; chunks of equal score come in index order |
| `Retrieval.StatsOfAdd` | services/api/content_processor.py:251-254 | adding a document moves the statistics by one document (none when its id is already stored), its chunks, its tokens and its domains |
| `Retrieval.StoreCount` | services/api/content_processor.py:253 | storing a document adds a dictionary entry exactly when its id was not stored yet |
| `Retrieval.StatsOf` | services/api/content_processor.py:286-291 | the statistics count the stored documents and the chunks, and the token total is not negative when no chunk count is; `StatsOfAdd` says how `add_document` moves them |
| `Retrieval.Retriever.constructor` | services/api/content_processor.py:247-249 | a new retriever has no documents and no chunks |
| `Retrieval.Retriever.Stats` | services/api/content_processor.py:284-291 | the domains reported are exactly the chunks' domains ("unknown" where a chunk has none) |
| `Retrieval.Retriever.AddDocument` | services/api/content_processor.py:251-254 | the document replaces any document with the same id and its chunks are appended; the stats grow by one document (none on replacement), by its chunks, its tokens and its domains |
| `Retrieval.Retriever.Search` | services/api/content_processor.py:256-282 | the result is the first `top_k` chunks (Python slice) of the stable descending ranking; it holds `min(top_k, matches)` chunks for a non-negative `top_k`; each is indexed with a positive score; scores do not increase; no unreturned match scores higher; chunks of equal score come in the order they were indexed; the index is unchanged |
| `Retrieval.Retriever.SearchDefault` | services/api/content_processor.py:256 | `search(query)` with the default `top_k` of 3 returns the chunks of the first three entries of the ranking, or all of them when fewer match |
| `Sessions.Create` | services/api/llm.py:32-34 | `create_session` stores an empty-history handle under the id, different from every handle before, keeps every other entry and adds no other id |
| `Sessions.Remove` | services/api/llm.py:40-43 | `remove_session` unregisters the id, keeps every other entry, and changes nothing when the id was absent |
| `Sessions.Respond` | services/api/llm.py:45-52 | `get_response` raises `ValueError("No session found for call_sid: ...")` for an unknown id and changes nothing; otherwise it returns the backend's reply and appends the exchange to that session's history; a backend exception propagates and changes nothing; no other session changes |
| `Sessions.RecreateReplaces` | services/api/llm.py:32-34 | creating the session of a registered id replaces it with a new, empty-history handle |
| `Sessions.GeminiLLM.constructor` | llm.py:23-30 | a new `GeminiLLM` has no sessions, so its handles are trivially distinct |
| `Sessions.GeminiLLM.CreateSession` | llm.py:32-34 | the new registry is what `Create` specifies, and handles stay distinct |
| `Sessions.GeminiLLM.GetSession` | llm.py:36-38 | `get_session` is `None` exactly when the id is unregistered, and otherwise the registered handle |
| `Sessions.GeminiLLM.RemoveSession` | llm.py:40-43 | the new registry is what `Remove` specifies, and handles stay distinct |
| `Sessions.GeminiLLM.GetResponse` | llm.py:45-52 | the result and the new registry are what `Respond` specifies, and handles stay distinct |
| `Sessions.GeminiLLM.HasSession` | llm.py:54-56 | `has_session` agrees with `get_session` |
| `Relay.SetupId` | main.py:40-41 | only a "setup" frame names a call id |
| `Relay.Truthy` | main.py:79 | `if call_sid`, the same test `if not call_sid` makes at line 47: `None` and the empty string are false, every other string is true |
| `Relay.Step` | main.py:36-81 | one event sends at most one message, only for a "prompt", and that message is a final "text" message; the registry gains only the id a "setup" names; handles stay distinguishable; the connection closes exactly on a disconnect |
| `Relay.OnPrompt` | main.py:46-69 | a "prompt" keeps `call_sid` and the set of registered ids; it sends nothing, or exactly one "text" message after the earlier ones when a live session and a prompt exist; without a live session nothing changes |
| `Relay.DisconnectRemovesCurrent` | main.py:77-81 | on disconnect the connection closes, nothing is sent, and the registry loses the session of a truthy `call_sid` and is otherwise unchanged |
| `Relay.Run` | main.py:35-81 | a connection that is not open stays as it is; a connection still open at the end saw no disconnect; a disconnect among the events leaves the connection not open |
| `Relay.SetupStartsSession` | main.py:40-44 | "setup" sets `call_sid` to the message's `callSid` and gives it a new, empty session; nothing is sent |
| `Relay.PromptWithoutSessionDropped` | main.py:46-49 | a "prompt" with `call_sid` unset or empty, or without a registered session, changes nothing and sends nothing |
| `Relay.PromptWithSessionReplies` | main.py:51-66 | a "prompt" with a live session sends exactly `{"type": "text", "token": reply, "last": true}` and records the exchange in the session |
| `Relay.ValueErrorIgnored` | main.py:67-69 | a `ValueError` from the backend sends nothing and changes nothing; the loop goes on |
| `Relay.OtherKindsIgnored` | main.py:71-75 | "interrupt" and unknown types change nothing and send nothing |
| `Relay.RunSendsRepliesOnly` | main.py:35-81 | over any event sequence the sent messages only grow, are all final "text" messages, and number at most the "prompt" frames |
| `Relay.RunRegistersSetupIdsOnly` | main.py:40-44 | over any event sequence the registry gains only the ids that "setup" frames name |
| `Relay.RunKeepsNumbered` | main.py:35-81 | over any event sequence every registered handle stays distinct from every later one |
| `Relay.DisconnectClearsLatestOnly` | main.py:77-81 | after two setups and a disconnect the latest call's session is gone and the earlier one is still registered |
| `Relay.EmptyCallSidLeaks` | main.py:79-80 | a session set up under the empty call id survives the disconnect |
| `Relay.MalformedFrameLeaks` | main.py:37-38 | a frame that is not JSON ends the handler without cleanup, so the call's session survives |
| `Relay.CrashSkipsCleanup` | main.py:35-81 | an event that raises anything but the disconnect ends the run: the registry, the sent messages and `call_sid` stay as they were, and no later disconnect removes the session |
| `Relay.Serve` | main.py:29-81 | the endpoint's loop leaves the registry, the sent messages and the status that `Run` specifies, and keeps the registry's handles distinct |
| `Relay.Handle` | main.py:36-81 | one pass of the loop body, or the disconnect handler, updates `call_sid`, the shared registry, the sent messages and the status as `Step` specifies |

## Left out

- `ContentProcessor.process_url`, `_scrape_url`, `_extract_main_content` and `_extract_title` (services/api/content_processor.py:40-170) are left out. They do HTTP I/O, HTML parsing, clock reads and process-randomised hashing.
- The `tiktoken` encoding is left out. `encode` and `decode` are uninterpreted parameters, and nothing is assumed about how they relate.
- The module-level singletons `rag_retriever`, `content_processor` and `llm` are left out. The model takes the instance as a parameter.
- The Gemini SDK is left out: model configuration, `start_chat`, `send_message_async`, and the reading of the prompt files. The reply is a `Backend` function of the conversation so far and the prompt.
- Sessions.Respond: the `Backend` is a deterministic function of the history and the prompt. This is an assumption about the Gemini SDK, not something the source guarantees. Under it, a prompt retried after a `ValueError` fails the same way, and two fresh sessions asked the same prompt get the same reply.
- Sessions.Respond: the backend is assumed to record an exchange in the session's history only when it replies. The SDK that does this is not part of this model.
- Sessions.GeminiLLM.GetSession: a chat handle is always truthy, so `if not chat_session` only tests for `None`.
- `services/api/main.py`, `settings.py`, the TwiML endpoint and the uvicorn start-up are not part of this model.
- Relay.Step: JSON values that are neither strings nor absent are not modelled. This covers a `null` or numeric `callSid` and a non-string `voicePrompt`.
- Relay.Step: `print` logging is not modelled.
- Relay.Step: a failure of `send_text` is not modelled.
- Relay.Serve: async scheduling is not modelled. Several connections sharing the one `GeminiLLM` are not modelled. One connection runs sequentially.
- PyStr.Lower: only ASCII letters are lower-cased. Python's `lower()` also maps other Unicode letters.
- Retrieval.Retriever.Stats: `domains` is a set. The order of the list Python builds from that set is not modelled.
- Retrieval.Retriever.AddDocument: documents and chunks are values. The object sharing between `self.documents[id].chunks` and `self.chunks` is not modelled.
- Chunker.ChunkContent: the two loops are the helper methods `SlideWindows` and `BackfillTotals`, and the first loop's body is `WindowAt`. The backfill rebuilds the sequence of chunk values rather than mutating shared chunk objects.
- Chunker.ChunkContent: `not content.strip()` is decided as "every character is whitespace", which `PyStr.StripSpec` proves equivalent.
- Boundary.AdjustChunkBoundary: the loop over the endings is the helper method `FindBestSplit`.
- Retrieval.Retriever.Search: the scoring loop is the helper method `ScoreAll` and the sort-and-slice is `TopK`.
