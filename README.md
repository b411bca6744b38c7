# MRP process repository: a verified model of its server logic

MRP is a process-document repository for a travel company's branches. A
sync job pulls the company's process documents from a Drive folder. It
extracts their text, assigns each a category, cuts the text into
overlapping word chunks and stores the chunks with their embeddings. An
assistant answers questions over the chunks, streaming its answer to the
client. Branches can generate a multiple-choice or short-answer test from
a document, submit answers and compare scores on two leaderboards. A
static question bank, a user list and two client-side forms complete the
server's core.

This project models that core in Dafny and proves what it promises.

- `wrappers.dfy`: `Option`, the stand-in for `null`/`undefined`.
- `js_text.dfy`: the JavaScript string built-ins the core uses: `toLowerCase`, `trim`, `includes`, `split(/\s+/)`, `filter(Boolean)`, `join(' ')`, `split(c)`, `String(n)`.
- `js_math.dfy`: `Math.round` of a ratio, in integer arithmetic.
- `js_object.dfy`: plain objects with integer keys: assignment, lookup, `Object.entries` and `Object.values` key order.
- `sorting.dfy`: the stable `Array.prototype.sort` with a comparator, and the default string order.
- `store.dfy`: the JSON store of api/lib/store.js (`DEFAULT_STORE`, `loadStore`, `getNextId`) as the class `Store.Store`.
- `indexing.dfy`: `inferCategory`, `chunkText` and `extractText` from api/index.js.
- `sync.dfy`: `handleSync`: the per-file loop over the Drive listing, on the store object.
- `chat.dfy`: `handleChat`: the session, the user message, the history, and the relayed event stream.
- `assessment.dfy`: `simpleHash`, `normalizeAnswer`, `handleTestSubmit` and the cache of `handleTestGenerate`.
- `leaderboard.dfy`: `handleTestLeaderboard` and `handleGlobalLeaderboard`.
- `processes.dfy`: `handleProcesses` (with `parseInt`, `slice` and `Math.ceil`) and `handleCategories`.
- `router.dfy`: the route dispatch of `handler`.
- `question_bank.dfy`: the helpers of api/lib/questionBank.js.
- `user_store.dfy`: `findUserByEmail`, `addUser` and `updateUser` on the in-memory user list.
- `register_form.dfy`, `set_password_form.dfy`: the validation of the registration and set-password forms.

The source works by changing state in three places, and the model does
the same there:

- the store (`Store.Store`, whose fields are the collections and the
  `nextId` counters);
- the user list (`UserStore.UserList`);
- the shuffled copy of `shuffleArray`, which is an `array`.

Each handler that changes the store is a method proved against a function
of the old state. Examples are `Sync.HandleSync` against `Sync.SyncRun`,
`Chat.HandleChat` against `Chat.AfterTurn` and
`Assessment.HandleTestSubmit` against `Assessment.Submit`. The lemmas
about those functions carry the properties.

Every loop of the source is a method with a loop and its invariants:
`chunkText`, `simpleHash`, the sync loop, the chunk loop, the chat relay,
the grading map, `getPillarQuestions`, `gradeAnswers`, `shuffleArray`,
and the loops and rank assignment of the leaderboards. The string logic,
routing, the forms and the listing are functions.

The outside world enters as parameters:

- the Drive listing and downloads, the text decoders and the embedding
  provider are the fields of `Sync.SyncEnv` and `Indexing.Decoders`;
- the events of the answer generator are a `Chat.ProviderRun`;
- the parsed output of the question generator is an argument of
  `Assessment.HandleTestGenerate`;
- the time of a request is a `now` parameter;
- the title order of `localeCompare` is a `titleLe` parameter.

### Behaviour of the code worth knowing

- **Chunk replacement is not atomic.** The code rewrites the document
  and drops its chunks before it calls the embedding provider
  (api/index.js:205-214). When the provider throws, the document is left
  without chunks but already carries the new `modifiedTime`, so every
  later sync skips it. The lemmas `Sync.EmbedFailureStrandsDocument` and
  `Sync.EmbedFailureStrandsNewDocument` prove this.
- **Stream order is not enforced.** The code relays whatever the
  generator yields, in order, followed by an `error` event when the
  generator throws (api/index.js:248-262). Nothing limits a turn to one
  `sources` and one `done` event: an `error` can follow a `done`, and a
  turn without `done` stores no reply.
- **Two different length tests.** The sync skips a text whose trimmed
  length is below 10, so exactly 10 characters are accepted
  (api/index.js:200). The fallback path of `extractText` demands more
  than 10 (api/index.js:67).
- **`normalizeAnswer` is not idempotent.** A removed character next to a
  space at either end leaves that space behind: "a !" normalizes to
  "a ", and that to "a" (`Assessment.NormalizeLeavesSpace`). Normalizing
  again only trims (`Assessment.NormalizeTwice`).
- **A test without questions** has the percentage `NaN`, which
  `JSON.stringify` writes to the store file as `null`. The leaderboards
  read the store back, and there `null` is 0 in comparisons and sums.

## Model

| member | source | states |
|---|---|---|
| JsText.ToLower | api/index.js:18 | lower-casing keeps the length and maps each character on its own, changing exactly the ASCII capitals |
| JsText.Lower | api/index.js:18 | an ASCII capital becomes its lower-case letter and every other character is left alone |
| JsText.Upper | api/lib/questionBank.js:527 | an ASCII lower-case letter becomes its capital and every other character is left alone |
| JsText.LowerKeepsSpace | api/index.js:356 | lower-casing neither creates nor removes whitespace |
| JsText.ToLowerIdempotent | api/lib/userStore.js:111 | lower-casing twice is lower-casing once |
| JsText.TrimStart | api/index.js:200 | the result is a suffix of the input, everything dropped is whitespace, and the result does not start with whitespace |
| JsText.TrimEnd | api/index.js:200 | the result is a prefix of the input, everything dropped is whitespace, and the result does not end with whitespace |
| JsText.Trim | api/index.js:200 | a non-empty trimmed string neither starts nor ends with whitespace, and it is never longer than the input |
| JsText.TrimOfTrimmed | api/index.js:200 | trimming a string that has no outer whitespace gives it back |
| JsText.TrimStartToLower | api/index.js:356 | `trimStart` and lower-casing commute |
| JsText.TrimStartAppend | api/index.js:84 | trimming the start of a concatenation reaches into the second piece only when the first is all whitespace |
| JsText.TrimEndToLower | api/index.js:356 | `trimEnd` and lower-casing commute |
| JsText.TrimToLower | api/index.js:356 | trimming and lower-casing commute, so the order in which answers are trimmed and lower-cased does not matter |
| JsText.IncludesToLower | api/index.js:157-158 | an occurrence survives lower-casing both strings |
| JsText.IncludesShorter | api/index.js:353 | an occurring string is never longer than the text it occurs in |
| JsText.IncludesSelf | api/index.js:353 | every string contains itself |
| JsText.IncludesEmpty | api/index.js:353 | every string contains the empty string |
| JsText.Split | api/index.js:33 | `split(/\s+/)` always yields at least one piece |
| JsText.SplitPiecesNoSpace | api/index.js:33 | no piece of a split holds whitespace |
| JsText.NonEmpty | api/index.js:33 | `filter(Boolean)` keeps exactly the non-empty pieces |
| JsText.WordsAreWords | api/index.js:33 | every word of a text is non-empty and free of whitespace |
| JsText.NonEmptyOfWords | api/index.js:33 | filtering a list of words changes nothing |
| JsText.SplitOfJoin | api/index.js:39 | splitting the space-joined words gives the words back |
| JsText.WordsOfJoin | api/index.js:33-39 | the words of a joined chunk are exactly the words that were joined |
| JsText.SplitOn | client/src/pages/Register.jsx:16 | `split('@')` yields at least one piece, and no piece holds the separator |
| JsText.SplitOnFirst | client/src/pages/Register.jsx:16 | the text before the first separator is the first piece, and the rest splits on its own |
| JsText.SplitOnWithout | client/src/pages/Register.jsx:16 | a string without the separator splits into itself alone |
| JsText.DecimalString | api/index.js:80 | `String(n)` is a non-empty run of decimal digits |
| JsText.ParseDecimal | api/index.js:80 | reading the numeral of `n` back gives `n` |
| JsText.DecimalStringInjective | api/index.js:80 | distinct numbers have distinct numerals |
| JsText.DecimalStringLength | api/index.js:80 | a number below 10^k has at most k digits |
| JsMath.RoundOfRatio | api/index.js:364 | `Math.round(n / d)` equals `(2n + d) / 2d` in integer arithmetic |
| JsMath.RoundedRatioBounds | api/index.js:364 | the rounded ratio of `n <= m * d` to `d` lies between 0 and `m` |
| JsObject.Find | api/index.js:395 | the position of a key is its first occurrence, and there is none exactly when no entry has the key |
| JsObject.GetIff | api/index.js:395 | with distinct keys, `obj[k]` is `v` exactly when `(k, v)` is an entry |
| JsObject.PutFacts | api/index.js:396 | assignment sets one key, leaves every other key's value, keeps keys distinct and adds a key only when it was missing |
| JsObject.PutEntries | api/index.js:396 | after an assignment every entry is the new one or an old one |
| JsObject.PutPut | api/index.js:412 | a second assignment to a key overrides the first |
| JsObject.PutSame | api/index.js:396 | assigning a key the value it holds changes nothing |
| JsObject.FindAt | api/index.js:410 | the first entry holding a key is the one found |
| JsObject.IndexEntries | api/index.js:399 | the integer-like keys are taken with their entries, each entry of the object with such a key is among them, and nothing else is |
| JsObject.OtherEntries | api/index.js:399 | the other entries are exactly those whose key is not integer-like |
| JsObject.EntriesSame | api/index.js:415 | `Object.entries` lists exactly the object's entries, as many as it has |
| JsObject.EntryOrigin | api/index.js:415 | each listed entry is an entry of the object |
| JsObject.EntriesOrder | api/index.js:399-415 | integer-like keys come first in ascending order, then the other keys |
| JsObject.EntriesCount | api/index.js:415 | the two groups of keys together make up the whole object |
| JsObject.ValuesIff | api/index.js:416 | a value is listed exactly when some key holds it |
| Sorting.Insert | api/index.js:161 | inserting adds exactly one element and keeps all the others |
| Sorting.InsertSorted | api/index.js:161 | inserting into a sorted list keeps it sorted |
| Sorting.Sort | api/index.js:161 | the sort is a permutation of its input |
| Sorting.SortSorted | api/index.js:161 | under a total preorder the result is in comparator order |
| Sorting.SortSameElements | api/index.js:161 | sorting keeps exactly the elements it was given |
| Sorting.SortOfSorted | api/index.js:161 | sorting a list that is already in comparator order returns it unchanged, so elements the comparator ties are not reordered there |
| Sorting.InsertAfterAll | api/index.js:161 | an element that may follow every other element goes to the end |
| Sorting.PreorderOnSub | api/index.js:161 | a preorder on a list is also one on any list made of its elements |
| Sorting.PreorderOnAll | api/index.js:161 | a total preorder orders every list |
| Sorting.StrLeTotal | api/index.js:180 | any two strings are ordered one way or the other |
| Sorting.StrLeTransitive | api/index.js:180 | the string order is transitive |
| Sorting.StrLeAntisymmetric | api/index.js:180 | strings ordered both ways are equal |
| Sorting.StrLeTotalPreorder | api/index.js:180 | the default `sort()` string order is total, transitive and antisymmetric |
| Store.DefaultCountersComplete | api/lib/store.js:16 | the default store has a counter for every collection, each set to 1 |
| Store.PatchCounters | api/lib/store.js:28-29 | a falsy test-question or test-attempt counter becomes 1, and these counters are added when missing; every other counter is left as it was |
| Store.AppendFresh | api/lib/store.js:43-47 | appending the counter's value to ids below the counter keeps them increasing and all below the incremented counter |
| Store.IncreasingBelowMono | api/lib/store.js:43-47 | ids kept below a counter stay below any larger one |
| Store.Store.Load | api/lib/store.js:19-37 | `branches` is always reset to the default list. A parsed file keeps its collections; missing test collections become empty and zero test counters become 1. A missing or unreadable file gives empty collections with every counter at 1 |
| Store.Store.NextId | api/lib/store.js:43-47 | the collection's counter is returned, and only that counter moves, by one |
| Store.Store.NextIdTwice | api/lib/store.js:43-47 | two calls on one collection return consecutive, distinct ids, and no other counter moves |
| Indexing.InferCategory | api/index.js:17-30 | the category is always one of the ten rule labels or "General" |
| Indexing.FiresFirstFive | api/index.js:19-23 | the first five rules test the listed substrings of the lower-cased name |
| Indexing.FiresLastFive | api/index.js:24-28 | the last five rules test the listed substrings of the lower-cased name |
| Indexing.InferCategoryIsFirstFiring | api/index.js:17-30 | the chain of tests equals "the first rule that fires wins" over the rule table, which is the reference definition |
| Indexing.FirstFiringAt | api/index.js:19-28 | the first rule that fires gives its label |
| Indexing.FirstFiringNone | api/index.js:29 | when no rule fires the result is "General" |
| Indexing.InferCategoryRule | api/index.js:19-28 | rule `j` decides the category when it fires and no earlier rule does |
| Indexing.InferCategoryDefault | api/index.js:29 | a name that fires no rule is filed under "General" |
| Indexing.HrWins | api/index.js:19 | any name containing "hr" in any case is filed under HR, even if it also names another category |
| Indexing.SecurityNamesGoElsewhere | api/index.js:24-25 | a name containing "security" is never filed under Security, because the "it" inside it fires earlier |
| Indexing.InferCategoryNeverAll | api/index.js:17-30 | no document is ever filed under "All" |
| Indexing.ChunksFrom | api/index.js:37-42 | there is one chunk per word window |
| Indexing.ChunkText | api/index.js:32-44 | the loop computes the chunk list of the reference definition: the text's words, then one chunk for a short list, otherwise the joined windows |
| Indexing.ChunkWordList | api/index.js:34-43 | the part of `chunkText` after the split computes the reference chunk list of the words |
| Indexing.LastChunk | api/index.js:38-40 | when the remaining words fit, the last chunk runs to the last word and the loop stops |
| Indexing.ChunksUnfold | api/index.js:38-41 | a full window is followed by the window starting `overlap` words before its end |
| Indexing.ChunkAt | api/index.js:37-42 | chunk `k` is the joined words of window `k` |
| Indexing.WindowsInRange | api/index.js:38 | every window is a non-empty range inside the word list |
| Indexing.WindowsShape | api/index.js:38-41 | each window but the last holds exactly `targetSize` words and the next starts `overlap` words before its end, and the last window ends at the last word |
| Indexing.WindowsPastOverlap | api/index.js:38-41 | from a start at least `overlap` words before the end, every window holds at least `overlap` words |
| Indexing.ChunkWords | api/index.js:37-42 | the words of a chunk are exactly its window's words, between 1 and `targetSize` of them |
| Indexing.WindowWords | api/index.js:39 | joining a window and splitting it again gives back its words |
| Indexing.ShortTextOneChunk | api/index.js:34 | at most `targetSize` words make one chunk: the words joined by single spaces |
| Indexing.EmptyTextOneEmptyChunk | api/index.js:33-34 | the empty text gives one empty chunk |
| Indexing.ChunksOverlap | api/index.js:38-41 | consecutive chunks share exactly `overlap` words: the last `overlap` words of one are the first of the next |
| Indexing.SlicesOverlap | api/index.js:39-41 | a full window and the window starting `overlap` words before its end share those `overlap` words |
| Indexing.ChunkTokenCount | api/index.js:216 | the stored `token_count` is the chunk's number of words, except 1 for the single empty chunk of a text without words |
| Indexing.TailWordsFrom | api/index.js:37-42 | the windows from a start, each past its overlap, cover the words from `start + overlap` to the end |
| Indexing.TailWordsStep | api/index.js:37-42 | one window past its overlap followed by the rest covers the words from its own start plus `overlap` |
| Indexing.ChunkCoverage | api/index.js:37-42 | the first chunk plus every later chunk past its overlap give back the whole word list, so no word is lost or repeated |
| Indexing.CoverageStep | api/index.js:37-42 | the first window followed by the rest past their overlaps covers the whole list |
| Indexing.SixHundredWords | api/index.js:32-44 | with the defaults, 600 words give words 1-500 and words 401-600 |
| Indexing.ExtractText | api/index.js:46-70 | a string is returned unchanged. The plain types are decoded as UTF-8. PDF and DOCX go to their decoders. Any other type keeps its UTF-8 text only when, trimmed, it is longer than 10 characters and holds no NUL |
| Indexing.FallbackTextIsUsable | api/index.js:64-69 | text salvaged by the fallback always passes the sync's length test |
| Sync.FindDoc | api/index.js:192 | the lookup by `drive_file_id` finds the first matching document, and finds none exactly when no document matches |
| Sync.FileSizeDefault | api/index.js:206 | an absent or empty size is read as `parseInt('0')` |
| Sync.FileSizeValue | api/index.js:206 | a decimal size is its value, and a size starting with no digit, sign or whitespace is `NaN` |
| Sync.Refreshed | api/index.js:206 | a refreshed document keeps its `id`, `drive_file_id` and `created_at` and takes the file's text and `modifiedTime` |
| Sync.WithoutDocument | api/index.js:207 | exactly the chunks of other documents remain |
| Sync.ChunksFor | api/index.js:207 | a document's chunks are exactly the stored chunks with its id |
| Sync.NewChunks | api/index.js:215-217 | the new chunk records are numbered from the counter, one per piece, with `chunk_index` 0, 1, ... |
| Sync.FetchText | api/index.js:196-203 | a downloaded text is indexed only when it passes the length test |
| Sync.Recorded | api/index.js:205-211 | the document step keeps every counter valid |
| Sync.Attach | api/index.js:215-217 | the chunk step keeps every counter valid |
| Sync.SyncFile | api/index.js:192-219 | one file's sync keeps every counter valid |
| Sync.Indexed | api/index.js:204-218 | indexing a usable text keeps every counter valid |
| Sync.Step | api/index.js:191-220 | one turn of the loop keeps every counter valid |
| Sync.SyncRun | api/index.js:191-220 | the loop keeps every counter valid, and `filesProcessed` never exceeds the number of files |
| Sync.SyncRunStep | api/index.js:191-220 | one more file extends the run by one loop turn |
| Sync.FindDocUpdate | api/index.js:206 | an in-place update that keeps `drive_file_id` leaves every lookup as it was |
| Sync.FindDocAppend | api/index.js:210-212 | after a push, a lookup finds the earlier match if there is one, otherwise the new document |
| Sync.RecordDocument | api/index.js:205-212 | on the store object, the document step computes `Recorded` and returns the id of the file's document |
| Sync.PushChunks | api/index.js:215-217 | on the store object, the chunk loop computes `Attach` |
| Sync.ProcessFile | api/index.js:192-219 | on the store object, the body of the per-file `try` block computes `SyncFile` |
| Sync.IndexText | api/index.js:204-218 | on the store object, the loop body after the length test computes `Indexed` |
| Sync.HandleSync | api/index.js:184-227 | the store becomes `SyncRun` of the listing, and the response counts the files found and processed. A failed listing answers 500 and leaves the store unchanged |
| Sync.UnchangedFileSkipped | api/index.js:192-193 | a file whose document carries its `modifiedTime` changes nothing, whatever the downloads or the provider would do |
| Sync.UpToDateRunIsNoop | api/index.js:191-193 | a sync over up-to-date files changes nothing and processes nothing |
| Sync.RecordedKeepsDistinct | api/index.js:205-211 | the document step never creates a second document for a Drive file |
| Sync.SyncFileKeepsDistinct | api/index.js:192-211 | one file's sync never creates a second document for a Drive file |
| Sync.SyncRunKeepsDistinct | api/index.js:191-220 | a whole sync never creates a second document for a Drive file |
| Sync.ReprocessedInPlace | api/index.js:205-206 | a changed document is updated in place with the same position, `id` and `created_at`, and every other document is left as it was |
| Sync.ChunksForAppend | api/index.js:215-217 | a document's chunks in two lists together are its chunks in each, in order |
| Sync.ChunksForNone | api/index.js:207 | a list without the document's id holds none of its chunks |
| Sync.ChunksForOwn | api/index.js:215-217 | a list of the document's own chunks is exactly its own selection |
| Sync.ReprocessedChunks | api/index.js:207-217 | after reprocessing, a document's chunks are exactly the pieces of its new text, numbered 0, 1, ... in order, with fresh ids from the counter |
| Sync.ReplacedChunks | api/index.js:207-217 | dropping a document's chunks and appending new ones leaves exactly the new ones as its chunks |
| Sync.EmbedFailureStrandsDocument | api/index.js:193-221 | when embedding a changed document fails, the document is rewritten but has no chunk, is not counted, and every later sync skips it |
| Sync.EmbedFailureStrandsNewDocument | api/index.js:193-221 | when embedding a new file fails, its document is pushed without a chunk and every later sync skips it |
| Sync.SyncFileDocuments | api/index.js:205-211 | the documents change only in the document step |
| Sync.RecordedUpToDate | api/index.js:206-210 | after the document step the file is up to date |
| Sync.RecordedKeepsOthers | api/index.js:205-211 | the document step leaves every other file's lookup and up-to-date status as they were |
| Sync.UsableFileBecomesUpToDate | api/index.js:200-214 | a file with usable text is up to date after its sync, whether or not embedding succeeded |
| Sync.OtherFilesUnaffected | api/index.js:192-219 | one file's sync leaves every other file's lookup and up-to-date status as they were |
| Chat.SessionMessages | api/index.js:240 | exactly the session's messages are kept |
| Chat.DropLast | api/index.js:248 | `slice(0, -1)` is everything but the last element |
| Chat.Opened | api/index.js:233-238 | opening the session and storing the user message keep the counters valid |
| Chat.Replied | api/index.js:248-257 | the provider loop keeps the counters valid |
| Chat.AfterTurn | api/index.js:229-264 | a turn keeps the counters valid, and a missing message changes nothing |
| Chat.TurnResponse | api/index.js:231-243 | the answer is "Message is required" exactly when the message is missing, and otherwise the stream starts with the `session` event |
| Chat.HandleChat | api/index.js:229-264 | the store and the response are `AfterTurn` and `TurnResponse` of the old store, and the provider is called with `HistoryFor` |
| Chat.TurnParts | api/index.js:233-248 | a turn with a message is the opening, which stores the user message under the next id, followed by the provider loop from the counter the opening leaves |
| Chat.OpenTurn | api/index.js:233-238 | a session is opened when `sessionId` is falsy, and the user message is stored under the next id |
| Chat.RelayEvents | api/index.js:243-262 | the stream is `session`, the relayed events, then `error` when the provider throws; the store gets the loop's replies |
| Chat.RelayAllSnoc | api/index.js:248-257 | one more event is one more loop step |
| Chat.RelayAccumulates | api/index.js:246-256 | the text is the concatenation of all chunks and the sources are those of the last `sources` event. One reply is stored per `done`, with consecutive ids in the session |
| Chat.DoneStoresReply | api/index.js:251-256 | a `done` event stores exactly one assistant reply holding the text so far and the last sources |
| Chat.NoDoneNoReply | api/index.js:248-257 | without a `done` event no reply is stored, even when chunks were streamed |
| Chat.TypicalTurn | api/index.js:248-256 | chunks, sources, then `done` relay those events and store one reply with the joined chunks and the sources |
| Chat.StreamShape | api/index.js:243-262 | `session` comes first, then the relayed events, then exactly one `error` event when the provider threw |
| Chat.RelayedHasNoErrorOrSession | api/index.js:249-256 | the relayed part holds no `session` and no `error` event |
| Chat.SessionMessagesAppend | api/index.js:238-240 | filtering after an append is filtering before it, plus the new message if it belongs to the session |
| Chat.SessionMessagesIncreasing | api/index.js:240 | filtering keeps increasing ids increasing |
| Chat.TurnHistory | api/index.js:238-248 | the provider sees exactly the session's earlier messages in store order, without the message just sent |
| Chat.TurnWithReply | api/index.js:229-264 | a turn ending in one `done` stores the user message and one reply under the next two ids, and streams `session`, the events, `done` and possibly `error` |
| Chat.ReplyRelay | api/index.js:248-256 | the provider loop over events with a single final `done` |
| Chat.RelayKeepsIdsFresh | api/index.js:253 | the replies the loop stores get fresh, increasing ids |
| Chat.TurnKeepsIdsFresh | api/index.js:233-257 | a turn keeps session and message ids increasing and below their counters, so they stay unique |
| Chat.HistoryIsEarlierMessages | api/index.js:240-248 | sorting by id and dropping the last message gives back the session's earlier messages |
| Assessment.ToInt32 | api/index.js:77-78 | the 32-bit truncation lies in the signed 32-bit range and is congruent to its input modulo 2^32 |
| Assessment.ToInt32Congruent | api/index.js:77-78 | the truncation depends only on the value modulo 2^32 |
| Assessment.Djb2Wraps | api/index.js:74-79 | truncating in every round gives the exact polynomial hash `5381·33^n + Σ cᵢ·33^(n-1-i)` reduced to signed 32 bits |
| Assessment.WrapStep | api/index.js:77-78 | one round keeps the running hash equal to the exact hash modulo 2^32 |
| Assessment.HashStringShape | api/index.js:80 | the hash is one to ten decimal digits |
| Assessment.SimpleHash | api/index.js:74-81 | the loop computes the reference hash string |
| Assessment.KeepAlnum | api/index.js:84 | only lower-case letters, digits and whitespace survive |
| Assessment.KeepAlnumAppend | api/index.js:84 | characters are removed one by one: the kept part of a concatenation is the kept parts of its pieces |
| Assessment.CollapseSpaces | api/index.js:84 | every character of the result is a plain space or outside `\s` (which non-space characters survive, and in what order, is `CollapseKeepsContent`) |
| Assessment.CollapseRun | api/index.js:84 | a non-empty run of whitespace becomes one space |
| Assessment.CollapseKeepsContent | api/index.js:84 | the characters outside `\s` survive collapsing, all of them and in order |
| Assessment.CollapseSpaceCount | api/index.js:84 | the result has exactly one space per maximal run of whitespace in the input |
| Assessment.CollapseAppend | api/index.js:84 | cut outside a run of whitespace, the pieces collapse separately, so each maximal run becomes one space and every other character stays in place |
| Assessment.CollapseNormal | api/index.js:84 | text of letters, digits and single spaces is left as it is |
| Assessment.KeepNormal | api/index.js:84 | text of letters, digits and spaces loses nothing |
| Assessment.NormalizeTwice | api/index.js:83-85 | normalizing a normalized answer only trims it |
| Assessment.NormalizeLeavesSpace | api/index.js:83-85 | "a !" normalizes to "a ", and "a " to "a", so normalizing is not idempotent |
| Assessment.NormalizedAlphabet | api/index.js:83-85 | a normalized answer holds only `a-z`, digits and plain spaces |
| Assessment.CollapseNoDoubleSpace | api/index.js:84 | after collapsing, no two spaces are adjacent |
| Assessment.NormalizedNoDoubleSpace | api/index.js:83-85 | a normalized answer has no two adjacent spaces |
| Assessment.NormalizeIgnoresCase | api/index.js:83-85 | answers that differ only in ASCII case normalize alike |
| Assessment.NormalizePlainWord | api/index.js:83-85 | a word of lower-case letters and digits is its own normal form |
| Assessment.AnswerForMissing | api/index.js:347 | without an entry for the index, the answer is the empty string |
| Assessment.AnswerForFirst | api/index.js:347 | the first entry with the index supplies the answer, or the empty string when its answer is missing |
| Assessment.GradeOne | api/index.js:346-360 | the result carries the question's index |
| Assessment.GradeOneRule | api/index.js:347-360 | a short answer is correct exactly when its normalized form has at least 2 characters and equals, contains or is contained in the normalized expected answer. Other types need trimmed, lower-cased equality |
| Assessment.CorrectCount | api/index.js:359 | the score never exceeds the number of results |
| Assessment.CorrectCountStep | api/index.js:359 | each correct result adds one to the score |
| Assessment.PercentageIsRound | api/index.js:364 | the integer formula is `Math.round` of the exact percentage |
| Assessment.PercentageBounds | api/index.js:364 | a percentage lies between 0 and 100 |
| Assessment.PassedIff | api/index.js:364-372 | a test passes exactly when at least 79.5% of its answers are correct; a test without questions, whose percentage is `NaN`, never passes |
| Assessment.GradeTest | api/index.js:345-361 | the loop computes the graded results in order, and its counter is their number of correct results |
| Assessment.MissingShortAnswerWrong | api/index.js:347-354 | a missing answer is never correct for a short-answer question |
| Assessment.ShortAnswerIgnoresCase | api/index.js:350-354 | short answers differing only in ASCII case are graded alike |
| Assessment.ShortFragmentAccepted | api/index.js:353-354 | any fragment of two or more characters of the expected answer is accepted, such as "ta" for "taxes" |
| Assessment.ExactIgnoresCaseAndSpace | api/index.js:356 | the exact rule ignores surrounding whitespace and ASCII case, in both directions |
| Assessment.FindTest | api/index.js:342 | the test found is the first for the document, and there is none exactly when no test is |
| Assessment.GradeAll | api/index.js:346-361 | there is one result per question, in order, each graded at its own position |
| Assessment.GradedAttempt | api/index.js:363-375 | the record built from the loop's results is the reference attempt |
| Assessment.AttemptShape | api/index.js:363-375 | score counts the correct answers, total is the number of questions, indices are positions, and the percentage is `NaN` exactly without questions |
| Assessment.SubmitRecordsOne | api/index.js:337-377 | exactly one attempt is appended under the counter when answers are given and a test exists; otherwise nothing changes. Attempt ids stay increasing and below the counter |
| Assessment.HandleTestSubmit | api/index.js:336-380 | on the store object, the attempts, their counter and the response are `Submit` of the old store, and no other counter moves |
| Assessment.SubmitFound | api/index.js:342-377 | with answers and a stored test, the attempt is appended and returned |
| Assessment.Strip | api/index.js:281-315 | one stripped question per question, in order |
| Assessment.FindDocument | api/index.js:270 | the document found is the first with the id, and there is none exactly when no document has it |
| Assessment.Generate | api/index.js:268-323 | generation never changes the documents |
| Assessment.HandleTestGenerate | api/index.js:268-323 | on the store object, the tests and the response are `Generate` of the old state, and no other counter moves |
| Assessment.GenerateKeepsOneTestPerDocument | api/index.js:276-310 | generation never stores a second test for a document |
| Assessment.GenerateThenCached | api/index.js:275-285 | right after a successful generation, asking again serves the stored questions from the cache, whatever the model would answer |
| Assessment.StoredIsFound | api/index.js:300-310 | after storing, the document's test is found and holds the questions, the time and the hash |
| Assessment.FindTestAppend | api/index.js:303-309 | a pushed test is found when the document had none |
| Assessment.CachedIffSameHash | api/index.js:275-285 | for a document with enough text, the cache is served exactly when the document's stored test carries the hash of the current first 5000 characters, and then nothing changes |
| Assessment.FailureChangesNothing | api/index.js:271-322 | every outcome but a fresh generation (a missing document, short content, the cache, a failed generation) leaves the state unchanged |
| Assessment.TooFewQuestionsFail | api/index.js:296-298 | fewer than five questions from the model is a failure |
| Assessment.GeneratedTestsAreLarge | api/index.js:296-310 | every stored test holds at least five questions, so an attempt on it always has a percentage |
| Assessment.StoredLarge | api/index.js:300-310 | storing five or more questions keeps every test at five or more |
| Leaderboard.ForDocument | api/index.js:392 | only the document's attempts are kept |
| Leaderboard.ConsiderGet | api/index.js:395-396 | a round replaces a branch's entry only when it had none or the attempt's percentage is strictly greater |
| Leaderboard.ConsiderKeeps | api/index.js:393-397 | a round keeps the object keyed by branch, with distinct keys |
| Leaderboard.BestByBranch | api/index.js:393-398 | the best-by-branch object is keyed by branch, with distinct keys |
| Leaderboard.Rows | api/index.js:401 | one row per ranked attempt, ranked 1, 2, ... |
| Leaderboard.HandleTestLeaderboard | api/index.js:390-403 | the loop and the rank mapping compute the rows of the reference ranking |
| Leaderboard.BestCoversBranches | api/index.js:393-398 | a branch has an entry exactly when it has an attempt |
| Leaderboard.BestUnbeaten | api/index.js:395 | the kept attempt is one of the branch's own, and none of them has a strictly greater percentage |
| Leaderboard.BestIsEarliestMaximum | api/index.js:395 | the kept attempt is the earliest with the branch's highest percentage, a `null` one counting as 0, so a tie keeps the earlier one |
| Leaderboard.RankingContents | api/index.js:399-400 | the leaderboard lists exactly the attempts kept for some branch |
| Leaderboard.LeaderLePreorder | api/index.js:400 | the comparator is a total preorder on attempts |
| Leaderboard.RankingSorted | api/index.js:399-400 | percentages never increase down the list, and equal ones are in completion order |
| Leaderboard.BestScores | api/index.js:407-414 | every branch object is keyed by document for that branch, with distinct keys |
| Leaderboard.ConsiderGlobalKeeps | api/index.js:409-413 | a round keeps every branch object keyed by document for that branch, with distinct keys |
| Leaderboard.ConsiderGlobalFrom | api/index.js:409-412 | a round stores only attempts of the store |
| Leaderboard.EntriesNonEmpty | api/index.js:415-417 | there is one entry per branch, and no branch object is empty, so the average never divides by zero |
| Leaderboard.PassedCount | api/index.js:419 | the passed tests never outnumber the tests taken |
| Leaderboard.Summaries | api/index.js:415-419 | one row per branch entry |
| Leaderboard.Ranked | api/index.js:421 | ranks 1, 2, ... are assigned in list order, and nothing else changes |
| Leaderboard.NestedAssignment | api/index.js:409-413 | creating the branch object and assigning into it is one round of the reference loop |
| Leaderboard.HandleGlobalLeaderboard | api/index.js:405-423 | the loop, the summaries, the sort and the rank assignment compute the reference leaderboard |
| Leaderboard.AssignRanks | api/index.js:421 | the `forEach` assigns ranks 1, 2, ... in order |
| Leaderboard.GlobalMatchesPerDocument | api/index.js:395-412 | a branch's entry for a document is the attempt the per-document leaderboard keeps |
| Leaderboard.ConsiderGlobalGet | api/index.js:409 | a round creates the attempt's branch entry and removes none |
| Leaderboard.GlobalCoversBranches | api/index.js:407-414 | a branch has an entry exactly when it has an attempt |
| Leaderboard.GlobalRowCount | api/index.js:415-421 | there is one row per branch entry |
| Leaderboard.BestScoresFrom | api/index.js:407-414 | every stored attempt is one of the store's attempts |
| Leaderboard.SummaryOrigin | api/index.js:415-419 | each summary comes from a non-empty object of stored attempts |
| Leaderboard.NumericOnly | api/index.js:417 | the attempts kept are attempts of the list with numeric percentages |
| Leaderboard.SumSkipsNull | api/index.js:417 | a `null` percentage adds nothing: the sum is that of the numeric percentages alone |
| Leaderboard.SumBounds | api/index.js:417 | percentages between 0 and 100, or `null`, sum to between 0 and 100 per attempt |
| Leaderboard.AverageIsRound | api/index.js:417 | the average is `Math.round` of the exact mean |
| Leaderboard.AverageBounds | api/index.js:417 | the average of percentages between 0 and 100, a `null` one counting as 0, lies between 0 and 100 |
| Leaderboard.SummaryFacts | api/index.js:416-419 | a row has at least one test taken, no more passed than taken, and a bounded average |
| Leaderboard.GlobalRowFacts | api/index.js:415-421 | each row has its rank, at least one test taken, no more passed than taken, and an average between 0 and 100 |
| Leaderboard.RowOrigin | api/index.js:415-421 | each row is the summary of stored attempts, ranked by position |
| Leaderboard.SortedFrom | api/index.js:420-421 | each ranked row is a sorted summary |
| Leaderboard.GlobalSorted | api/index.js:420 | averages never increase down the list |
| Processes.DigitValue | api/index.js:163 | digits have their decimal value, and a value below 10 means a decimal digit |
| Processes.DigitPrefix | api/index.js:163 | the longest prefix made of the radix's digits |
| Processes.Unsigned | api/index.js:163 | dropping the sign never lengthens the text |
| Processes.ParseIntUnsigned | api/index.js:163 | a string starting with a digit, and not with `0x`, is read in radix 10 from its first character, NaN when no digit is read |
| Processes.ParseIntOfDigits | api/index.js:163 | a string of decimal digits reads as its value |
| Processes.ParseIntOfDecimal | api/index.js:163 | `parseInt(String(n))` is `n` |
| Processes.ParseIntNaN | api/index.js:163 | a string starting with no digit, sign or whitespace is `NaN` |
| Processes.SliceBound | api/index.js:164 | a resolved bound lies within the length |
| Processes.Slice | api/index.js:164 | `slice` gives the window between the resolved bounds, or nothing |
| Processes.CeilDivIsCeiling | api/index.js:167 | the page count is the ceiling of the ratio |
| Processes.Summary | api/index.js:166 | a summary keeps every field but `content_text` |
| Processes.Where | api/index.js:158-160 | the filter keeps each element wanted, as often as it occurs, and nothing else |
| Processes.Summaries | api/index.js:166 | one summary per document, in order |
| Processes.SelectedIff | api/index.js:156-160 | a search keeps exactly the documents whose lower-cased title or text contains the lower-cased search, and a category other than "All" keeps exactly that category |
| Processes.NoFilterSelectsAll | api/index.js:156-160 | without a search or category filter, every document is listed |
| Processes.ListSortedByTitle | api/index.js:161-162 | the listed documents are the selection in title order, and `total` counts the whole selection |
| Processes.PageWindow | api/index.js:164 | page `p >= 1` is the window from `(p - 1) * limit` to `p * limit`, cut to the list |
| Processes.PagesTile | api/index.js:164 | the first `k` pages hold the first `k * limit` documents, in order |
| Processes.PagesCoverAll | api/index.js:164-167 | with a positive limit, the reported pages hold every document, and the last page is non-empty |
| Processes.DefaultPageParses | api/index.js:153 | the default page reads as 1 |
| Processes.DefaultLimitParses | api/index.js:153 | the default limit reads as 20 |
| Processes.DefaultPaging | api/index.js:153-167 | without `page` and `limit` the first 20 documents are listed, and the page count is `ceil(total / 20)` |
| Processes.ListedPage | api/index.js:163-166 | the listed page is the page of the parsed number and limit |
| Processes.UnparsablePageEmpty | api/index.js:163-164 | a page number that does not parse lists nothing |
| Processes.PageZeroEmpty | api/index.js:164 | page 0 lists nothing |
| Processes.Distinct | api/index.js:180 | `new Set` keeps each element once, and exactly the elements given |
| Processes.Categories | api/index.js:180 | one category per document, in order |
| Processes.PermutationNoDuplicates | api/index.js:180 | sorting distinct elements keeps them distinct |
| Processes.CategoryListFacts | api/index.js:178-182 | "All" comes first, then every document category exactly once, in ascending order |
| Processes.AllListedOnce | api/index.js:180-181 | "All" appears only once when no document carries it |
| Router.DigitRoute | api/index.js:470-488 | the route matches exactly a prefix followed by one or more digits, and captures the digits |
| Router.OptionsAlwaysAnswered | api/index.js:429 | a preflight request is answered whatever its URL and token |
| Router.QueryIgnored | api/index.js:431 | the query string plays no part in routing |
| Router.ProtectedNeedsAuth | api/index.js:461-462 | a protected handler is reached only with a verified token |
| Router.AuthorizedReachesProtected | api/index.js:434-462 | with a token, every request that is not a preflight or a public route reaches the protected routes |
| Router.MethodsRespected | api/index.js:429-489 | each handler is reached only with the method it serves |
| Router.DigitRouteRoundTrip | api/index.js:470-489 | a route built from a numeral captures the numeral, and `parseInt` of it gives the number back |
| Router.NumeralPath | api/index.js:470 | a path ending in a numeral routes by that numeral |
| Router.PastPublicRoutes | api/index.js:434-440 | paths below "/api/tests/" or "/api/processes/" pass the public routes |
| Router.PastFixedRoutes | api/index.js:464-488 | paths below "/api/tests/" pass the fixed protected routes |
| Router.GenerateRouteReached | api/index.js:470-471 | `POST /api/tests/generate/<n>` reaches the generator |
| Router.QuestionsRouteReached | api/index.js:473-474 | `GET /api/tests/questions/<n>` reaches the question view |
| Router.SubmitRouteReached | api/index.js:476-477 | `POST /api/tests/submit/<n>` reaches the test submission handler |
| Router.AttemptsRouteReached | api/index.js:479-480 | `GET /api/tests/attempts/<n>` reaches the attempt history |
| Router.LeaderboardRouteReached | api/index.js:482-483 | `GET /api/tests/leaderboard/<n>` reaches the per-document leaderboard |
| Router.ProcessRouteReached | api/index.js:488-489 | `/api/processes/<n>` reaches the document view for any method |
| Router.PastTestRoutes | api/index.js:464-485 | a process-id path passes every earlier protected route |
| Router.CategoriesRoute | api/index.js:464 | "/api/processes/categories" is always the category list, never a process id |
| QuestionBank.FindPillar | api/lib/questionBank.js:482 | the first pillar with the id is found, and none exactly when no pillar has it |
| QuestionBank.FindModule | api/lib/questionBank.js:495 | the first module with the id is found, and none exactly when no module has it |
| QuestionBank.GetPillarQuestions | api/lib/questionBank.js:481-489 | the loop computes the pillar's questions: its modules' lists, concatenated in module order |
| QuestionBank.FlattenAppend | api/lib/questionBank.js:485-487 | concatenation distributes over the module list |
| QuestionBank.FlattenSlot | api/lib/questionBank.js:485-487 | each module's questions sit, in order, right after those of the modules before it |
| QuestionBank.FlattenIff | api/lib/questionBank.js:485-487 | a question is among the concatenation exactly when some module has it |
| QuestionBank.PillarQuestionsIff | api/lib/questionBank.js:481-489 | a question is in a pillar's list exactly when the pillar exists and one of its modules has it |
| QuestionBank.ModuleQuestionsInPillar | api/lib/questionBank.js:481-497 | a module's questions are a contiguous run of its pillar's questions |
| QuestionBank.UnknownIsEmpty | api/lib/questionBank.js:483-504 | an unknown pillar or module has no questions and no scenarios, and neither does a module without a `scenarios` field |
| QuestionBank.Letter | api/lib/questionBank.js:514-523 | option `i` is lettered with code 65 + i |
| QuestionBank.Labelled | api/lib/questionBank.js:514-524 | the label is the letter, ". ", then the option |
| QuestionBank.FormatOne | api/lib/questionBank.js:509-515 | a formatted question keeps its id and text, is typed multiple choice, and labels every option in order |
| QuestionBank.FormatQuestionsForClient | api/lib/questionBank.js:508-516 | the count and order are kept, `index` is the position, and no answer or explanation is sent |
| QuestionBank.GradeOne | api/lib/questionBank.js:521-541 | the result carries the question's id, text and index, and the labelled correct option and explanation |
| QuestionBank.CountCorrect | api/lib/questionBank.js:530 | the score never exceeds the number of results |
| QuestionBank.GradeAnswers | api/lib/questionBank.js:519-548 | one result per question, in order. The score counts the correct results. The percentage is rounded, and the test passes at 80 or more |
| QuestionBank.PercentFacts | api/lib/questionBank.js:544-545 | with questions the percentage is `Math.round` of the ratio and lies between 0 and 100; without questions it is 0 |
| QuestionBank.MissingAnswerWrong | api/lib/questionBank.js:522-528 | a missing answer is wrong |
| QuestionBank.FirstEntryGraded | api/lib/questionBank.js:522-528 | the first entry with the index supplies the answer, and it is correct exactly when its leading letter is the answer's |
| QuestionBank.LeadLetterDecides | api/lib/questionBank.js:527-528 | only the upper-cased first character of the trimmed answer matters |
| QuestionBank.LabelledOptionRoundTrip | api/lib/questionBank.js:514-528 | with at most 32 options, the labelled option `k` is graded correct exactly when `k` is the answer |
| QuestionBank.SubmitFormattedOption | api/lib/questionBank.js:508-528 | round trip: submitting option `k` exactly as formatted is graded correct exactly when `k` is the answer |
| QuestionBank.ThirtyThirdOptionCollides | api/lib/questionBank.js:514-527 | the bound of 32 options is tight: the 33rd, lettered "a", is graded as answer "A" |
| QuestionBank.CountCorrectIsCount | api/lib/questionBank.js:530-544 | the score is the number of correct results |
| QuestionBank.ShuffleArray | api/lib/questionBank.js:551-558 | the result is a fresh array holding a permutation of the input, and the input is left unmodified |
| UserStore.FindIndex | api/lib/userStore.js:125 | the first user whose email matches case-insensitively is found, and none exactly when no user matches |
| UserStore.Find | api/lib/userStore.js:111 | a user is found exactly when some user matches, and the found user matches |
| UserStore.MaxId | api/lib/userStore.js:116 | the largest id of a non-empty list |
| UserStore.NextId | api/lib/userStore.js:116 | the generated id is 1 for no users, and otherwise one more than the largest id, so it is above every existing id |
| UserStore.Created | api/lib/userStore.js:117 | a caller-supplied id wins over the generated one, and every other field is copied |
| UserStore.Merge | api/lib/userStore.js:127 | the given fields override and all others are kept |
| UserStore.UserList.constructor | api/lib/userStore.js:110 | the list is the loaded users |
| UserStore.UserList.AddUser | api/lib/userStore.js:114-121 | exactly one record is appended at the end, with the generated or supplied id, and the earlier users are unchanged |
| UserStore.UserList.UpdateUser | api/lib/userStore.js:123-130 | the list and the result are the merge into the first match, or the list unchanged with null |
| UserStore.FindFirstMatch | api/lib/userStore.js:111 | the first match is found, whatever the case of the query |
| UserStore.AddThenFind | api/lib/userStore.js:114-118 | after adding, a lookup finds the old match if there was one, else the new user if it matches; a generated id is new |
| UserStore.UpdateFacts | api/lib/userStore.js:125-129 | without a match nothing changes and null is returned; otherwise only the first match changes, and it is returned merged |
| UserStore.UpdateThenFind | api/lib/userStore.js:125-129 | an update that leaves the email alone is seen by the next lookup |
| UserStore.MergeIdentityIdempotent | api/lib/userStore.js:127 | merging no fields changes nothing, and merging twice is merging once |
| RegisterForm.Submit | client/src/pages/Register.jsx:20-34 | registration sends the fields exactly as typed |
| RegisterForm.DomainOfSingle | client/src/pages/Register.jsx:16 | the domain of an address with one `@` is its lower-cased text after the `@` |
| RegisterForm.DomainOfSeveral | client/src/pages/Register.jsx:16 | text after a second `@` is ignored |
| RegisterForm.NoAtRejected | client/src/pages/Register.jsx:16-17 | an address without `@` has no domain and is rejected |
| RegisterForm.ValidDomainIff | client/src/pages/Register.jsx:6-18 | a domain is accepted exactly when, lower-cased, it is one of the two allowed ones |
| RegisterForm.TrailingSpaceRejected | client/src/pages/Register.jsx:22-29 | trailing whitespace makes an allowed address invalid, because the domain check sees the untrimmed address |
| RegisterForm.NonBlank | client/src/pages/Register.jsx:22 | an address with an `@` is never blank |
| RegisterForm.BlankFirst | client/src/pages/Register.jsx:22-25 | a blank name or address is reported first, whatever the domain |
| RegisterForm.RegisterIff | client/src/pages/Register.jsx:22-34 | registration happens exactly when both fields are non-blank and the domain is allowed; otherwise one of the two messages is shown |
| SetPasswordForm.Submit | client/src/pages/SetPassword.jsx:14-32 | the password goes out as typed, with the token |
| SetPasswordForm.ErrorOrder | client/src/pages/SetPassword.jsx:16-27 | each error is reported once the validations before it have passed |
| SetPasswordForm.ShortBeatsMismatch | client/src/pages/SetPassword.jsx:20-23 | a short password is reported as short even when the confirmation differs |
| SetPasswordForm.SetPasswordIff | client/src/pages/SetPassword.jsx:16-32 | the call is made exactly when both fields are filled, the password has at least 8 characters and the two are equal |
| SetPasswordForm.SpacesAccepted | client/src/pages/SetPassword.jsx:16-32 | nothing is trimmed: eight spaces, confirmed, are accepted |

## Left out

- Case mapping is ASCII-only. `toLowerCase` and `toUpperCase` map the
  full Unicode range in JavaScript, but only `A-Z` and `a-z` are mapped
  here. The grading round trip (`QuestionBank.LabelledOptionRoundTrip`)
  involves only characters whose mapping is the same either way.
- Strings are sequences of Dafny characters. `charCodeAt` is a
  character's code, which is exact for text without surrogate pairs;
  UTF-16 surrogate pairs are not modelled.
- Numbers are integers or `NaN`. `parseInt` reads unbounded integers,
  so precision loss above 2^53 and `-0` are not modelled. The average of
  the global leaderboard is a sum of integers divided by a count, and
  its exact rounding equals the floating-point one for such operands.
- Assessment.PercentageIsRound: the model rounds the exact ratio, while
  the code rounds the double `(score / total) * 100`, which comes out of
  two roundings to the nearest double. Where the exact value ends in .5
  the double can fall just below it, and then the code gives one less
  than the model: 23 of 40 is 57 in the code and 58 here. For totals up
  to 1000 this happens exactly for the ratios 23/40, 29/200, 57/200 and
  113/200 and their multiples.
- Assessment.PassedIff: the pass decision (80 or more) is the same in
  the code and the model for every total up to 1000; beyond that the
  double rounding is not modelled.
- QuestionBank.PercentFacts: `gradeAnswers` rounds the same double
  (api/lib/questionBank.js:545), so the same ratios give one less in the
  code than here.
- QuestionBank.GradeAnswers: its percentage is `QuestionBank.Percent`,
  so it differs from the code on the same ratios; whether the test
  passes does not, for totals up to 1000.
- An assistant reply stores `JSON.stringify(sources)`, a string. The
  model stores the list that string encodes, which `JSON.parse` gives
  back; the string form is not modelled.
- `Math.ceil(total / 0)` is `Infinity`, which `JSON.stringify` writes as
  `null`, so the model returns `NaN` for it.
- Listing query parameters are strings or absent. A repeated parameter,
  which Express turns into an array, is not modelled.
- Timestamps are opaque integers. One `now` stands for every
  `new Date().toISOString()` of a request, and `new Date(...)` of a
  stored time is that integer.
- `localeCompare` is the parameter `titleLe`. Only a total preorder is
  assumed of it.
- `Array.prototype.sort` is a stable insertion sort. Every comparator
  sorted with is a total preorder, so any stable sort gives the same
  order.
- Concurrency is not modelled. Serverless instances sharing the `/tmp`
  store, and the store `handleChat` reloads before storing a reply
  (api/index.js:252), are the same store here.
- `loadStore` returns a shallow copy of `DEFAULT_STORE` whose arrays are
  shared with it. That aliasing is not modelled: each load gets fresh
  collections.
- The PDF and DOCX decoders (`pdf-parse`, `mammoth`) and UTF-8 decoding
  are the abstract functions of `Indexing.Decoders`.
- `generateEmbeddings`, `generateRagResponse` and retrieval are not part
  of this model: api/lib/rag.js and api/lib/embedding.js are not
  available. Embedding is a function that may fail, and the answer
  generator is a list of events that may end in an exception.
- The Gemini prompt, its call and the `JSON.parse` of its output
  (api/index.js:87-133, 288-297) are replaced by the parsed question list
  or its absence.
- File and Drive I/O are left out: `saveStore`, the reading of the store
  file, `loadUsers`/`saveUsers` and the Drive backup. A failed listing is
  `None`. The SSE framing, headers and status codes become an abstract
  list of events and response values.
- Authentication is left out: `requireAuth` is the `authorized` flag of
  `Router.Dispatch`. api/lib/auth.js, api/lib/email.js, api/lib/config.js
  and api/lib/drive.js are not part of this model.
- The handlers `handleProcessById`, `handleTestQuestions`,
  `handleTestAttempts`, `handleAuthLogin`, `handleAuthBranches`, the
  health route and `/api/debug-sync` are modelled only as the targets of
  the dispatch.
- The `PILLARS` and `SCENARIOS` data are not transcribed; the bank is a
  parameter. Each question must have its answer index among its options
  and fewer than 0xD800 - 65 options, so that its letters are characters.
- `Math.random` in `shuffleArray` is nondeterministic: the swap index is
  any index from 0 to `i`, chosen with `:|`.
- A submitted answer is a string or absent. Non-string answers, on which
  `trim` would throw, are not modelled.
- User properties other than `id` and `email` are strings by name.
- `requestBody` values other than a non-empty `message` string, and a
  `sessionId` that is a number or absent, are not modelled.
- `Indexing.ChunkText` requires `overlap < targetSize`, the only case in
  which the loop of `chunkText` ends. The single call uses 500 and 100.
- `Indexing.ChunkWordList` folds `end = Math.min(start + targetSize, n)`
  into the branch test `start + targetSize >= n`; the chunks are the
  same.
- `simpleHash` is modelled on unbounded integers with an explicit
  ECMAScript ToInt32 after each operator, not on 32-bit bit-vectors; its
  result is the same.
- Assessment.GradeOne: its own contract gives only the index; how the
  answer is judged is stated by `Assessment.GradeOneRule` and the lemmas after it.
- QuestionBank.GradeOne: its own contract leaves `is_correct` and
  `user_answer` to `QuestionBank.FirstEntryGraded` and
  `QuestionBank.LeadLetterDecides`.
- The counter-keeping functions `Sync.Recorded`, `Sync.Attach`,
  `Sync.SyncFile`, `Sync.Indexed`, `Sync.Step`, `Chat.Opened`,
  `Chat.Replied` and `Chat.AfterTurn` state only that counters stay
  valid in their contracts. What they compute is stated by the methods
  proved against them and by the lemmas of their modules.
