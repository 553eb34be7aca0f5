# KnowGate verification model

A Dafny model of the algorithms and state machines of KnowGate, a retrieval backend with a thin browser client, and
proofs of what they keep. `dafny verify dfyconfig.toml` checks the whole project. Python and TypeScript code that
updates things step by step is modelled by methods and classes, each proved against a specification function; the
properties are then lemmas about those functions, for all inputs, all runs and all interleavings.

| file | what it models |
|---|---|
| `Wrappers.dfy`, `Collections.dfy`, `Texts.dfy`, `Decimals.dfy` | options and results; maps and sequences; substring search, `split`, `join`, `strip`; decimal digits |
| `Parser.dfy`, `Elements.dfy` | folding document elements into sections, and what the sections hold, told from the elements |
| `Splitter.dfy`, `SplitOrder.dfy` | the recursive splitter, and in which order it tries its boundaries |
| `Chunker.dfy`, `Overlap.dfy` | the overlap pass, the chunks of a document, and how much of one the next begins with |
| `ByteTokens.dfy`, `PairTokens.dfy`, `TrimLoss.dfy` | tokenizers whose tokens are bytes of UTF-8, one of them in full, and what the chunker does with them |
| `ChunkStores.dfy`, `ChunkHistory.dfy` | points and rows of an ingested document, and after any history of syncs, ingests and re-embeddings |
| `RrfMerge.dfy`, `MergedFields.dfy`, `Retrieval.dfy` | reciprocal rank fusion, confidence labels, hydration; a whole search over stores of any history |
| `Utf8.dfy`, `EventStream.dfy`, `JobStream.dfy`, `JobReport.dfy` | the progress stream of a sync job: what the server sends, prints, and the client reads |
| `Base64.dfy`, `Json.dfy`, `Cursors.dfy`, `KeysetPaging.dfy` | page cursors and the walk over a changing table |
| `CircuitBreaker.dfy`, `LlmClient.dfy` | the breaker between two models, and the client that reports to it |
| `SyncReplay.dfy`, `SyncItems.dfy`, `Connectors.dfy` | a sync run that may die at any point and is run again; what it leaves of each change; what the connectors list |
| `TokenBucket.dfy`, `SlidingWindow.dfy` | the two rate limiters |
| `AdminGuard.dfy`, `RoleHolders.dfy` | users, roles and the last active admin; who holds what after each operation |
| `SingleFlight.dfy` | the shared token refresh of the browser client |

## Where the code and its documentation disagree

The model follows the code. Each line names the lemma that shows the difference.

- The chunker's cap is not hard: a tokenizer that spends several tokens on one character gets chunks over it, whatever
  the chunker is configured with (`TrimLoss.CapBrokenByWideCharacters`); `Splitter.CapHoldsIff` and
  `Chunker.ChunksWithinCapIff` say for which tokenizers it is.
- Trimming cuts "from the front to preserve the end", and can still cut into the piece itself, whenever there is an
  overlap (`TrimLoss.TrimLosesText`, `TrimLoss.TrimIsSafeIff`); `ByteTokens.WholeIff` says when it does.
- The breaker is documented to close when its probe succeeds; any success reported in HALF_OPEN closes it, also one of
  the fallback model (`CircuitBreaker.FallbackSuccessCloses`, `LlmClient.AnyCallMayClose`). The probe decides exactly
  when no other call is in flight or begins meanwhile (`LlmClient.ProbeDecidesIff`). A probe that never reports, as when
  the response body cannot be read, leaves the breaker in HALF_OPEN until another call reports
  (`CircuitBreaker.ProbeIsSingle`).
- The token bucket lets through up to twice its rate: what flows in while a call sleeps pays for that call and is
  counted again at the next refill (`TokenBucket.BoundIsAttained`). `TokenBucket.KeepsRateIff` says which runs of grants
  keep to the rate.
- The sliding window counts calls at the same instant once (`SlidingWindow.EqualTimestampsCollapse`).
- The confidence label counts rows, not agreement: "high" means found four times (`RrfMerge.LabelIsCount`), which takes
  a chunk that one list repeats (`RrfMerge.HighTakesRepeats`). Keyword search repeats a chunk for every group that the
  caller shares with its document (`RrfMerge.FourGroupsMakeHigh`), and "both" marks such a chunk too
  (`RrfMerge.BothMeansBothIff`).
- The comment on the payload of a point says that the row id is filled in later. An ingest leaves it empty, and only a
  re-embedding fills it in (`ChunkHistory.RowIdIff`), which forgets title, language and groups, so that vector search
  finds the point for nobody (`ChunkHistory.VisibleIff`). It stays so until the document is upserted or put in another
  status and then ingested, since an active document is not ingested again (`ChunkHistory.StaysForgotten`,
  `ChunkHistory.ReembeddingForgets`).
- So vector search reports every chunk by the id of its point and keyword search by that of its row
  (`ChunkHistory.ReportedByPointId`): the merge never fuses a chunk of both, "both" marks only what keyword search
  repeats (`Retrieval.FusionIsUnion`), and the hydration that is to fill in the texts of vector results fills in none
  (`Retrieval.VectorStaysBare`).
- The groups in the payload are for the read path to filter by, but only an ingest writes them: deleting a document or
  changing its groups changes nothing in what vector search finds (`ChunkHistory.OnlyIngestsShow`,
  `ChunkHistory.ShownAsSharedIff`).
- `ChunkHistory.AgreeIff` and `ChunkHistory.VectorIff` say when the two stores agree; an ingest that dies between them
  can leave the vector of a text that no row has.
- Rows of an earlier, longer version of a document stay (`ChunkStores.OnlyOwnRowsIff`).
- A document is named after its first title with text, which need not be its first title element
  (`Parser.DocTitleIsFirstNamed`, `Parser.FirstTitleNamesIff`).
- The sync engine publishes progress on a channel that the stream endpoint does not listen to
  (`EventStream.ProgressIsNotStreamed`).
- The stream endpoint closes for COMPLETED and FAILED only: the stream of a job that ended as PARTIAL goes on for as
  long as the client stays (`JobStream.FinishedJobEndsIff`).
- A sync run is "resumable", but its cursor also moves past changes that failed (`SyncReplay.FailedChangeIsPassed`,
  `SyncReplay.ListedAgainIff`), and a Drive source's first run is never repeated (`Connectors.FirstDriveRunIsLost`).
- Notion lists pages edited after the cursor, and misses later edits of the very same time
  (`Connectors.EditIsMissedIff`); a page without a time stops the listing for good (`Connectors.NoTimeStops`).
- A logout during a token refresh is undone when the refresh succeeds (`SingleFlight.LogoutHolds`), and a login during
  one is undone when it ends (`SingleFlight.LoginHolds`).

## What is assumed

- Clock readings, fresh identifiers, what a document's fetch, upload and upsert come to, and how late a sleeper wakes up
  are parameters. Clocks do not run backwards where a statement says so.
- `Clock.Sound`: `fromisoformat` undoes `isoformat`. `Codec.Sound`: a payload prints on one line and parses back;
  proved for all objects. `CollisionFree`: distinct names have distinct `uuid5`. `RowIdsApart`: the id of a
  row is that of no other row and of no point; the table definitions (`app.db.models`) are not part of this model.
- The results on the splitter and on what becomes of its pieces hold for every tokenizer. Some of those on the overlap
  ask that cutting tokens off a text leaves an end of it (`CutsToEnds`); this is proved of every tokenizer whose tokens
  are bytes (`ByteTokens.ByteLevelCutsToEnds`). Those on the size of what was cut ask that cutting and stripping the
  text at hand does not make it count more (`Shrinks`).
- One embedding model throughout: a text has one vector. A row keeps its id.
- A cursor stands for a place among the source's changes, and the next cursor for one behind every change listed, right
  behind in `SyncReplay.TriedOnceIff` and `SyncReplay.NothingIsLost`. Where a listing without a cursor begins is a
  parameter of each run.
- Ids are compared as text; for UUIDs in canonical form that is the order of the database.
- A handler's transaction, one write of a sync run, and the Redis commands of one rate-limit call each happen at once.

## Model

| member | source | states |
|---|---|---|
| Splitter.SplitRecursive | backend/app/pipeline/chunker.py:147-193 | The generator with its buffer loop yields exactly the recursive specification `Pieces`, for any token counter |
| Splitter.CharSlices | backend/app/pipeline/chunker.py:163-173 | The last-resort loop cuts the text into consecutive slices of `max_tokens` characters |
| Splitter.PiecesTile | backend/app/pipeline/chunker.py:147-193 | For every text, cap and counter the pieces are disjoint in-order segments of the text, and every gap in front, between and at the end is a concatenation of listed separators |
| Splitter.PackIsGreedy | backend/app/pipeline/chunker.py:181-193 | The buffers of the loop are consecutive runs of parts, and each run but the last ends at the very part that would have put it over the cap, the first such part since the run began |
| SplitOrder.BoundariesInOrder | backend/app/pipeline/chunker.py:36-193 | For every text: the pieces come of cutting at "\n\n", "\n", ". ", "! ", "? ", "。" and " " in this order and into slices of `max_tokens` characters in the end; each boundary cuts exactly the texts that those before it left over the cap, into runs of consecutive parts joined again, nothing but empty parts left out, each run ended by a part it could not take |
| SplitOrder.PartsStayWhole | backend/app/pipeline/chunker.py:36-193 | So where the parts between the first boundary a text has are all within the cap, each piece is a run of whole parts: fitting paragraphs are not torn, nor fitting lines and sentences of a text without paragraphs |
| Splitter.ShortRunIsOnePiece | backend/app/pipeline/chunker.py:157-173 | A separator-free text of at most `max_tokens` characters is passed through whole, over the cap or not |
| Splitter.PiecesSettled | backend/app/pipeline/chunker.py:157-193 | A piece over the cap can only be a separator-free run of at most `max_tokens` characters |
| Splitter.CapHoldsIff | backend/app/pipeline/chunker.py:147-154 | "Each piece is within the cap" holds for all texts if and only if the counter keeps every separator-free run of at most `max_tokens` characters within it |
| Splitter.CapHoldsForShortCounts | backend/app/pipeline/chunker.py:147-154 | A counter that gives no text more tokens than characters keeps the cap |
| TrimLoss.CapBrokenByWideCharacters | backend/app/pipeline/chunker.py:67-193 | Against the documented hard cap, for all arguments the chunker accepts: under a byte-level tokenizer a document of as many four-byte characters as the cap is one chunk of four times the cap |
| Chunker.ChunkBySections | backend/app/pipeline/chunker.py:56-142 | The three parameter errors in their order, and otherwise exactly the chunks of the specification |
| Chunker.ChunkAll | backend/app/pipeline/chunker.py:84-142 | The loop over the sections gives the chunks section by section, numbered through |
| Chunker.ChunkSection | backend/app/pipeline/chunker.py:87-140 | One section: nothing when blank, one chunk when it fits, otherwise its pieces with overlap |
| Chunker.ChunkPieces | backend/app/pipeline/chunker.py:116-140 | The overlap loop: each piece behind the tail of the chunk before it, trimmed, stripped, dropped when blank |
| Chunker.OverlapPiece | backend/app/pipeline/chunker.py:118-124 | One turn of the overlap pass |
| Overlap.NextText | backend/app/pipeline/chunker.py:116-229 | For every tokenizer: each piece adds one text, unless blank: the piece behind the last `overlap` tokens of the text before it (the whole text when it has no more, nothing at the start), cut to its last `max_tokens` tokens when over the cap, and stripped |
| Overlap.NextTextPerChar | backend/app/pipeline/chunker.py:116-213 | With one token per character and room: the next text is the last `overlap` characters of the text before it followed by its own piece, stripped |
| Overlap.SectionTexts | backend/app/pipeline/chunker.py:87-114 | A blank section gives no chunk, one within the cap exactly one, and a longer one the texts of its pieces |
| Overlap.FittingSectionIsOneChunk | backend/app/pipeline/chunker.py:87-105 | In a document of any sections: one that fits is one chunk, with its stripped text, title, page and count, at its place |
| Overlap.RefusedIff | backend/app/pipeline/chunker.py:74-81 | Exactly which arguments are refused, and with which of the three errors |
| Chunker.ChunkOfSection | backend/app/pipeline/chunker.py:84-142 | For any tokenizer: text i of section j is the chunk at its own place in the document, with the title and page of the section |
| Chunker.SectionOfChunk | backend/app/pipeline/chunker.py:84-142 | Conversely every chunk comes from a section, and `chunk_index` runs 0..n-1 |
| Chunker.TrimEatsOverlap | backend/app/pipeline/chunker.py:116-229 | Where trimming leaves the piece whole it only eats the overlap: in front of the piece stays an end of the tail, up to a character cut through, and the whole tail when nothing is trimmed; for tokenizers that cut the text to an end of it, as every byte-level one does |
| ByteTokens.WholeIff | backend/app/pipeline/chunker.py:118-229 | For every byte-level tokenizer: trimming leaves the piece whole if and only if the tokens it cuts have no more bytes than the tail, for pieces that do not begin with a replacement character; the one direction for all pieces |
| ByteTokens.CutText | backend/app/pipeline/chunker.py:196-213 | UTF-8 text without its first n bytes decodes to whole characters behind at most three replacement characters, one for each byte left of the character cut through |
| ByteTokens.ByteLevelCutsToEnds | backend/app/pipeline/chunker.py:196-229 | So a byte-level tokenizer cuts every text to an end of it, wherever between two tokens the cut falls |
| TrimLoss.TrimLosesText | backend/app/pipeline/chunker.py:74-229 | For all arguments the chunker accepts that come to an overlap at all: "cuts from the front to preserve the end" does not preserve the piece; under a byte-level tokenizer the document "a bcbc...bc" is given the chunks "a" and "cbc...bc", and its first "b" is in no chunk |
| TrimLoss.TrimIsSafeIff | backend/app/pipeline/chunker.py:74-124 | Of the arguments the chunker accepts, exactly those that come to no overlap keep every piece of every text whole under every byte-level tokenizer |
| TrimLoss.NoOverlapIff | backend/app/pipeline/chunker.py:74-83 | They come to no overlap if and only if the target times the ratio is below one; the overlap is always below the cap |
| Chunker.WholeUntrimmed | backend/app/pipeline/chunker.py:118-124 | For every tokenizer the piece stays whole when nothing is trimmed: without a tail, without overlap, or within the cap |
| Chunker.AllWholePerChar | backend/app/pipeline/chunker.py:107-124 | An instance: with one token per character every non-blank piece of every section stays whole |
| Chunker.TailIsShortSuffix | backend/app/pipeline/chunker.py:196-213 | The tail handed on is an end of the text, up to a character cut through, and not empty when there is overlap; it counts `overlap` tokens at most if cutting this text does not make it count more |
| Chunker.PieceSurvives | backend/app/pipeline/chunker.py:116-140 | For every tokenizer: every non-blank piece that trimming leaves whole is, up to outer whitespace, a suffix of a chunk of its own, behind what trimming left of the overlap |
| Chunker.SlotsIncrease | backend/app/pipeline/chunker.py:116-140 | For every tokenizer such pieces get distinct chunks, in order |
| Chunker.LongSectionSurvives | backend/app/pipeline/chunker.py:107-140 | For every tokenizer: nothing of an over-long section but separators and outer whitespace is lost, where trimming leaves its pieces whole |
| Chunker.ChunksWithinCap | backend/app/pipeline/chunker.py:56-142 | For every tokenizer: `token_count` is the count of the chunk's text, and it can only exceed `max_tokens` in a section with a stripped piece over the cap, or with a text that counts more when it is cut or stripped |
| Chunker.ChunksWithinCapIff | backend/app/pipeline/chunker.py:56-142 | For every tokenizer that counts nothing more that is cut or stripped: "chunks must not exceed this" holds for all documents if and only if every separator-free text of at most `max_tokens` characters without outer whitespace counts at most `max_tokens` |
| Chunker.PerCharWithinCap | backend/app/pipeline/chunker.py:56-142 | So with one token per character no chunk of any document exceeds the cap |
| Chunker.LawfulIsDocile | backend/app/pipeline/chunker.py:107-140 | No section is of that kind when the counter keeps those short texts within the cap and the tokenizer counts nothing more that is cut or stripped |
| Chunker.OnePerCharIsLawful | backend/app/pipeline/chunker.py:147-229 | An instance: one token per character meets everything these results ask of a tokenizer |
| Parser.ElementsToParsed | backend/app/pipeline/parser.py:156-226 | The empty-document error exactly when no element outside the titles has text; otherwise the sections grouped by title and the document title |
| Parser.Collect | backend/app/pipeline/parser.py:161-214 | The flush loop equals the recursive group-by-title specification |
| Parser.Take | backend/app/pipeline/parser.py:182-212 | One element: blank ones skipped, a title closes the section and caps its heading at 255 characters, other text is kept and may turn the page |
| Parser.Flush | backend/app/pipeline/parser.py:167-180 | Closing a section: its paragraphs joined by blank lines; stripping and the emptiness test never change anything |
| Parser.NormalizeLevel | backend/app/pipeline/parser.py:229-232 | The heading level: the depth where it is 1 to 3, 1 below or without one, 3 above |
| Parser.FullTextIsParagraphs | backend/app/pipeline/parser.py:68-226 | The full text is the blank-line join of all non-blank texts outside titles, in order |
| Elements.FullTextOfElements | backend/app/pipeline/parser.py:68-226 | Told from the elements: the full text is the blank-line join of the stripped texts of all elements whose category is not "Title", blank ones left out |
| Elements.SectionsOfElements | backend/app/pipeline/parser.py:156-226 | Told from the elements: the sections are those of the headings with text before the next one, in order, behind one titled "(untitled)": each with the first 255 characters of its heading, its level, all its texts in full, and the page of the last "NarrativeText", "Text", "ListItem" or "Table" element with one, or else that of the heading |
| Elements.DocumentName | backend/app/pipeline/parser.py:219-220 | The document is named after its first section whose title is neither empty nor "(untitled)" |
| Parser.SectionsHoldParagraphs | backend/app/pipeline/parser.py:167-214 | The same for every group and heading; there is no section exactly when there is no such text |
| Parser.SectionsAreTitled | backend/app/pipeline/parser.py:167-200 | Every section but the leading one is that of a title: it has its heading and level, and holds exactly the paragraphs from it to the next title |
| Parser.LatestPageIsLast | backend/app/pipeline/parser.py:202-209 | The page of a section is that of its last recognised body element with a page |
| Parser.PageStays | backend/app/pipeline/parser.py:199-212 | Without one it is the page of its title |
| Parser.DocTitleIsFirstNamed | backend/app/pipeline/parser.py:219-220 | For every document: it is named after its first title that is not the placeholder and has text of its own |
| Parser.FirstNamedAt | backend/app/pipeline/parser.py:219-220 | That title found by its place; without one the document has no name |
| Parser.FirstTitleNamesIff | backend/app/pipeline/parser.py:219-220 | The comment "first Title element" is met exactly when that title is not the placeholder and has text of its own, or the title that names the document reads the same |
| Utf8.FeedAppend | frontend/lib/api-client.ts:463-470 | Where the byte stream is cut makes no difference to the decoded text |
| Utf8.RoundTrip | backend/app/api/v1/sync_jobs.py:276-278 | Streaming decoding undoes encoding for every text that does not begin with a byte order mark |
| EventStream.Stream | frontend/lib/api-client.ts:463-486 | For any cutting of the byte stream the client delivers the payloads of the complete frames of the concatenation |
| EventStream.Drain | frontend/lib/api-client.ts:471-485 | The inner loop takes all complete frames off the buffer, in order, and leaves the unfinished one |
| EventStream.Deliver | frontend/lib/api-client.ts:473-483 | One frame: its first `data: ` line parsed; without one or with a malformed one nothing is delivered |
| EventStream.PayloadsAppend | frontend/lib/api-client.ts:470-485 | Later text completes the unfinished frame and leaves the frames before it as they were |
| EventStream.PrintedEvents | backend/app/api/v1/sync_jobs.py:276-278 | Printed messages with newline-free names and one-line payloads hold exactly their payloads, and no rest |
| EventStream.MessageLines | backend/app/api/v1/sync_jobs.py:276-278 | A message is printed as "event: " and its name, "data: " and its payload, and a blank line |
| EventStream.ClientUndoesServer | backend/app/api/v1/sync_jobs.py:276-278 | End to end over bytes, for any payloads that print on one line and parse back: in whatever pieces the printed events arrive, the client delivers exactly their payloads in order |
| EventStream.ObjectsAreSound | backend/app/api/v1/sync_jobs.py:276-278 | `json.dumps` of every object, lists and objects inside included, holds no newline and parses back |
| EventStream.JobStreamArrives | backend/app/api/v1/sync_jobs.py:184-260 | With nothing assumed of the payloads: the snapshot, the pings, both terminal messages, the error and whatever objects were forwarded arrive exactly as sent |
| EventStream.ProgressIsNotStreamed | backend/app/api/v1/sync_jobs.py:218-224 | The channel the endpoint listens on is the one the sync engine publishes to (`backend/app/sources/progress.py:24-26`) if and only if the job id is "progress", "progress:progress" and so on; never for a UUID |
| JobStream.Serve | backend/app/api/v1/sync_jobs.py:184-262 | What the stream sends for a missing job, a finished one, and over any number of polls |
| JobStream.Turn | backend/app/api/v1/sync_jobs.py:226-260 | One turn of the loop: the forwarded message, the ping, the terminal message, and whether it is the last |
| JobStream.EndsIff | backend/app/api/v1/sync_jobs.py:206-260 | A stream sends at most one terminal message, as its last, and one if and only if the job is COMPLETED or FAILED when it opens or at a poll, or the channel brought one |
| JobStream.FinishedJobEndsIff | backend/app/api/v1/sync_jobs.py:206-260 | The stream of a job that a run has closed sends a terminal message if and only if none or all of its changes failed: a PARTIAL job's stream never ends, against "connection closes after this" |
| JobStream.WatchedJobEndsIff | backend/app/api/v1/sync_jobs.py:245-260 | Likewise for a stream opened while the job is under way and polled after its end |
| JobReport.SnapshotTells | backend/app/api/v1/sync_jobs.py:193-205 | Under each field name the snapshot has what the job's row has: status, the three counts, ids and times |
| JobReport.TerminalTells | backend/app/api/v1/sync_jobs.py:206-259 | So have the messages that end a stream |
| JobReport.ClientIsTold | backend/app/api/v1/sync_jobs.py:184-260 | End to end over bytes: the first payload the client delivers tells the job's row as it was at the opening, and the last as it was at its end |
| JobReport.PollsAreSent | backend/app/api/v1/sync_jobs.py:226-260 | While nothing ends the stream every poll sends on what arrived and its keep-alive |
| Json.ReadQuoted | backend/app/api/pagination.py:46-63 | Every string survives JSON quoting, whatever follows it |
| Json.ReadPrintedValue | backend/app/api/v1/sync_jobs.py:276-278 | Every text, number (exponents included), boolean, null, list and object is read back as it was printed, in either layout |
| Json.ReadPrintedObject | backend/app/api/pagination.py:46-63 | An object of any depth, compact or spaced, is read back field by field |
| Json.ObjectIsPrintable | backend/app/api/v1/sync_jobs.py:276-278 | Printed JSON is printable ASCII throughout, so it holds no newline |
| Base64.UnpaddedRoundTrip | backend/app/api/pagination.py:52-60 | Unpadded URL-safe base64 with re-padding by `-len % 4` decodes to the same bytes, for every byte string; its length mod 4 is never 1 and it stays in the alphabet |
| Cursors.CursorRoundTrip | backend/app/api/pagination.py:46-63 | A (timestamp, id) cursor gives back both, whatever characters the id holds |
| Cursors.RoleCursorRoundTrip | backend/app/api/pagination.py:87-101 | A (name, id) cursor gives back both |
| Cursors.CursorAlphabet | backend/app/api/pagination.py:46-52 | A cursor is made of URL-safe symbols only |
| Cursors.CursorIsNotEmpty | backend/app/api/pagination.py:46-52 | A cursor is never the empty string, which the handlers would take for none |
| KeysetPaging.PageShape | backend/app/api/v1/settings.py:166-186 | Asking for one row more than the limit: a next page exactly when rows are left over, its cursor the last row shown |
| KeysetPaging.CursorContinues | backend/app/api/v1/settings.py:173-186 | Sending back the cursor of a page continues below its last row; no such request is refused |
| KeysetPaging.HelperAgrees | backend/app/api/pagination.py:66-82 | `next_cursor_from_rows` gives the cursor the handlers compute in line |
| KeysetPaging.WalkDescends | backend/app/api/v1/settings.py:166-186 | However the table changes between the pages, the rows of a walk are strictly descending in (created_at, id) |
| KeysetPaging.LastingExactlyOnce | backend/app/api/v1/settings.py:166-186 | A row that is there at every request of a finished walk is shown exactly once, whatever is inserted and deleted in between |
| KeysetPaging.WalkShowsLasting | backend/app/api/v1/users.py:126-144 | From any cursor: a lasting row past it is shown |
| KeysetPaging.StillWalk | backend/app/api/v1/users.py:126-144 | On a table that stands still the walk ends and shows exactly the sorted rows |
| KeysetPaging.FollowIsWalk | backend/app/api/v1/settings.py:173-191 | A client that only sees cursor texts and sends them back sees this walk |
| CircuitBreaker.Breaker.ModelToCall | backend/app/llm/circuit_breaker.py:67-91 | The new state, and for every history behind the breaker: the primary model is returned if and only if it is due, and the fallback otherwise |
| CircuitBreaker.PrimaryIff | backend/app/llm/circuit_breaker.py:67-91 | Primary is granted if and only if the circuit is CLOSED, or OPEN with the cool-down over since the event of the history that opened it |
| CircuitBreaker.OpenSinceEvent | backend/app/llm/circuit_breaker.py:118-134 | An open circuit was opened by one failure of the history, at the time it remembers |
| CircuitBreaker.ConsultTransitions | backend/app/llm/circuit_breaker.py:67-91 | A new breaker is CLOSED; a consultation only ever moves OPEN to HALF_OPEN, exactly when primary is due |
| CircuitBreaker.TotalsCount | backend/app/llm/circuit_breaker.py:93-121 | The totals count the successes and the failures reported |
| CircuitBreaker.Breaker.RecordSuccess | backend/app/llm/circuit_breaker.py:93-111 | The whole new state after a success report |
| CircuitBreaker.Breaker.RecordFailure | backend/app/llm/circuit_breaker.py:113-134 | The whole new state after a failure report |
| CircuitBreaker.Breaker.Reset | backend/app/llm/circuit_breaker.py:136-144 | Back to the initial state |
| CircuitBreaker.ReachableInvariant | backend/app/llm/circuit_breaker.py:67-134 | Over every run: HALF_OPEN holds exactly when a probe is marked in flight (so lines 89-91 are never reached), the failure counter is the failure suffix of the reports, and CLOSED means it is below the threshold |
| CircuitBreaker.FallbackCounterIsExact | backend/app/llm/circuit_breaker.py:82-111 | `fallback_used_count` is the number of fallback answers plus fallback successes recorded in CLOSED |
| CircuitBreaker.ProbesAreSpaced | backend/app/llm/circuit_breaker.py:75-134 | Between an opening and the next closing primary is granted only as probes, each at least the cool-down after the opening and after the probe before |
| CircuitBreaker.ReportBetweenProbes | backend/app/llm/circuit_breaker.py:84-91 | Between two probes some call reports |
| CircuitBreaker.ProbeIsSingle | backend/app/llm/circuit_breaker.py:84-91 | While nobody reports, every consultation after a probe is answered with the fallback, however late: a probe that never reports blocks the primary until another call reports |
| CircuitBreaker.ReportTransitions | backend/app/llm/circuit_breaker.py:93-134 | One report of any kind leaves HALF_OPEN; exactly which reports close and open the circuit |
| CircuitBreaker.FallbackSuccessCloses | backend/app/llm/circuit_breaker.py:13-107 | Against the documented machine, for every threshold: a fallback call begun while OPEN closes the circuit by succeeding during the probe |
| LlmClient.Client.Begin | backend/app/llm/client.py:151-158 | An explicit model bypasses the breaker, otherwise it is consulted once |
| LlmClient.Client.Finish | backend/app/llm/client.py:170-197 | A transport error reports a failure, an answer a success under the model it names, an unreadable body nothing |
| LlmClient.ReportsAtMostOnce | backend/app/llm/client.py:151-197 | Over every interleaving a call consults at most once and then reports at most once |
| LlmClient.ProberAsked | backend/app/llm/circuit_breaker.py:75-91 | In HALF_OPEN there is one probing call: the last one granted primary, with only consultations since |
| LlmClient.ProbeDecidesIff | backend/app/llm/circuit_breaker.py:93-134 | While no new call begins, the circuit can only be closed by the probe's own report if and only if no other call is in flight |
| LlmClient.AnyCallMayClose | backend/app/llm/circuit_breaker.py:84-107 | From every reachable HALF_OPEN one more call gets the fallback and closes the circuit by succeeding, the probe still unreported |
| SyncReplay.Sync.RunSync | backend/app/sources/sync.py:77-203 | For a process that dies after any number of durable steps: which writes were made, that the cursor moves only after every change was tried, that the job is closed only after that, and what each early exit leaves |
| SyncReplay.Sync.Process | backend/app/sources/sync.py:142-191 | One change: its writes in order and whether it counts as failed |
| SyncItems.LastChangeDecides | backend/app/sources/sync.py:142-347 | After a run that gets through the last change of a document decides its row: fetched and committed, it leaves what was fetched with the object key "kind/source/change", as discovered, with the content hash there was; a tombstone marks what there is deleted |
| SyncItems.UntouchedRowStays | backend/app/sources/sync.py:149-191 | A document without such a change keeps its row: a change too large, or whose fetch, upload or upsert fails, leaves it alone |
| SyncItems.LastUploadDecides | backend/app/sources/sync.py:157-160 | The last upload under a key leaves its bytes and content type |
| SyncItems.StoredIsThere | backend/app/sources/sync.py:156-169 | So a change that was fetched and stored is there to be ingested: its row is discovered and names an object with the bytes fetched |
| SyncItems.WhatFails | backend/app/sources/sync.py:149-191 | Exactly which changes count as failed, and why; only a known size over the limit is refused |
| SyncItems.EarlyExits | backend/app/sources/sync.py:88-135 | What the job says of a run that ends before its first change: FAILED with the reason, but QUEUED for a rate limit |
| SyncItems.LastFailureIsLogged | backend/app/sources/sync.py:149-202 | The error log gives for each id why the last of its failed changes failed |
| SyncReplay.ReplayConverges | backend/app/sources/sync.py:142-347 | After any of the writes, in any order and number, making all of them in order gives the table and objects of one uninterrupted run |
| SyncReplay.NoTraceIff | backend/app/sources/sync.py:142-347 | Whatever was stored before and whatever the outcomes: writes leave no trace of those made before them, from every store, if and only if they cover them - upsert what was upserted, upsert or delete what was deleted, upload what was uploaded |
| SyncReplay.CrashesLeaveNoTrace | backend/app/sources/sync.py:83-194 | However often and wherever runs die, and whatever outcomes they met, the run that gets through leaves the store of a run without crashes, provided it covers what they had written |
| SyncReplay.SameOutcomesCover | backend/app/sources/sync.py:83-194 | With the same changes and outcomes it does |
| SyncReplay.ListedAgainIff | backend/app/sources/sync.py:97-194 | A later run lists a change again if and only if the run that listed it died before the cursor moved, and there was a cursor, or the later run begins no later among the changes; whether the change failed makes no difference |
| Connectors.FirstDriveRunIsLost | backend/app/sources/google_drive.py:82-132 | Against "resumable", over every sequence of runs on a growing change log: a Drive source without a cursor asks for a fresh start token each time, so what its run listed no later run lists, wherever it and those between died |
| Connectors.ListPages | backend/app/sources/notion.py:107-136 | The pages listed, and the next cursor, over any number of search responses |
| Connectors.NextIsLatest | backend/app/sources/notion.py:94-136 | The next cursor is the time of a page listed, unless none was, and no page listed is later |
| Connectors.EditIsMissedIff | backend/app/sources/notion.py:125-131 | Exactly which edit a later listing misses: of those no earlier than the latest edit listed, those with the very time of it |
| Connectors.NoTimeStops | backend/app/sources/notion.py:125-131 | One page without a time leaves a cursor from which no page with a time is ever listed |
| SyncReplay.FirstNotionRunIsRepeatedIff | backend/app/sources/notion.py:94-136 | A Notion source without a cursor lists everything: the changes of its first run are listed again if and only if it died before the cursor moved |
| SyncReplay.TriedOnceIff | backend/app/sources/sync.py:83-194 | Over any number of runs, wherever each died: a change is on the list of exactly one run that got through if it stands between the beginning of the first such run and the cursor, and of none otherwise |
| SyncReplay.NothingIsLost | backend/app/sources/sync.py:83-194 | With a cursor to begin with: every change from it up to the latest cursor is on the list of exactly one run that got through |
| SyncReplay.FailedChangeIsPassed | backend/app/sources/sync.py:186-194 | At an input: one change whose fetch fails counts as failed, and the cursor moves behind it |
| SyncReplay.LastUpsertWins | backend/app/sources/sync.py:280-347 | The last upsert of a document decides its row, deleted exactly when a tombstone follows; the content hash of the worker is kept |
| SyncReplay.QuietRow | backend/app/sources/sync.py:335-347 | Without an upsert a row keeps its content and is marked deleted exactly when a tombstone comes; an unseen one stays absent |
| SyncReplay.ApplyAllIsPointwise | backend/app/sources/sync.py:280-347 | The writes of one document touch no other row, and uploads no other object |
| SyncReplay.EveryRowHasItsObject | backend/app/sources/sync.py:159-169 | Wherever a run dies, every row names an object that was uploaded before it |
| SyncReplay.ClosedJob | backend/app/sources/sync.py:195-201 | Indexed plus failed is the total; COMPLETED, PARTIAL and FAILED mean that none, some and all of the changes failed |
| SyncReplay.ErrorsNameFailures | backend/app/sources/sync.py:149-191 | The error log names exactly the changes that failed |
| TokenBucket.Bucket.Acquire | backend/app/sources/notion.py:56-69 | When a call is granted and what it leaves in the bucket |
| TokenBucket.TokensBounded | backend/app/sources/notion.py:56-69 | Tokens stay in [0, rate]; a call sleeps exactly when it finds less than one token, and for at most period/rate |
| TokenBucket.Account | backend/app/sources/notion.py:56-69 | The amortized account of grants against tokens, inflow and sleep credit |
| TokenBucket.GrantsBounded | backend/app/sources/notion.py:46-69 | Any consecutive grants number at most the rate plus twice what flows in from the first acquire to the last grant |
| TokenBucket.GrantsBoundedInSeconds | backend/app/sources/notion.py:46-69 | The same in seconds: at most rate + 2 * (rate / period) * elapsed |
| TokenBucket.BoundIsAttained | backend/app/sources/notion.py:46-69 | The factor of two is real: for every rate and duration a busy client attains the bound |
| TokenBucket.Balance | backend/app/sources/notion.py:56-69 | The exact balance: grants and tokens left are tokens found, inflow less what spilled over the cap, and the sleep of all calls |
| TokenBucket.KeepsRateIff | backend/app/sources/notion.py:46-69 | A window of grants keeps to the rate if and only if the sleep before its last call is no more than the room at its start, the spill, the tokens left and the lateness of the last call |
| TokenBucket.RateKeptWithoutSleep | backend/app/sources/notion.py:56-69 | In particular when none but its last call finds less than one token |
| SlidingWindow.Limiter.Incr | backend/app/cache/helpers.py:60-86 | The stored set, its expiry, the count and the verdict of one call |
| SlidingWindow.StoredIsTrailingWindow | backend/app/cache/helpers.py:75-82 | With a clock that does not run backwards the stored set is exactly the timestamps of the trailing window of all attempts; the key's expiry is never observable |
| SlidingWindow.CountsAttemptsIff | backend/app/cache/helpers.py:78-86 | The count is the number of attempts in the window if and only if their timestamps are distinct, and too small otherwise |
| SlidingWindow.AllowedIff | backend/app/cache/helpers.py:60-86 | With distinct timestamps a call is allowed if and only if fewer than `limit` earlier attempts, refused ones included, lie in its window |
| SlidingWindow.NoWindowOverLimit | backend/app/cache/helpers.py:60-86 | Hence no window of that length holds more than `limit` allowed calls |
| SlidingWindow.EqualTimestampsCollapse | backend/app/cache/helpers.py:78-79 | Any number of calls at one instant count as one, because the member name ends in a constant |
| RrfMerge.MergeRrf | backend/app/retrieval/hybrid_search.py:237-295 | The two dictionaries, the stable descending sort and the cut give exactly the specification |
| RrfMerge.Accumulate | backend/app/retrieval/hybrid_search.py:254-287 | One result list folded into the dictionaries, each rank weighing 1/(k+rank) |
| RrfMerge.AddResult | backend/app/retrieval/hybrid_search.py:255-284 | One result: score added, first occurrence copied, later ones fill the empty fields |
| RrfMerge.CollectAt | backend/app/retrieval/hybrid_search.py:251-287 | A chunk is a key exactly when it occurred, and its score is the exact sum over all its occurrences |
| RrfMerge.CollectText | backend/app/retrieval/hybrid_search.py:264-265 | A merged entry has the first non-empty text among the occurrences |
| RrfMerge.TopIsRanked | backend/app/retrieval/hybrid_search.py:289-295 | Non-increasing score, ties in first-seen order, length min(top_k, distinct chunks) |
| RrfMerge.TopEntry | backend/app/retrieval/hybrid_search.py:251-295 | Each kept entry carries the exact score of its chunk and the first text among its occurrences, and is marked "both" exactly when it occurred twice or more |
| MergedFields.TopInherits | backend/app/retrieval/hybrid_search.py:251-295 | Each kept entry has the document and payload of the first occurrence of its chunk, the title, language and page of the first occurrence that has one, and its list as source when found once |
| MergedFields.OnceIsMarked | backend/app/retrieval/hybrid_search.py:274-287 | An entry found once is marked "vector" if the vector list has it and "keyword" otherwise |
| RrfMerge.TopIsDistinct | backend/app/retrieval/hybrid_search.py:246-249 | Kept entries are of distinct chunks |
| RrfMerge.DroppedScoresLess | backend/app/retrieval/hybrid_search.py:294-295 | What is dropped scores no more than anything kept |
| RrfMerge.AheadWins | backend/app/retrieval/hybrid_search.py:255-257 | A chunk ranked ahead of another wherever the latter occurs scores strictly more |
| RrfMerge.AheadComesFirst | backend/app/retrieval/hybrid_search.py:289-295 | And is kept in front of it |
| RrfMerge.BothMeansBothIff | backend/app/retrieval/hybrid_search.py:247-263 | "both" marks exactly the chunks in both lists if and only if every chunk repeated within one list also occurs in the other |
| RrfMerge.ScoreRange | backend/app/retrieval/hybrid_search.py:255-257 | The score of a chunk found c times in lists of at most n lies between c/(k+n) and c/(k+1), for all lists |
| RrfMerge.CountIsListsIff | backend/app/retrieval/hybrid_search.py:254-287 | A chunk is found once for each list that has it, so at most twice, if and only if neither list repeats it |
| RrfMerge.LabelIsCount | backend/app/retrieval/pipeline.py:363-369 | With k = 60 and lists of at most 20 the label counts: "high" if and only if the chunk is found four times or more, "medium" if and only if two or three times |
| RrfMerge.HighTakesRepeats | backend/app/retrieval/pipeline.py:363-369 | For lists of any length "high" takes a chunk that one list repeats, "medium" one that both have or one repeats |
| RrfMerge.FourGroupsMakeHigh | backend/app/retrieval/hybrid_search.py:171-186 | At an input: the join gives a chunk one row for each shared group, and with four the chunk is labelled "high" and marked "both", found by keyword search alone |
| RrfMerge.HydrateText | backend/app/retrieval/hybrid_search.py:300-327 | On distinct candidates hydration keeps the order and gives exactly those without a text the text stored under their id, if there is one |
| Retrieval.FusionIsUnion | backend/app/retrieval/hybrid_search.py:105-295 | In every search after every history the two lists share no chunk: "both" marks exactly the chunks that keyword search repeats, and with the default k no other is labelled above "low" |
| Retrieval.VectorStaysBare | backend/app/retrieval/hybrid_search.py:133-327 | A chunk that vector search found is handed out without a text: the hydration, which is there to fill it in, finds no row under its id |
| Retrieval.KeywordKeepsText | backend/app/retrieval/hybrid_search.py:217-295 | A chunk that keyword search found keeps the text of its row |
| AdminGuard.Directory.UpdateUser | backend/app/api/v1/users.py:303-348 | The tables and the answer of the handler |
| AdminGuard.Directory.SoftDeleteUser | backend/app/api/v1/users.py:373-405 | The tables and the answer of the handler |
| AdminGuard.Directory.AssignRole | backend/app/api/v1/users.py:415-465 | The tables and the answer of the handler |
| AdminGuard.Directory.RevokeRole | backend/app/api/v1/users.py:476-515 | The tables and the answer of the handler |
| AdminGuard.Directory.InviteUser | backend/app/api/v1/users.py:179-242 | The tables and the answer of the handler |
| AdminGuard.Directory.AddUserRoles | backend/app/api/v1/users.py:227-230 | The grants of a new user, and when the database refuses them |
| AdminGuard.Directory.ActiveAdminsBesides | backend/app/api/v1/users.py:323-334 | The guard query finds somebody exactly when another active admin exists |
| AdminGuard.Directory.UserRoleNames | backend/app/api/v1/users.py:527-535 | A user's role names include "admin" exactly when the user is an admin |
| AdminGuard.Directory.CreateRole | backend/app/api/v1/roles.py:151-173 | The tables and the answer of the handler |
| AdminGuard.Directory.UpdateRole | backend/app/api/v1/roles.py:190-227 | The tables and the answer of the handler |
| AdminGuard.Directory.DeleteRole | backend/app/api/v1/roles.py:251-277 | The tables and the answer of the handler |
| AdminGuard.EveryRunKeepsAdmin | backend/app/api/v1/users.py:179-515 | From an active admin on, every sequence of user and role operations keeps one |
| AdminGuard.StepKeepsAdmin | backend/app/api/v1/roles.py:206-274 | Each single operation does, role operations included |
| AdminGuard.GuardIsExact | backend/app/api/v1/users.py:318-506 | Each last-admin guard refuses exactly when performing the step would leave no active admin; otherwise the step is performed as asked |
| RoleHolders.AssignGrants | backend/app/api/v1/users.py:415-465 | An assignment gives the user the role it means by id or name and nobody anything else; when it is a repetition, and when it is refused |
| RoleHolders.InviteAdds | backend/app/api/v1/users.py:179-242 | An invitation adds one active user with exactly the roles it names, or "member"; exactly when it is accepted |
| RoleHolders.UserSteps | backend/app/api/v1/users.py:303-515 | Changing or deleting a user changes that user's status only, revoking that grant only, and nothing when the answer is not "done" |
| RoleHolders.RoleSteps | backend/app/api/v1/roles.py:151-277 | What creating, renaming and deleting a role change, and when each is done; admin, editor and member keep their names |
| SingleFlight.Client.OnUnauthorized | frontend/lib/api-client.ts:216-227 | The 401 branch up to its await: who waits, and for which refresh |
| SingleFlight.Client.RefreshOnce | frontend/lib/api-client.ts:262-288 | Join the refresh under way, or start one; the early return leaves the variable set |
| SingleFlight.Client.OnRefreshOk | frontend/lib/api-client.ts:276-285 | A successful refresh replaces both tokens and frees the variable |
| SingleFlight.Client.OnRefreshFails | frontend/lib/api-client.ts:272-285 | A failed one clears both tokens and frees the variable |
| SingleFlight.Client.OnResume | frontend/lib/api-client.ts:223-227 | A waiting request is told how its refresh ended |
| SingleFlight.Client.OnLogin | frontend/lib/api-client.ts:293-302 | A login replaces both tokens |
| SingleFlight.Client.OnLogout | frontend/lib/api-client.ts:304-310 | A logout clears both tokens |
| SingleFlight.EveryRun | frontend/lib/api-client.ts:216-288 | Over every interleaving at most one refresh is under way and the variable says which; everyone answered was told how theirs ended |
| SingleFlight.NoTokenTwice | frontend/lib/api-client.ts:262-288 | With a server that issues fresh tokens no refresh token is submitted twice |
| SingleFlight.CallersShare | frontend/lib/api-client.ts:223-263 | Callers refused during a refresh send nothing and share its outcome |
| SingleFlight.RefusalSends | frontend/lib/api-client.ts:216-276 | A request refused with a token held and no refresh under way submits exactly that token and waits for it, unless it must not refresh |
| SingleFlight.RefusalWithoutToken | frontend/lib/api-client.ts:216-223 | Without a token nothing is sent |
| SingleFlight.RefreshEnds | frontend/lib/api-client.ts:223-285 | After success both new tokens are held, after failure none, and whoever waited is told which |
| SingleFlight.SessionSteps | frontend/lib/api-client.ts:293-310 | A login holds its tokens, a logout none; neither starts or ends a refresh |
| SingleFlight.NeedsToken | frontend/lib/api-client.ts:216-287 | `refreshOnce` is safe if and only if a token is held or a refresh is under way; otherwise no refresh is ever sent again |
| SingleFlight.LogoutHolds | frontend/lib/api-client.ts:276-310 | A logout holds until the next login if and only if no refresh was under way |
| SingleFlight.LoginHolds | frontend/lib/api-client.ts:272-302 | The tokens of a login are held until a refresh of them ends, if and only if no refresh was under way at the login |
| ChunkStores.PointNameInjective | backend/app/vector/indexer.py:27-30 | Document id and index can be told from the name of a point |
| ChunkStores.PointIdInjective | backend/app/vector/indexer.py:27-35 | So with a collision-free `uuid5` point ids never clash |
| ChunkStores.Indexer.UpsertBulk | backend/app/vector/indexer.py:73-94 | For every batch size, batching stores what one upsert would and counts all points |
| ChunkStores.Indexer.PersistChunks | backend/app/pipeline/indexer.py:241-283 | All rows upserted in one transaction |
| ChunkStores.Indexer.Store | backend/app/pipeline/indexer.py:130-202 | No chunks or a vector count mismatch stores nothing; otherwise points, then rows |
| ChunkStores.IngestStoresChunks | backend/app/pipeline/indexer.py:157-283 | For i < n the row and the point of (document, i) both describe chunk i; everything else, other documents' points included, is as it was |
| ChunkStores.ChunkIsInBothStores | backend/app/pipeline/indexer.py:165-281 | Field by field: text, title, page, count and language of chunk j in its row, its vector, groups and language in its point, each with the key of the other |
| ChunkStores.Indexer.ReembedAll | backend/app/tasks/ingest.py:123-178 | All rows re-embedded in batches, whatever order they come in, and relabelled at the end |
| ChunkStores.Indexer.ReembedBatches | backend/app/tasks/ingest.py:136-168 | The batches store what one upsert would and count all rows |
| ChunkStores.Indexer.ReembedOne | backend/app/tasks/ingest.py:195-228 | The point of one row, if there is such a row |
| ChunkHistory.StoredByLastWriters | backend/app/tasks/ingest.py:136-168 | After every history of syncs, regroupings, re-embeddings and ingests, those included that died before, between or after the two stores: a point is, vector and payload, what its last writer made, and a row what its last complete ingest made |
| ChunkHistory.AgreeIff | backend/app/pipeline/indexer.py:132-202 | After every such history a row agrees with its point in document, index, title, language, point id and vector if and only if the last to write either was a complete ingest, or one that died on a chunk with the title and language the row had and a text with the same vector |
| ChunkHistory.VectorIff | backend/app/pipeline/indexer.py:132-202 | A row's point holds the vector of the row's text if and only if the last to write either did not die, or died on a text with the same vector |
| ChunkHistory.IngestsAgree | backend/app/pipeline/indexer.py:157-283 | Without deaths and re-embeddings every row agrees with its point, whatever else happens |
| ChunkHistory.ReembeddingForgets | backend/app/pipeline/indexer.py:88-93 | Whatever came before, re-embedding a row breaks the agreement; ingesting its document right after restores it if and only if the document was not active before |
| ChunkHistory.StaysForgotten | backend/app/pipeline/indexer.py:88-93 | A re-embedded chunk of an active document stays at odds with its row and found by nobody until the document is upserted, or set to another status, and after that ingested |
| ChunkHistory.WakeAndIngestRestore | backend/app/pipeline/indexer.py:88-93 | Whatever came before, an upsert or another status, and an ingest after it, put a document's chunks in agreement, and before exactly the groups the document is shared with |
| ChunkHistory.UpsertAndIngestRestore | backend/app/sources/sync.py:302-316 | An upsert is such a step for every document, known or not |
| ChunkHistory.DocumentSteps | backend/app/api/v1/documents.py:203-237 | What an upsert, a status and a change of groups make of a document, and of no other |
| ChunkHistory.IngestMarks | backend/app/pipeline/indexer.py:88-202 | An ingest leaves its document active and not to be ingested again exactly when it stored its chunks and lived to mark it |
| ChunkStores.OnlyOwnRowsIff | backend/app/pipeline/indexer.py:241-283 | A document has exactly the rows of its chunks if and only if it had none from n on before: old ones are never removed |
| ChunkStores.InterruptedIngest | backend/app/pipeline/indexer.py:186-202 | An ingest that died between or inside the stores and is run again leaves what one run would |
| ChunkStores.SecondIngest | backend/app/pipeline/indexer.py:157-283 | A second run changes no row and nothing in the points but the time |
| ChunkHistory.RowIdIff | backend/app/tasks/ingest.py:141-159 | A point holds an id of a row, and then its own row's, if and only if its last writer was a re-embedding |
| ChunkHistory.VisibleIff | backend/app/retrieval/hybrid_search.py:105-117 | After every history a caller can find a chunk's point by vector search if and only if its last writer was an ingest, complete or not, and the document was at that ingest shared with one of the caller's groups: re-embedded points are found by nobody |
| ChunkHistory.OnlyIngestsShow | backend/app/api/v1/documents.py:203-237 | Whatever is done to documents without ingesting or re-embedding, tombstones, deletions and changes of their groups (`backend/app/api/v1/groups.py:355-383`) included, changes nothing in what anybody finds by vector search |
| ChunkHistory.ShownAsSharedIff | backend/app/pipeline/indexer.py:152-223 | Exactly when vector search shows a chunk to those its document is shared with: when those are the groups that the last ingest found, or none after a re-embedding |
| ChunkHistory.ReportedByPointId | backend/app/retrieval/hybrid_search.py:133-138 | Whatever vector search finds it reports by the id of the point: the row ids of the payload never reach a caller |
| ChunkHistory.ReembedAllHides | backend/app/tasks/ingest.py:123-168 | Re-embedding everything hides every chunk that has a row from everybody, and nothing else |
| ChunkStores.ChunkerAligns | backend/app/pipeline/chunker.py:84-142 | The chunker numbers its chunks as the stores need them |

## Left out

- The merge rules of the byte-pair encoder, the embedder, the reranker and language detection are not part of this
  model; neither are the fallbacks of the overlap pass for an encoder that cannot be loaded
  (`backend/app/pipeline/chunker.py:206-207`, `223-224`).
- Floating point: overlap, rates, scores and times are exact numbers; `int(target * ratio)` is the floor of the product.
- Base64.Decode: stricter than Python's decoder, which skips characters outside the alphabet; it differs on no cursor
  that was ever issued.
- Json.ReadObject: escaped lone surrogates are refused, and numbers are read exactly, where a browser rounds integers
  above 2^53; `NaN` and `Infinity`, which `json.dumps` prints and a browser refuses, are no values here.
- Cursors.DecodeCursor: a payload with bytes outside ASCII counts as invalid, and so does a role cursor whose fields are
  fractions, lists or objects; issued cursors are none of these.
- EventStream.ClientUndoesServer: event names with line breaks are excluded; a name that arrives over the progress
  channel with one would break the frame.
- EventStream.Stream: the request itself, its token and the abort signal; an abort is the end of what was read.
- KeysetPaging.Handle: the audit log's and the users' filters are applied to the table beforehand; the walks over
  documents and sync jobs, which join or sort by a nullable column, are not claimed.
- CircuitBreaker.Breaker: one process; the configuration default of a missing breaker in the client is not modelled.
- LlmClient.Client.Finish: the HTTP exchange and the cost estimate are not modelled.
- SyncReplay.Sync.RunSync: `last_error`, `last_sync_at`, row ids and timestamps, the queueing of the ingest task and the
  progress events, none of which the loop reads back.
- ChunkHistory.AgreeIff: the status field of a point, which every writer sets to "active", and the functions that would
  change it or delete points, which nothing calls; a change of the embedding model between two steps.
- ChunkHistory.Run: an ingest that finds no object key, which stores nothing; steps of two workers do not interleave; an
  ingest reads its document's groups at one moment with its status.
- Connectors.ListPages: the requests themselves; of Drive only the window of the log that a run reads, not its pages,
  its folder filter or the kinds of change.
- Retrieval.FusionIsUnion: which points and rows the two searches pick, their order and scores, and that keyword search
  only returns rows of shared documents; the results hold for every pick.
- JobStream.Serve: when a ping is due is a parameter of each poll, as is what the channel brings.
- SyncReplay.CrashesLeaveNoTrace: the worker that ingests documents between two runs is not interleaved with them.
- SlidingWindow.Limiter.Incr: interleaved commands of two concurrent calls.
- RrfMerge.MergeRrf: that `merge_rrf` copies candidates and updates the copies; candidates are values here.
- AdminGuard.Directory.UpdateUser: display name, language, groups and the audit trail; concurrent transactions, whose
  interleaving could pass two guards at once.
- ChunkStores.Indexer.Store: downloading and parsing; the failure branches use a status that `backend/app/db/enums.py`
  does not define, so they raise, and `ChunkHistory` leaves such a document in its indexing state.
- SingleFlight.Client.OnUnauthorized: the access-token cookie, the retried request and its unbounded repetition.
- Permission lookups, settings and group handlers, the command line, the user interface, logging and metrics: they would
  only add easy members.
