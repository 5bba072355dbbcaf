# AI document search engine: a Dafny model of its deterministic core

The system lets a logged-in user upload documents, splits them into chunks
stored in a per-user vector collection, and answers chat questions from the
retrieved chunks. An answer is streamed to the browser as server-sent events
and shown in the chat page. This project models the logic around the foreign
services and proves what it promises:

- **Ingestion** (`pipeline.dfy`): the per-user collection name, get-or-create
  over the client's name-to-collection map, `pathlib`'s normalisation of the
  file path, and loader choice by lower-cased suffix. It also covers the early returns, the records (ids, texts,
  metadata) added to the collection, and the document row written after them.
- **Assistant tools** (`helpers.dfy`): `search` normalises a query result into
  two lists, `summarize` truncates to a budget, and `extract` filters by
  keyword.
- **Upload** (`file_api.dfy`): the extension allow-list and the size limit,
  the stored file name and path, and the write-then-schedule order with its
  error paths.
- **Chat endpoint** (`chat.dfy`): the blank-message short cut and the source
  filter. It also covers the numbered context and citation list, the prompt,
  and the event stream: one event per token, then the citations, then
  `[DONE]`.
- **Chat page** (`dashboard.dfy`): `handleNewMessage` as a class whose
  `messages` field the methods update. The chunk loop, the line loop and each
  line's parsing are each proved against a specification function. Together
  with the endpoint, the page gets an end-to-end theorem: for any question the
  endpoint answers, when the whole stream arrives in one read, the assistant
  message ends up holding the whole answer and the citations, no longer
  streaming.
- **Supporting modules**:
  - `json.dfy` holds Python's `json.dumps` with default arguments and
    JavaScript's `JSON.parse`, with the round trip `Parse(Dumps(v)) ==
    Some(v)` (integers read as exact integers) and the fact that dumped text holds no line break.
  - `strings.dfy` holds JavaScript's `split`, Python's `strip`,
    lower-casing, and decimal text.
  - `vector_store.dfy` holds the vector store client as a class holding a
    map.

Foreign services are parameters:

- the similarity query (a function from a collection and a query to a
  result);
- the language model (a prompt maps to the tokens it streams);
- the loader's pages and the splitter's chunks;
- the uuids;
- whether embedding, the disk write and the database commit succeed;
- the two clock readings of the page;
- the fetch response (failed, or the chunks read and whether reading ended
  normally).

## Model

| member | source | states |
|---|---|---|
| Pipeline.CollectionName | backend/rag/pipeline.py:34 | the name is `docs_` followed by the email with each `@` and `.` replaced by `_`, one for one, so its length is 5 + the email's |
| Pipeline.CollectionNameClean | backend/rag/pipeline.py:34 | the collection name contains no `@` and no `.` |
| Pipeline.CollectionNameIs | backend/rag/pipeline.py:31-34 | any text of that shape is the collection name, so the name is determined character by character |
| Pipeline.CollectionNameExample | backend/rag/pipeline.py:31-33 | `k@gmail.com` maps to `docs_k_gmail_com`, as the docstring says |
| Pipeline.CollectionNameCollision | backend/rag/pipeline.py:34 | two different emails (`a.b@x.com`, `a_b@x.com`) share one collection |
| Pipeline.GetOrCreateCollection | backend/rag/pipeline.py:28-38 | returns the derived name; the store keeps an existing collection of that name and otherwise gains an empty one, nothing else changes |
| VectorStore.GetOrCreate | backend/rag/pipeline.py:35-38 | the name is present afterwards; an existing collection is kept as it is; a new one is empty and the only new key; other collections are unchanged |
| VectorStore.GetOrCreateIdempotent | backend/rag/pipeline.py:35-38 | a second get-or-create of the same name changes nothing |
| VectorStore.Store.GetOrCreateCollection | backend/rag/pipeline.py:35-38 | the client's map becomes `GetOrCreate` of the old map |
| VectorStore.Store.Add | backend/rag/pipeline.py:118-123 | `collection.add` appends the records to that collection only |
| VectorStore.Records | backend/rag/pipeline.py:118-123 | the records zip ids, texts and metadata position by position |
| Pipeline.NameSuffix | backend/rag/pipeline.py:74 | `Path.suffix` of a name: empty, or a dot with at least one further character and no other dot, and a suffix of the name |
| Pipeline.PathSuffix | backend/rag/pipeline.py:67-74 | `Path(path).suffix`: the suffix of the last component `Path` keeps, holding no `/` |
| Pipeline.PathPartsClean | backend/rag/pipeline.py:67 | the components of `Path(path)` hold no `/` and are neither empty nor `.` |
| Pipeline.NormPathReads | backend/rag/pipeline.py:67 | reading `str(Path(path))` again gives the same anchor (`/`, exactly two `//`, or none) and the same components |
| Pipeline.NormPathStable | backend/rag/pipeline.py:67-74 | normalising is idempotent, and the name and suffix of the normalised path are those of the path as given |
| Pipeline.RepeatedSeparatorCollapsed | backend/rag/pipeline.py:67 | `d//x` becomes `d/x` |
| Pipeline.TrailingSeparatorDropped | backend/rag/pipeline.py:67-74 | `n/` becomes `n`, and its name and suffix are those of `n` (so `a.pdf/` is read as a PDF) |
| Pipeline.PlainPath | backend/rag/pipeline.py:67 | a directory and a name joined by one `/` are already in printed form, and the name is the last component |
| Pipeline.LoaderForCases | backend/rag/pipeline.py:74-85 | `.pdf` selects the PDF loader, `.docx`/`.doc` the Word loader, `.txt`/`.md` the text loader, each after lower-casing and each if and only if; anything else has no loader |
| Pipeline.LoaderForCaseInsensitive | backend/rag/pipeline.py:74-80 | the loader choice ignores the case of the suffix |
| Pipeline.PageOf | backend/rag/pipeline.py:112 | a chunk's `page` metadata, or 0 when absent |
| Pipeline.Texts | backend/rag/pipeline.py:105 | one text per chunk, the chunk's content, in order |
| Pipeline.BuildMetadatas | backend/rag/pipeline.py:107-115 | the loop builds one map per chunk with exactly the keys `source`, `chunk_index` = i, `page`, `total_chunks` = the chunk count, `user_email` |
| Pipeline.FileRecords | backend/rag/pipeline.py:102-123 | one record per chunk |
| Pipeline.RecordsOfLoop | backend/rag/pipeline.py:102-123 | the records built from the loop's lists are the file's records |
| Pipeline.FileRecordAt | backend/rag/pipeline.py:102-123 | record i holds id i, chunk i's content and metadata i |
| Pipeline.NoDocumentIdKey | backend/rag/pipeline.py:109-115 | no record the pipeline writes matches a `document_id` filter |
| Pipeline.Database.AddDocument | backend/rag/pipeline.py:141-146 | the row is appended when the commit succeeds and the table is unchanged on rollback; users never change |
| Pipeline.AddChunks | backend/rag/pipeline.py:118-123 | on successful embedding the file's records are appended to the user's collection and nothing else changes; on failure nothing changes |
| Pipeline.IngestChunks | backend/rag/pipeline.py:98-148 | given the job's `Path` (a path already in printed form), the store and the document table end as `StoreAfter`/`RowsAfter` say, the row holding that path; the outcome is raised (embedding failed), user missing, saved or rolled back |
| Pipeline.ProcessUploadedFile | backend/rag/pipeline.py:57-152 | the whole job, reading the suffix and the row's path from `Path(file_path)`: a missing file, an unsupported suffix and zero chunks each return their own outcome; a loader or splitter that raises ends the job raised; otherwise ingestion as above; the store and table end as the two specification functions say |
| Pipeline.NothingStoredWithoutText | backend/rag/pipeline.py:68-96 | a missing file, an unsupported suffix, a raising loader or splitter, or zero chunks leave the collections and the document table exactly as they were |
| Pipeline.StoredRecords | backend/rag/pipeline.py:99-123 | after ingestion the user's collection is the old one (or empty) plus the file's records, one per chunk; every other collection is unchanged; the only possible new key is the user's |
| Pipeline.RowOnlyAfterAdd | backend/rag/pipeline.py:118-142 | whenever a document row is written, the file's records are the last ones of the collection, and the row carries the file name, `str(Path(file_path))`, the user id, the page count and the chunk count |
| Pipeline.RecordsWithoutRow | backend/rag/pipeline.py:118-146 | a failed commit after a successful add leaves records without a document row |
| Helpers.SearchWhere | backend/api/helpers.py:18 | the filter is absent if and only if no document id is given, and is otherwise an equality on `document_id` |
| Helpers.SearchWhereMatches | backend/api/helpers.py:18 | that filter admits exactly the records whose `document_id` is the requested id |
| Helpers.SearchWhereMissesPipelineRecords | backend/api/helpers.py:18 | that filter matches none of the records the pipeline writes |
| Helpers.FirstRow | backend/api/helpers.py:26-27 | the first row, or the empty list when the outer list or its first row is missing or empty |
| Helpers.SearchHonest | backend/api/helpers.py:5-28 | against a query that honours `where` and `n_results`, `search` returns the texts and metadata of the first 8 records the filter admits, in collection order and paired by position; with a document id each carries that id, without one none is skipped |
| VectorStore.AdmittedFirst | backend/api/helpers.py:19-24 | the reference query's scan returns the first `n_results` admitted records, in collection order |
| VectorStore.FilteredMembers | backend/api/helpers.py:19-24 | a record is admitted if and only if the `where` filter matches it |
| Helpers.Search | backend/api/helpers.py:5-28 | gets or creates the user's collection, queries it for 8 results with the filter, and returns the normalised lists |
| Helpers.Summarize | backend/api/helpers.py:41-46 | no chunks give `No content to summarize.`; a joined text within 2000 characters is returned unchanged; a longer one gives its first 2000 characters and `...`, 2003 characters in all |
| Helpers.JoinContainsPart | backend/api/helpers.py:44 | every chunk occurs in the joined text |
| Helpers.SummaryKeepsChunks | backend/api/helpers.py:44-46 | a summary within budget contains every chunk |
| Helpers.Extract | backend/api/helpers.py:59-62 | no chunks give no matches; never more matches than chunks |
| Helpers.FilterPicks | backend/api/helpers.py:62 | the kept chunks sit at increasing positions of the input |
| Helpers.ExtractSubsequence | backend/api/helpers.py:61-62 | extraction yields an order-preserving subsequence of the chunks |
| Helpers.FilterCount | backend/api/helpers.py:61-62 | each chunk is kept as often as it occurs when it mentions the keyword, never otherwise |
| Helpers.ExtractKeepsExactlyMentions | backend/api/helpers.py:61-62 | a chunk is in the result if and only if it is an input chunk whose lower-cased text contains the lower-cased keyword, with its multiplicity |
| Helpers.FilterIdempotent | backend/api/helpers.py:62 | filtering twice with the same keyword keeps the same chunks |
| Helpers.ExtractIdempotent | backend/api/helpers.py:62 | `extract(extract(c, f), f) == extract(c, f)` |
| Strings.Lower | backend/api/helpers.py:61 | lower-casing keeps the length and maps each character |
| Strings.LowerIdempotent | backend/api/helpers.py:61 | lower-casing twice is lower-casing once |
| Strings.ContainsIff | backend/api/helpers.py:62 | `in` on strings holds if and only if the keyword occurs at some offset |
| FileApi.ComponentExt | backend/api/file.py:22 | `splitext` of a path component: empty, or a dot with no further dot, and a suffix of the name |
| FileApi.SplitExt | backend/api/file.py:22 | the extension of the last path component, holding no `/` |
| FileApi.ValidateFile | backend/api/file.py:20-32 | a file passes if and only if its lower-cased extension is allowed and its size is at most 50 MiB; every rejection has status 400 |
| FileApi.ExtensionCheckedFirst | backend/api/file.py:22-24 | a disallowed extension gives the type error, whatever the size |
| FileApi.SizeLimit | backend/api/file.py:18-32 | with an allowed extension, a size above 50·1024·1024 gives the size error and exactly 50·1024·1024 passes |
| FileApi.SplitExtOfName | backend/api/file.py:22 | a plain name with extension `e` has extension `e` |
| FileApi.UpperCaseAccepted | backend/api/file.py:22 | a `.PDF` file within the size limit passes |
| FileApi.MarkdownAndCsvRejected | backend/api/file.py:16-24 | `.md` and `.csv` files are rejected, though the error message names them |
| FileApi.SafeFilename | backend/api/file.py:69 | the stored name is the email up to its first `@`, then `_`, then the original name |
| Strings.BeforeFirst | backend/api/file.py:69 | `split('@')[0]`: the longest prefix without `@`, followed by the `@` when shorter |
| FileApi.JoinPath | backend/api/file.py:70 | `os.path.join` with the upload directory: an absolute name replaces it |
| FileApi.Disk.Write | backend/api/file.py:73-74 | a failed open changes nothing; a copy that breaks off leaves the path truncated to the bytes written so far; a full copy records the file's size at its path |
| FileApi.TaskQueue.AddTask | backend/api/file.py:77-82 | scheduling appends one task |
| FileApi.UploadFile | backend/api/file.py:51-96 | a validation failure is returned with nothing written or scheduled; a failed open gives status 500 with nothing written or scheduled; a copy that breaks off gives status 500 with the partial file left at its path and nothing scheduled; otherwise the file is written, one ingestion task is scheduled, and the response carries the stored name, `size // 1024` and `processing` |
| FileApi.StoredComponent | backend/api/file.py:69-70 | the stored path is already in the form `pathlib` prints, so the pipeline reads and records it unchanged, and its last component is the stored name |
| FileApi.StoredSuffix | backend/api/file.py:69-70 | the suffix the pipeline reads off the stored path is the extension the upload checked |
| FileApi.AcceptedUploadIngestion | backend/api/file.py:16 | an accepted upload finds no loader if and only if it is an image; an accepted upload is never `.md` |
| FileApi.AllowedLoaders | backend/api/file.py:16 | the allowed extensions without a loader are exactly the image ones |
| Chat.ChatWhere | backend/api/chat.py:49-53 | no filter if and only if the selection is missing or empty |
| Chat.ChatWhereMatches | backend/api/chat.py:49-53 | the `$or` filter admits exactly the records whose `source` is a selected name |
| Chat.SelectionAdmitsPipelineRecord | backend/api/chat.py:49-53 | a pipeline record passes the filter if and only if its file is selected |
| Strings.StripEmptyIff | backend/api/chat.py:39 | a stripped message is empty if and only if every character is white space |
| Chat.BlankMessage | backend/api/chat.py:39-43 | a blank message is answered with the end marker alone |
| Chat.Part | backend/api/chat.py:81 | a context block starts with `[` and ends with its document |
| Strings.NatText | backend/api/chat.py:81 | `str(i + 1)`: decimal digits, a leading `0` only for zero |
| Strings.NatTextValue | backend/api/chat.py:81 | the decimal text reads back as the number |
| Chat.CitationOf | backend/api/chat.py:82 | a citation carries the record's `source`, and its `page` or `?` when absent |
| Chat.BuildContext | backend/api/chat.py:79-82 | the loop that appends parts and sources computes `ContextOf` |
| Chat.ContextErrors | backend/api/chat.py:79-82 | the loop fails on a missing metadata row, or on a paired record without `source`, each if and only if |
| Chat.ContextEntries | backend/api/chat.py:79-82 | there are as many parts as sources, as many as `zip` pairs; part j is `[j+1] ` and document j; source j is record j's citation, its `source` and its `page` or `"?"` |
| Chat.ContextText | backend/api/chat.py:84 | no parts give `No relevant documents found.`; otherwise every part occurs in the context |
| Chat.PromptCarries | backend/api/chat.py:87-100 | the prompt contains the context and the question |
| Chat.PromptCarriesChunks | backend/api/chat.py:84-100 | every retrieved document that made it into the context occurs in the prompt |
| Chat.CitationsJson | backend/api/chat.py:106 | the citations are dumped as an array, one object per source, in order |
| Chat.Stream | backend/api/chat.py:103-107 | one content event per token in order, then one citations event, then `[DONE]` last |
| Chat.StreamEvents | backend/api/chat.py:103-107 | the generator's yields are `Stream` |
| Chat.EventFraming | backend/api/chat.py:105-107 | every event is `data: `, the dumped payload, and a blank line, with no line break before it |
| Chat.HandleChat | backend/api/chat.py:38-109 | a blank message gets `[DONE]` before the store is touched; otherwise the user's collection is got or created and the answer is `Respond` on it |
| Chat.ResponseShape | backend/api/chat.py:69-109 | a non-blank answer is the model's tokens as content events, then the citations of the retrieved context, then `[DONE]` |
| Chat.FilteredCitations | backend/api/chat.py:49-61 | a result from a query that applied the filter cites only selected documents |
| Chat.SelectionIgnored | backend/api/chat.py:56-73 | as written, selecting two documents still cites a third that the filter rejects (see Findings) |
| Chat.SelectedContextCitesSelection | backend/api/chat.py:49-61 | with the filtered query used for the context, every citation names a selected document |
| Json.ParseDumps | backend/api/chat.py:105-106 | `JSON.parse` of what `json.dumps` writes gives back the same value |
| Json.ValueRoundTrip | backend/api/chat.py:105-106 | parsing a dumped value followed by a delimiter reads the value and stops at the delimiter |
| Json.EscapeStringRoundTrip | backend/api/chat.py:105 | the escaped text of a string reads back as the string, surrogate pairs included |
| Json.IntRoundTrip | backend/api/chat.py:106 | a dumped integer (a page number) reads back as itself, integers being exact in the model |
| Json.DumpsPrintable | backend/api/chat.py:105-106 | every character `json.dumps` writes is printable ASCII |
| Json.DumpsHasNoNewline | backend/api/chat.py:105-107 | a dumped payload never holds a line break, so it cannot contain the blank-line separator |
| Json.FieldIn | frontend/src/pages/Dashboard.jsx:75-86 | property access finds a member with that key, and finds nothing if and only if no member has it |
| Dashboard.Apply | frontend/src/pages/Dashboard.jsx:79-104 | each rewrite keeps the message's id, role and file |
| Dashboard.MapUpdate | frontend/src/pages/Dashboard.jsx:76-82 | `prev.map` keeps the length and ids, rewrites every message with the assistant id and leaves every other one unchanged |
| Dashboard.HandleSpec | frontend/src/pages/Dashboard.jsx:16-109 | the list grows by one with a skip flag and by two otherwise |
| Dashboard.ChatView.HandleLine | frontend/src/pages/Dashboard.jsx:66-97 | a line causes exactly the rewrites `LineUpdates` gives: none for a line without `data: `, for `[DONE]` and for text that does not parse |
| Dashboard.ChatView.HandleParsed | frontend/src/pages/Dashboard.jsx:75-94 | a truthy `content` is appended, then truthy `citations` finish the message |
| Dashboard.ChatView.HandleChunk | frontend/src/pages/Dashboard.jsx:62-98 | a chunk is split on blank lines and the lines are handled in order |
| Dashboard.ChatView.HandleNewMessage | frontend/src/pages/Dashboard.jsx:16-109 | the message list ends as `HandleSpec`: user message, then (without the skip flag) the assistant message rewritten by the response's updates, with the error text on a failed request or read |
| Dashboard.UpdateAllAppend | frontend/src/pages/Dashboard.jsx:58-98 | handling two runs of updates in turn is handling their concatenation |
| Dashboard.UpdateAllAt | frontend/src/pages/Dashboard.jsx:76-107 | after any updates the list has the same length; the assistant message has them all applied; every other message is unchanged |
| Dashboard.ApplyAllId | frontend/src/pages/Dashboard.jsx:76-107 | no update changes id, role or file |
| Dashboard.StreamingFlag | frontend/src/pages/Dashboard.jsx:86-107 | streaming ends if and only if a citations event or an error arrives |
| Dashboard.ContentOf | frontend/src/pages/Dashboard.jsx:75-83 | without errors the content is the old content followed by every appended text, in order |
| Dashboard.HandleFrame | frontend/src/pages/Dashboard.jsx:18-24 | old messages not sharing the assistant id are unchanged, and the user message is appended after them |
| Dashboard.AssistantAfter | frontend/src/pages/Dashboard.jsx:32-42 | without the skip flag two messages are appended, the second the empty streaming assistant message with the response's updates applied |
| Dashboard.FailedRequest | frontend/src/pages/Dashboard.jsx:53-107 | on a failed request the assistant message holds the error text and is no longer streaming |
| Dashboard.NoCitationsKeepsStreaming | frontend/src/pages/Dashboard.jsx:86-94 | a body that ends without a citations event leaves the assistant message streaming |
| Dashboard.SplitTerminated | frontend/src/pages/Dashboard.jsx:62-63 | splitting concatenated events on blank lines yields their lines and a final empty piece |
| Dashboard.EventLine | frontend/src/pages/Dashboard.jsx:66-72 | the line of an event carrying a dumped object is parsed back to that object |
| Dashboard.DoneLine | frontend/src/pages/Dashboard.jsx:69 | the end marker causes no update |
| Dashboard.ChunkOfEvents | frontend/src/pages/Dashboard.jsx:62-98 | a chunk made of events causes the updates of its events in order |
| Dashboard.StreamUpdates | frontend/src/pages/Dashboard.jsx:62-98 | the endpoint's stream read as one chunk appends every non-empty token and then finishes with the citations |
| Dashboard.TokensContent | frontend/src/pages/Dashboard.jsx:75-83 | the appended texts of the token updates are the concatenated tokens |
| Dashboard.AnswerMessage | frontend/src/pages/Dashboard.jsx:32-94 | tokens then citations turn the empty assistant message into the whole answer with the citations, no longer streaming |
| Dashboard.ReadAnswer | frontend/src/pages/Dashboard.jsx:16-109 | reading the endpoint's stream in one chunk leaves the assistant message holding the concatenated tokens and the citations |
| Dashboard.ChatRoundTrip | frontend/src/pages/Dashboard.jsx:16-109 | end to end with the endpoint, when the whole stream arrives in one read: a question it answers from a context ends with the page showing the model's whole answer and that context's citations |
| Dashboard.BlankQuestion | frontend/src/pages/Dashboard.jsx:58-98 | a blank question's stream leaves the assistant message empty and streaming |
| Strings.Split | frontend/src/pages/Dashboard.jsx:63 | `split` always yields at least one piece |
| Strings.FindSpec | frontend/src/pages/Dashboard.jsx:63 | the separator search returns the first occurrence, or reports that there is none |
| Strings.SplitAppend | frontend/src/pages/Dashboard.jsx:62-63 | splitting `a + b` gives the complete pieces of `a`, then the split of its last piece followed by `b` |
| Strings.SplitLastNone | frontend/src/pages/Dashboard.jsx:62-63 | the last piece of a split holds no separator |
| Dashboard.CutEventLost | frontend/src/pages/Dashboard.jsx:62-63 | as written, an event cut after `data: ` across two reads causes no update, while read at once it causes its updates (see Findings) |
| Dashboard.CutTokenLost | frontend/src/pages/Dashboard.jsx:62-83 | as written, a non-empty token delivered in two reads never reaches the message |
| Dashboard.BufferedSplit | frontend/src/pages/Dashboard.jsx:62-63 | with the unfinished piece carried to the next read, the reads act as the split of the leftover and all the reads together |
| Dashboard.BufferedWhole | frontend/src/pages/Dashboard.jsx:62-63 | the buffered reader acts as if the whole body were one read, whatever the cuts |
| Dashboard.BufferedStream | frontend/src/pages/Dashboard.jsx:58-98 | however the endpoint's stream is cut into reads, the buffered reader recovers every token and then the citations |

## Left out

- The loaders, the text splitter, the embedding model and the similarity ranking are foreign libraries. Pages, chunks, embedding success and query results are inputs; a query is any function from a collection and a query to a result. `VectorStore.HonestQuery` is a reference query that honours the filter and the result budget and uses collection order in place of similarity order; the lemmas that name it hold for that query only.
- The language model is a function from the prompt to the tokens it streams. A failure while streaming is not modelled.
- Store and database exceptions other than a failed embedding and a failed commit are not modelled, and neither is a failure of the endpoint's first, discarded query. The `KeyError` that a record without `source` raises in the endpoint's loop becomes an error value (`Chat.ContextErrors`).
- Pipeline.ProcessUploadedFile: the re-raise of an embedding failure, and of a loader or splitter failure (one flag for both), is an outcome value; the background task that runs the job and the prints are left out.
- Metadata values are strings and integers only; floating-point metadata and the vector store's validation of `where` clauses are not modelled. That validation rejects an `$or` of fewer than two clauses, so the endpoint raises at its first query when exactly one document is selected.
- Strings.Lower: lower-cases ASCII letters only, not all of Unicode as Python's `str.lower` does.
- Json.ParseDumps: the parser accepts integer numbers only, since every number the endpoint writes is an integer.
- Json.ParseDumps, Json.ValueRoundTrip, Json.IntRoundTrip: integers are read back exactly, whereas `JSON.parse` reads numbers as IEEE doubles and rounds integers beyond 2^53 (9007199254740993 reads as 9007199254740992); the only integers the endpoint writes are page numbers, far below that bound.
- Dashboard.ChatRoundTrip: the end-to-end theorem is stated for a stream that arrives in one read; a stream split across several reads is covered only by the line-loop and chunk-loop contracts, not by this theorem.
- Pipeline.PathSuffix and FileApi.SplitExt follow POSIX `pathlib` and `posixpath`: `/` is the only separator, and `..` components are kept as `pathlib` keeps them.
- The file's size comes in as a number; `seek`/`tell` and `os.path.getsize` are I/O. The size reported back is the declared size.
- Authentication and the current user are inputs (the email), and user lookup is a map from email to user id.
- Dashboard.ChatView.HandleNewMessage: each `setMessages` updater is applied at once, in program order. React's batching, re-rendering and the scroll effect are left out, as is a second message sent while one is still streaming.
- The text decoder is the identity on reads, so a multi-byte character cut across reads is not modelled.
- The page sends only the message text, never a selection; the endpoint's selection parameter is modelled for the endpoint on its own.

## Findings

| source | as written | input that shows it | evidently intended | confidence | as-written member | corrected member |
|---|---|---|---|---|---|---|
| backend/api/chat.py:56-73 | the filtered query's result is overwritten by a second query with no filter, so the context ignores the selected documents | the selection `["a", "b"]` and a collection holding one chunk of `other`: `other` is cited (a one-name selection instead makes the store reject the one-clause `$or` at the first query) | the context and the citations come from the selected documents only | not executed | Chat.SelectionIgnored | Chat.SelectedContextCitesSelection |
| frontend/src/pages/Dashboard.jsx:62-63 | each read is split on blank lines by itself, and the unfinished last piece is dropped instead of carried into the next read | a content event arriving as the read `data: ` and then the rest: neither read yields an update, so the token is lost | keep the unfinished last piece and put it in front of the next read | not executed | Dashboard.CutTokenLost | Dashboard.BufferedWhole |

The page model itself keeps the code as written. `Chat.SelectedContext` and
`Dashboard.BufferedUpdates` are the corrected definitions the two corrected
members prove their property about.
