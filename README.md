# Minima core in Dafny

This project models the core of Minima, a retrieval-augmented assistant over a user's local
files. It covers four parts:

- **The index state store** (`MinimaStore`). This is the per-file table with the modification
  timestamp, indexing duration and status of each file. It also holds the check-and-set that
  decides whether a file is new, changed or unchanged. It is a class whose `docs` field is a
  map from path to row. A database failure is a boolean parameter.
- **The indexing consumer** (`Indexer`). It covers routing a file to a pool and the default
  collection name. It holds the lazily filled cache of vector stores (`StorageDict`) and the
  suffix-to-loader table. It indexes, reindexes, purges and removes chunks with the
  conjunctive filter, and `find` builds links and the joined output. The vector database is a
  field mapping collection names to their chunks, in insertion order. Fresh point ids come
  from a counter, which stands in for `uuid4`. The loader/splitter result, the write outcome,
  a raising collection setup, raising deletes and the similarity-search hits are parameters.
- **The tool-calling agent** (`openai_chain.py`). It covers the system-prompt test, the agent
  step and the routing after it. The tool step runs `search_documents`, whose output text is
  modelled exactly. The graph loop is bounded by a number of agent steps. `invoke` reads the
  answer and the `[Document n - path]` links back out of the final history. The chat model
  and the retriever are function parameters.
- **The reranker's top-n selection.** Documents are paired with scores and stable-sorted by
  descending score, and the first `top_n` are kept.

Modules, all defined in this project:

- `Outcomes`: Option, Result and Outcome.
- `Text`: Python's `str.replace`, `lstrip`, `split(...)[0]`, `join` and ASCII `lower`.
- `Storage`
- `Routing`
- `Indexing`
- `Search`: the tool's text and the `re.findall` pattern.
- `Agent`
- `Reranker`

Behaviours kept as the code has them:

- `delete_m_doc` raises when no row has the path, because `.one()` raises. The model returns
  `Fail` in that case.
- A failing retriever makes the tool step raise. `invoke` then turns the exception into an
  error response, instead of the model seeing a "No relevant documents found." result.
- `index` never records a status or a duration in the store.
- `remove_from_storage` builds `Filter(must=[...])`, a conjunction. With two different files
  in one pool, nothing matches, so nothing is deleted.
- The `ToolMessage`s made by `_execute_tools` carry no `name`. So `invoke` never collects a
  link: `links` is always empty.

## Model

| member | source | states |
|---|---|---|
| Storage.NeedsIndexing | indexer/storage.py:119-150 | The answer is not "no reindex" iff nothing fails and the path is new or its stored timestamp is older than the incoming one. A new path gets a row with the timestamp and status `uploaded`. A stale row gets only its timestamp replaced. A "no reindex" answer (including a failure or a NULL stored timestamp) leaves the table unchanged. Only a new file adds a key. |
| Storage.CheckKeepsRows | indexer/storage.py:131-138 | A check never moves a stored timestamp back and never changes a row's status or indexing time. |
| Storage.NeedsIndexingKeyed | indexer/storage.py:134-144 | A check keeps every row stored under its own primary key. |
| Storage.CheckTwiceIsNoop | indexer/storage.py:131-140 | Checking a path again with the same timestamp answers "no reindex" and changes nothing, for every table, a stored NULL timestamp included. |
| Storage.ChecksTrackMaximum | indexer/storage.py:131-140 | Over any run of checks of a stored path, a check asks for reindexing exactly when its timestamp exceeds every earlier stored or submitted one. The stored timestamp ends at the running maximum, and no check answers "new file". |
| Storage.ShownTime | indexer/storage.py:198 | A duration is shown iff it is present and non-zero, and then unchanged. |
| Storage.TotalFromEntries | indexer/storage.py:187-198 | The total of the durations can be read off the shown entries even though zero durations are shown as `None`. |
| Storage.TimedCountIsCardinality | indexer/storage.py:188-189 | Over rows with distinct paths, the divisor of the average is the number of paths with a recorded duration. |
| Storage.TableTimeRemove | indexer/storage.py:187 | The table's sum of durations does not depend on which row is taken first. |
| Storage.TotalTimeOfAllRows | indexer/storage.py:178-187 | Summing any listing of every row once gives the table's sum of durations. |
| Storage.StatsOfAllRows | indexer/storage.py:176-204 | Over a listing of every row once, the statistics have one entry per row, the row count, the total of the durations, and the average over the paths with a recorded duration. |
| Storage.MinimaStore.DeleteMDoc | indexer/storage.py:84-92 | It succeeds iff the path has a row, and afterwards the path has none. |
| Storage.MinimaStore.SelectMDoc | indexer/storage.py:94-101 | It returns the row of the path iff there is one, and raises otherwise. |
| Storage.MinimaStore.FindRemovedFiles | indexer/storage.py:103-117 | It returns, without repeats, exactly the stored paths not in the existing set. Exactly their rows are deleted. |
| Storage.MinimaStore.CheckNeedsIndexing | indexer/storage.py:119-150 | Its answer and new table are those of `NeedsIndexing` on the old table. |
| Storage.MinimaStore.UpdateIndexingTime | indexer/storage.py:152-167 | It sets the duration of an existing row when nothing fails. Otherwise the table is unchanged. |
| Storage.MinimaStore.UpdateFileStatus | indexer/storage.py:206-221 | It sets the status of an existing row when nothing fails. Otherwise the table is unchanged. |
| Storage.MinimaStore.GetAllDocs | indexer/storage.py:169-174 | It returns every row exactly once, and only rows of the table. |
| Storage.MinimaStore.GetIndexingStats | indexer/storage.py:176-204 | An empty table gives zeros and no files. Otherwise there is one entry per row and the row count. The total is the sum of the rows' durations, a missing one counting as 0, and equals the sum of the shown entries. The average is that total over the timed rows (0 when there are none). |
| Storage.MinimaStore.GetFilesStatus | indexer/storage.py:223-237 | It returns one entry per stored row whose path is requested, and no other. |
| Text.ReplaceAbsent | indexer/indexer.py:251-254 | `replace` leaves a string without the pattern unchanged. |
| Text.ReplaceLeading | indexer/indexer.py:251-254 | `replace` on a string that starts with the pattern puts the replacement first and handles the rest on its own. |
| Text.ReplaceChar | indexer/indexer.py:59 | Replacing one character by another keeps the length and maps each position on its own. |
| Text.LStripRemovesLeading | indexer/indexer.py:139 | The result is a suffix of the input that does not start with the character, and only that character was removed. |
| Text.FirstSegmentIsPrefix | indexer/indexer.py:141 | The result is the prefix before the first separator, or the whole string when there is none. |
| Text.Lower | indexer/indexer.py:127 | It keeps the length and maps ASCII capitals to lower case, one position at a time. |
| Text.Decimal | llm/openai_chain.py:115 | The decimal form of a number is a non-empty run of digits. |
| Routing.Drop | indexer/indexer.py:139 | `s[n:]` has `len(s) - n` characters, or none when `n` is past the end. |
| Routing.PoolName | indexer/indexer.py:135-149 | The pool name is never empty and never holds a '/'. |
| Routing.PoolOfSubdirectory | indexer/indexer.py:139-146 | A file under a sub-directory of the root goes to the pool named after that sub-directory. |
| Routing.PoolAtRoot | indexer/indexer.py:139-145 | A file directly under the root goes to `default`. |
| Routing.CollectionNameSanitised | indexer/indexer.py:59 | The default collection name has the path's length, each '/', ':', '.' and ' ' replaced by '_', and every other character kept. |
| Routing.QdrantCollection | indexer/indexer.py:59-60 | Without an override, the collection name has none of the four characters. |
| Routing.BaseNameOf | indexer/indexer.py:127 | The name of `dir/name` is `name`. |
| Routing.SuffixOfFile | indexer/indexer.py:127 | The suffix of `dir/stem.ext` is `.ext`. |
| Routing.LoaderOfFile | indexer/indexer.py:126-133 | A registered lower-cased extension gets its loader over the path. Any other gets `Unsupported file type: <ext>`. |
| Routing.NoDotNoSuffix | indexer/indexer.py:127 | A name without a dot has an empty suffix. |
| Routing.NoLoaderForEmptySuffix | indexer/indexer.py:128-131 | An empty suffix gets no loader. |
| Routing.NoLoaderWithoutDot | indexer/indexer.py:126-131 | A file without a dot in its name is refused. |
| Routing.LinkOfContainerFile | indexer/indexer.py:251-255 | A path under the container path becomes `file://` + local path + the rest. |
| Indexing.Ensured | indexer/indexer.py:107-114 | After the existence check and creation, the collection exists and the others are untouched. |
| Indexing.Tagged | indexer/indexer.py:158-162 | One chunk per text, in order, each with the loader's path and its text. The ids are pairwise different and all drawn from the next `len(documents)` fresh ids. |
| Indexing.TaggedIdsFresh | indexer/indexer.py:162 | The ids for one file differ from each other and from every id already stored. |
| Indexing.Without | indexer/indexer.py:214-228 | A delete keeps exactly the chunks that do not match every condition of the filter. |
| Indexing.WithoutNoMatch | indexer/indexer.py:214-222 | A delete that matches nothing changes nothing. |
| Indexing.PoolFileList | indexer/indexer.py:212 | It lists exactly the files that route to the pool. |
| Indexing.Removed | indexer/indexer.py:208-229 | Removal keeps the set of collections. |
| Indexing.RemovedPointwise | indexer/indexer.py:209-228 | Each cached pool gets one delete over its own files, and other collections are left alone. |
| Indexing.NothingRemoved | indexer/indexer.py:212-213 | Removing no files changes nothing. |
| Indexing.RemovedOnlyDeletes | indexer/indexer.py:224-228 | Every chunk left was there before. |
| Indexing.RemovedKeepsIds | indexer/indexer.py:208-229 | Removal hands out no ids. |
| Indexing.RemoveOneFile | indexer/indexer.py:208-229 | Removing one file whose pool is cached deletes exactly its chunks from that pool and nothing elsewhere. |
| Indexing.RemoveTwoFilesDeletesNothing | indexer/indexer.py:214-222 | Two different files in one pool delete nothing from it, because the filter is a conjunction. |
| Indexing.UncachedPoolUntouched | indexer/indexer.py:209 | A pool that is not in the cache keeps all of its chunks. |
| Indexing.SetUp | indexer/indexer.py:104-124 | A setup that raises while checking for or creating the collection changes nothing. Any other run leaves the pool's collection in place, created when absent. |
| Indexing.FirstFailing | indexer/indexer.py:209-228 | The loop gets past exactly the pools whose delete does not raise, up to the first one whose delete does, if any. |
| Indexing.RemovalStopsAtFailure | indexer/indexer.py:209-228 | A raising delete ends the removal. Each pool in front of it has had its own delete. It and every later pool keep all their chunks. With no failing delete, every pool has its delete. |
| Indexing.FailedDeleteKeepsChunks | indexer/indexer.py:201-204 | When a delete raises, some removed file routes to the failing pool, and that collection keeps every chunk, those of the removed files included. |
| Indexing.FirstFailingOneFile | indexer/indexer.py:182-187 | Removing one file, the removal fails iff the delete into that file's pool raises. |
| Indexing.DeleteFromPools | indexer/indexer.py:209-228 | The loop yields `Removed` over the pools before the first failing delete, and that delete's error, or success. |
| Indexing.Added | indexer/indexer.py:151-170 | Processing a file changes the file's pool only. |
| Indexing.Cached | indexer/indexer.py:70-76 | After a lookup, the cache keys are the old ones plus the pool, still without repeats. |
| Indexing.AfterIndex | indexer/indexer.py:172-197 | After `index`, the file's pool exists and no other collection appears, whether or not the delete raised. |
| Indexing.ReindexReplacesChunks | indexer/indexer.py:182-189 | After reindexing a changed file whose delete succeeds, its pool holds exactly the new chunks for that path and the old chunks of other paths. When that delete raises, the new chunks are appended behind all the old ones, the file's old chunks included. |
| Indexing.NewFileOnlyAdds | indexer/indexer.py:178-189 | Indexing a new file keeps every pool's chunks, in order, in front of the new ones. |
| Indexing.IndexTwiceIsNoop | indexer/indexer.py:178-179 | Indexing the same file twice with the same timestamp changes nothing the second time, for every table. |
| Indexing.SkipKeepsCollections | indexer/indexer.py:194-195 | A "no reindex" answer leaves the collections alone. |
| Indexing.LinkOfEachHit | indexer/indexer.py:247-255 | Every hit's rewritten path is in `links`. |
| Indexing.LinkFromSomeHit | indexer/indexer.py:247-255 | Every link comes from some hit. |
| Indexing.LinksAtMostHits | indexer/indexer.py:247-255 | There are no more links than hits. |
| Indexing.SearchReply | indexer/indexer.py:243-268 | No hits give empty links and output. Any hit without a path, or an unset container path, gives the literal `{pool}` error. |
| Indexing.SearchReplyFound | indexer/indexer.py:247-261 | A successful reply has exactly the hits' links and the texts joined by `".\n\n\n "`. |
| Indexing.Indexer.constructor | indexer/indexer.py:79-86 | The cache starts empty over the given database. |
| Indexing.Indexer.SetupCollection | indexer/indexer.py:104-124 | On success the pool's collection exists and carries the path index, and a store for it is returned. A raise while checking or creating changes nothing. A raise on the payload index leaves the collection created but not indexed. Both give the error. |
| Indexing.Indexer.StoreFor | indexer/indexer.py:70-76 | The factory runs only for a pool not yet cached. A cached pool changes nothing. A new pool is cached, and added to the payload-indexed set, only when the factory returns. Otherwise its error is raised and nothing is cached. |
| Indexing.Indexer.ProcessFile | indexer/indexer.py:151-170 | No documents returns `[]` and changes nothing. Otherwise the ids are handed out. A failing store lookup returns `[]` with nothing cached. A failing write returns `[]` with the pool cached. Otherwise the tagged documents are appended to the file's pool under fresh ids, and those ids are returned. |
| Indexing.Indexer.TagDocuments | indexer/indexer.py:158-162 | The loop yields `Tagged`. |
| Indexing.Indexer.RemoveFromStorage | indexer/indexer.py:208-229 | The collections become `Removed` over the cache's pools, in order, up to the first delete that raises. That delete's error leaves the call. |
| Indexing.Indexer.Index | indexer/indexer.py:172-197 | A failing lookup of an uncached pool's store raises out of `index` before the state check, and nothing is cached. Otherwise the store is updated by the check, the pool is cached, and the collections match `AfterIndex` for its answer, with any failing delete swallowed. |
| Indexing.Indexer.Reindex | indexer/indexer.py:181-193 | A changed file's chunks are removed up to the first failing delete. That failure is swallowed, and new chunks are added. An unsupported suffix stops after the removal. |
| Indexing.Indexer.Purge | indexer/indexer.py:199-206 | Rows of vanished files are always dropped. Their chunks are removed from the cached pools up to the first delete that raises, and that error leaves `purge`. |
| Indexing.Indexer.Find | indexer/indexer.py:231-268 | An unknown pool gives the "does not exist" error. A failing store setup for an existing, uncached pool raises out of `find`, and nothing is cached. A failed search gives the literal `{pool}` message. Otherwise the reply is `SearchReply`, and only the cache changes: a newly cached pool goes to the end of the cache's order and into the payload-indexed set. |
| Indexing.Indexer.Answer | indexer/indexer.py:247-264 | The loop over the hits yields `SearchReply`. |
| Search.EntriesFromAt | llm/openai_chain.py:111-115 | The entry at index j is numbered from 1 and holds the j-th document. |
| Search.FormatResults | llm/openai_chain.py:107-118 | The tool's text is "No relevant documents found." for no documents, and otherwise the numbered entries joined by newlines. |
| Search.DigitRun | llm/openai_chain.py:247 | `\d+` takes the longest run of digits. |
| Search.HeaderOf | llm/openai_chain.py:247 | The pattern matches a header of digits and a path with no `]` or newline, captures exactly that path, and the match ends right after the `]`. |
| Search.EntryHeader | llm/openai_chain.py:247 | The pattern matches an entry's header and captures its shown path. The match ends where the entry's body begins. |
| Search.FindAllSkips | llm/openai_chain.py:247-248 | Text without '[' yields no match. |
| Search.FindAllEntry | llm/openai_chain.py:247-248 | An entry yields its path, then the matches of what follows. |
| Search.FindAllEntries | llm/openai_chain.py:247-248 | The joined entries yield their paths, in order. |
| Search.ListingRoundTrip | llm/openai_chain.py:111-118 | The listing of readable documents yields exactly their paths. |
| Search.SearchTextRoundTrip | llm/openai_chain.py:107-118 | Reading the tool's text back with the link pattern gives the shown paths of the documents, in order. |
| Search.NoDocumentsHoldNoPaths | llm/openai_chain.py:107-108 | The "no documents" text yields no match. |
| Search.ReadableShownPath | llm/openai_chain.py:113 | The path shown for a readable document is readable, including "Unknown". |
| Agent.PromptLeadsWithSystem | llm/openai_chain.py:149-151 | The test finds a system message iff the history starts with one. The model always sees a system message first, followed by the whole history. |
| Agent.CallAgent | llm/openai_chain.py:145-157 | The update is the model's one reply iff the model answers. Its error is passed on otherwise. |
| Agent.ShouldContinue | llm/openai_chain.py:192-204 | It routes to the tools iff the last message is the model's and has tool calls. |
| Agent.SearchTool | llm/openai_chain.py:88-120 | A call without `query` fails validation. Otherwise it succeeds iff retrieval does, with the formatted text. |
| Agent.SearchCalls | llm/openai_chain.py:183 | It keeps exactly the calls named `search_documents`. |
| Agent.ToolResultsPerSearchCall | llm/openai_chain.py:159-190 | The tool step succeeds iff every search call does. It then yields one message per search call, in order, answering that call's id with its result. |
| Agent.ToolResultsUnnamed | llm/openai_chain.py:185-187 | Every tool message has no name. |
| Agent.ToolResultsKeepsError | llm/openai_chain.py:177-187 | The first failing call's error ends the step. |
| Agent.ExecuteTools | llm/openai_chain.py:159-190 | The loop computes `ToolResults` of the last message's calls. |
| Agent.RunGraph | llm/openai_chain.py:122-143 | The loop computes `Run`. |
| Agent.RunExtends | llm/openai_chain.py:130-142 | A finished run extends the history and ends on a model message without tool calls. |
| Agent.RunFuelIrrelevant | llm/openai_chain.py:122-143 | Allowing more steps does not change a run that ended. |
| Agent.RunAddsUnnamed | llm/openai_chain.py:151-187 | Messages a run adds have no name and are never the system prompt. |
| Agent.LatestAnswerIsLatest | llm/openai_chain.py:232-240 | The answer is the content of the latest model message without tool calls, or "" when there is none. |
| Agent.ExtractAnswer | llm/openai_chain.py:232-240 | The backward scan yields `LatestAnswer`. |
| Agent.MatchLinks | llm/openai_chain.py:248-255 | No matches give no links and no error. Matches with an unset path raise. |
| Agent.LinkSetMembers | llm/openai_chain.py:249-255 | A link is in the set iff it is the link of a match. |
| Agent.UnnamedHistoryHasNoLinks | llm/openai_chain.py:244-245 | A history without a message named `search_documents` yields no links and no error. |
| Agent.NamedResultLinks | llm/openai_chain.py:245-255 | A named tool message with the tool's text yields exactly the links of the documents' paths. |
| Agent.LinksOfKeepsError | llm/openai_chain.py:244-255 | The first error ends the extraction. |
| Agent.ExtractLinks | llm/openai_chain.py:242-255 | The loop yields `LinksOf`. |
| Agent.AddMessageLinks | llm/openai_chain.py:245-255 | It adds the message's links to the set, or fails with its error. |
| Agent.Invoke | llm/openai_chain.py:206-260 | It computes `InvokeResult`. |
| Agent.InvokeOutcome | llm/openai_chain.py:206-260 | An exception gives an error response with status "error". A finished run gives the last message's content and no links. |
| Reranker.ZipFrom | llm/minima_reranker.py:28 | It pairs the i-th document with the i-th score, up to the shorter length. |
| Reranker.ZipPairsByPosition | llm/minima_reranker.py:27-28 | The zipped pairs follow input order, position by position. |
| Reranker.Insert | llm/minima_reranker.py:29 | Insertion keeps the pairs. |
| Reranker.SortDescending | llm/minima_reranker.py:29 | The sort is a permutation. |
| Reranker.InsertOrdered | llm/minima_reranker.py:29 | Insertion keeps descending, stable order. |
| Reranker.SortOrdered | llm/minima_reranker.py:29 | The sort yields descending scores, with ties in input order. |
| Reranker.OrderedUnique | llm/minima_reranker.py:29 | Only one ordering of the same pairs has that order. |
| Reranker.SortIsStable | llm/minima_reranker.py:29 | The sort is that unique stable descending order. |
| Reranker.Head | llm/minima_reranker.py:30 | It is Python's `s[:n]`, negative `n` included. |
| Reranker.DocsOf | llm/minima_reranker.py:30 | It returns the documents of the kept pairs, in order. |
| Reranker.CompressLength | llm/minima_reranker.py:30 | It returns `min(top_n, n)` documents (default `top_n` 3). |
| Reranker.TopNOrdered | llm/minima_reranker.py:29-30 | Scores never increase, ties keep input order, and the returned documents are those of the kept pairs. |
| Reranker.TopNFromInput | llm/minima_reranker.py:27-30 | Each kept pair is an input pair, used at most once. |
| Reranker.TopNKeepsBest | llm/minima_reranker.py:29-30 | No left-out pair scores above a kept one. |

## Left out

- The SQL engine, sessions and schema migration (indexer/storage.py:37-82). The table is a map.
- Storage.MinimaStore.FindRemovedFiles, GetAllDocs, GetFilesStatus and SelectMDoc: these have
  no handler, so a database failure raises out of them, and out of `purge` for the first. Only
  `select_m_doc`'s raise for a missing row is modelled; database failures of these four are not.
- Qdrant, LangChain vector stores, HuggingFace embeddings, device selection, loaders and the
  text splitter. These are foreign calls. Collections are a map, and loading and splitting is
  a parameter.
- `embed` (indexer/indexer.py:270-271). It is a foreign call to the embedding model.
- The similarity search and its `TOP_K` and `SCORE_THRESHOLD` settings. The hits are a
  parameter.
- Clocks, `time.time()` and `uuid.uuid4()`. Ids come from a counter.
- Logging.
- Indexing.Indexer.Find: `collection_exists` at indexer/indexer.py:233 is taken to answer
  without raising. Only the setup of the store that follows it can fail.
- Indexing.SetupFault: a setup runs in three steps, and only the step that raises is modelled.
  A raise from the `QdrantVectorStore` constructor counts as a late failure, like the payload
  index.
- Indexing.Indexer.Index, Indexing.Indexer.Purge, Indexing.Indexer.ProcessFile: a failing
  `add_documents` is a boolean, and a failing delete is a map from the collection to its
  message. A failure is the same on every call into that collection.
- `round` and float durations. Durations are reals and are not rounded.
- The chat model, `MemorySaver`, the thread configuration and `add_messages` id merging. The
  model is a function parameter, and updates are appended.
- The retriever's `k=5` and the cross-encoder. Documents and scores are parameters.
- The web app, the async queue and socket handlers, `llm_chain.py`, the MCP server and the
  migration script. They are not part of this model.
- Agent.Run: the code sets no step bound of its own. The compiled LangGraph graph applies the
  library's default recursion limit, because `invoke`'s config sets only the thread. Reaching
  that limit raises, and `invoke`'s handler turns the raise into an error response. The model
  bounds the run by `fuel` agent steps instead. Running out of fuel gives `None` from
  `InvokeResult`, not that error response.
- Agent.Message: only tool messages carry a `name`. Human and model messages are assumed
  unnamed.
- Agent.ToolCall: only the `query` argument is modelled. The validation error text is a
  constant.
- Search.SearchTextRoundTrip requires non-empty input. `NoDocumentsHoldNoPaths` covers the
  empty case.
- Search.SearchTextRoundTrip also requires readable documents: a path that is non-empty and
  has no ']' or newline, and content without '['. Other texts can be cut differently by the
  lazy pattern.
- Text.Lower maps ASCII letters only, and `\d` is ASCII digits only. Unicode case and digits
  are not modelled.
- Reranker.Scored: scores are integers. Only their order matters.
- Storage.MinimaStore.GetAllDocs: the database's row order is left open. This also applies to
  `FindRemovedFiles` and `GetFilesStatus`.
