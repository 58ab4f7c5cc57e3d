# Distributed search platform: verified model

A Dafny model of the core of a distributed search platform: an LSM-style inverted index
with `.spdx` segment files, a Boolean/BM25 query pipeline that runs on one engine or fans
out over shards, the placement of documents on shards, and three small concurrent state
machines (circuit breaker, rate limiter, batch collector).

The central results connect each layer with a simpler description of the same thing:

- after any run, what a search answers is a definition over the delivered documents alone:
  the hits, their BM25 scores with every constant written out, their order, and how many
  documents have each term; one engine, the sharded indexers and the reload-only search
  service all answer so (`Reference`);
- an engine answers every search from the documents delivered to it, whatever the flush
  timing, the flush failures and the redeliveries (`History`), and a segment file gives
  back what was written into it, byte offsets included (`Segment`);
- shard engines behind the sharded executor answer like one engine, both as indexers fed
  by the publisher and as the searchers the program runs, which only reload what was
  flushed (`ShardedSpec`, `EndToEnd`, `Searchers`);
- the query cache always hands a query its own response if and only if the tokens that its
  plan and its key place differently are ones that engines do not notice; the condition is
  exact over everything an engine may have indexed, and over everything the deployed service
  may hold (`CacheKey`, `QueryCache`, `CacheOnEngines`), and so are those for two words
  joined by a comma (`Commas`, `CommaScores`);
- the heap merge is sort-and-truncate (`Merger`);
- interleaved flushes, searches, reloads, breaker requests, rate-limited calls and batch
  flushes keep their guarantees over whole runs (`FlushSteps`, `Reload`,
  `CircuitBreaker`, `RateLimit`, `BatchCollector`).

## Layout

| file | contents |
|---|---|
| `Ordering.dfy` | string order, sorting, listing of maps by key |
| `Tokenizer.dfy` | tokenising and stemming |
| `MemoryIndex.dfy` | the mutable in-memory index |
| `Segment.dfy` | segment writer and reader on bytes |
| `Engine.dfy` | the engine as a value (`EngineSpec`) and as an object (`EngineObject`) |
| `History.dfy` | the engine refines the documents delivered to it |
| `FlushSteps.dfy` | flush and search as interleaved steps |
| `Reload.dfy` | an indexer and a searcher sharing a directory |
| `Searchers.dfy` | reload-only searchers behind the sharded executor |
| `Encoding.dfy` | a lossless codec, as a witness for the premise of the segment theorems |
| `Placement.dfy`, `Router.dfy` | shard assignment, routing, consumer |
| `Ranker.dfy`, `Parser.dfy`, `Executor.dfy`, `Sharded.dfy`, `Merger.dfy` | the query pipeline |
| `CacheKey.dfy`, `QueryCache.dfy` | cache key; cache, and what it serves to whom on any index |
| `Deployment.dfy` | the deployed service, and how given documents get into it |
| `CacheOnEngines.dfy` | what the cache serves over engines and in the deployed service |
| `Commas.dfy`, `CommaScores.dfy` | words joined by a comma, stop words behind NOT |
| `EndToEnd.dfy` | the sharded system against one engine |
| `Reference.dfy` | all of them against a definition over the documents |
| `CircuitBreaker.dfy`, `RateLimit.dfy`, `BatchCollector.dfy` | state machines |

Operations that change state in the source are classes and loops here, each proved equal
to a specification function; the theorems are about those functions and about runs of
them. `dafny verify dfyconfig.toml` checks the whole project.

## Modelling decisions

- JSON, CRC32 and the file system enter through a `Codec` of functions. Only
  `Lossless` (decoding undoes encoding) is assumed of it, and only where a theorem says so;
  `Encoding.LosslessCodecExists` shows that such a codec exists.
- An executor sees an index as whatever assigns posting lists to terms (`View`). Sufficient
  conditions are stated over all of these; conditions said to be exact quantify over the
  runs of an engine, or over the runs of the deployed service.
- A flush is given the outcome of its file operations (`FlushIO`): not created, torn
  leaving a `.tmp` file, written but not opened, or fine. Every theorem covers all of them.
- SHA-256 truncated to 16 bytes is an arbitrary function; `Injective` is asked for where
  the cache needs it. Publisher hashes are arbitrary bytes.
- float64 is `real`, `log` is an arbitrary function, increasing where that is stated.
- Words used for queries: a token is *misread* when it stands behind a NOT that the key has
  used up on a word without tokens. A query is *safe* without commas and misread tokens,
  *honest* when its plan and its key name the same sets of terms and of exclusions,
  *tolerable* when every misread token is also excluded by the key and, unless the query is
  an OR query or excludes all it asks for, is also asked for; it is *trusted* by an executor
  when it has no terms, or no comma and the answer of every safe query with its key.
- An engine tokenises each term again before looking it up. A term is *live* when that
  leaves a lookup term, and two terms are *alike* when it leaves the same one. A query is
  *harmless* when each of its live misread tokens is like one the key excludes, and, unless
  the query is an OR query or everything live it asks for is excluded, like one it asks for;
  it is *faultless* when moreover it asks for those tokens literally. In "a,b" the second
  word is *redundant* when one of the words has no token, both have the same, or that of b is
  not live; it is *overlooked* also when the two tokens are alike.
- A term of a document *counts* as often as the engine's lookup of it occurs among the
  document's terms. The document frequency in a score is that among the hits, since lists
  are cut to the hits before they are ranked.
- A *response* is what the handler returns of an answer: total and results. Term statistics
  belong to the whole answer only, and the echoed query is treated by itself.
- Times are numbers that never decrease. Map iteration is an arbitrary choice.

## Behaviour a reader might not expect

- An addition between a flush's snapshot and its reset is lost: `FlushSteps.ResetDropsExactly`, `FlushSteps.AddInWindowIsLost`.
- `stem` is not idempotent and `Engine.Search` stems a second time:
  `Tokenizer.StemNotIdempotent`, `Tokenizer.LookupFindsItselfIff`, `History.WordFindsDocument`.
- Re-indexing a document does not retract its old content: `History.EveryVersionStaysFound`.
- AND ignores query terms without postings: `ExecutorSpec.CandidatesMeaning`.
- Restart and reload restore segments but not statistics: an indexer that goes on after a
  restart counts only what follows (`Reload.RestartGoesOn`), and while nothing is indexed, as
  in a searcher, every result scores 0 and results come in the order of ids
  (`Reload.SearcherScoresZero`, `Searchers.SearchServiceIsOneEngine`).
- The cache key and the parser disagree after "NOT" followed by a stop word, and on
  commas: `CacheKey.PlanAgainstKey` says by which tokens, `CacheOnEngines.ServiceServesRightIff`
  and `CacheOnEngines.EngineServesRightIff` when that gives wrong responses, and
  `Commas.CommaInServiceIff` and `CommaScores.CommaResponseIff` do so for commas.
- Some words never matter: "forest" is indexed as "for", a stop word, which no engine looks
  up, so "zoo not the forest" is always served right and "zoo not the foo" is not
  (`Commas.StopWordExamples`).
- A cache hit carries the query string of whoever stored it: `QueryCache.HitEchoesStored`.
- Overlapping flushes of the batch collector can publish out of order:
  `BatchCollector.OrderIffOrderly`, `BatchCollector.OverlapReorders`.
- The half-open probe limit is exceeded by one: `CircuitBreaker.OneProbeUncounted`.
- Sharded term statistics also count exclude terms: `ShardedSpec.ShardingInvisible` states
  exactly when the two statistics agree.
- With a limit below 1 the rate limiter's cleanup is visible: `RateLimit.CleanupShowsBelowOne`.
- Hex digits do not spread evenly over eight shards: `Placement.HexDigitsPerShard`.

## Model

| member | source | states |
|---|---|---|
| `Reference.EngineIsReference` | internal/searcher/executor/executor.go:40-115 | after every run of one engine with identical redeliveries every plan and limit is answered as defined over the documents: hits, scores, order, cut and term statistics |
| `Reference.ShardedIsReference` | internal/searcher/executor/sharded.go:41-138 | so do the indexing engines behind the sharded executor, whatever the deliveries, flushes, failures and walk order |
| `Reference.ServiceIsReference` | cmd/searcher/main.go:69-151 | the reload-only searchers find the hits among the documents that have reached a segment, all with score 0, in the order of ids, with the term statistics defined over them |
| `Reference.ViewIsReference` | internal/searcher/executor/executor.go:48-102 | whatever indexes and counts some documents answers as defined over them |
| `Ordering.LessIsLexicographic` | internal/indexer/engine.go:318-320 | the string order by which lists are sorted is the lexicographic one |
| `Tokenizer.StemShortens` | internal/indexer/tokenizer/tokenizer.go:59-105 | a stem is the word itself or strictly shorter, never under two bytes for a word of two or more, and is the word itself exactly when no rule fires or the first that fires is the "ss" rule |
| `Tokenizer.StemExact` | internal/indexer/tokenizer/tokenizer.go:96-105 | the first rule that can rewrite the word into something long enough does, and without one the word stays |
| `Tokenizer.LongestSuffixWins` | internal/indexer/tokenizer/tokenizer.go:60-105 | of the rules that can rewrite a word one with a longest suffix does |
| `Tokenizer.StemNotIdempotent` | internal/indexer/tokenizer/tokenizer.go:59-105 | "creations" stems to "creation", which stems to "creat" |
| `Tokenizer.Tokenize` | internal/indexer/tokenizer/tokenizer.go:31-56 | the loop returns the terms of the text in order, with positions 0..n-1 |
| `Tokenizer.TokenizeConcat` | internal/indexer/tokenizer/tokenizer.go:31-56 | tokenising two texts joined by a space is tokenising each, the second's positions shifted past the first |
| `Tokenizer.SplitAnywhere` | internal/indexer/tokenizer/tokenizer.go:31-36 | any character but an ASCII letter or digit separates: the terms are those of both sides |
| `Tokenizer.CleanWordTerm` | internal/indexer/tokenizer/tokenizer.go:38-55 | a lower-case word gives its stem, taken once, and nothing if and only if it has under two bytes or is in the stop-word table |
| `Parser.CaseIrrelevant` | internal/indexer/tokenizer/tokenizer.go:32-32 | writing letters of a text in upper case changes no term |
| `Tokenizer.LookupFindsItselfIff` | internal/indexer/engine.go:122-126 | re-tokenising a lower-case alphanumeric term gives the term back if and only if it has two bytes, is no stop word and is a fixed point of stemming |
| `Tokenizer.TermsAreWords` | internal/indexer/tokenizer/tokenizer.go:31-56 | every term of a text is a lower-case alphanumeric word, and tokenising it again gives what it is looked up by and nothing else |
| `Memory.PositionsExact` | internal/indexer/index/memory_index.go:33-47 | a posting's positions are exactly the places of its term, ascending |
| `Memory.PostingExact` | internal/indexer/index/memory_index.go:33-47 | a posting is the document's for a term if and only if its frequency is the number of occurrences and its positions are their places, ascending |
| `Memory.AddedRecords` | internal/indexer/index/memory_index.go:52-57 | what adding a document stores under one of its terms has that frequency and those positions |
| `Memory.AddedSizeIs` | internal/indexer/index/memory_index.go:57-57 | the size estimate grows by the term, the id and 64 bytes per distinct term and 8 bytes per occurrence |
| `Memory.FrequenciesSumToLength` | internal/indexer/index/memory_index.go:29-60 | whatever was in the index, the frequencies stored for a document under its terms after adding it sum to its length |
| `Memory.MemoryIndex.AddDocument` | internal/indexer/index/memory_index.go:29-60 | the nested map gains exactly the document's postings, the size estimate and document count grow accordingly |
| `Memory.AddedWellFormed` | internal/indexer/index/memory_index.go:52-59 | per term, adding replaces or inserts one document's posting and changes nothing else |
| `Memory.MemoryIndex.Search` | internal/indexer/index/memory_index.go:63-78 | the term's postings, one per document, sorted by id |
| `Memory.MemoryIndex.TakeSnapshot` | internal/indexer/index/memory_index.go:82-103 | whatever order the map is walked in, the snapshot is the one sorted list of entries |
| `Memory.SnapshotExact` | internal/indexer/index/memory_index.go:82-103 | the snapshot is strictly term-sorted and has exactly one entry per indexed term |
| `Memory.MemoryIndex.Reset` | internal/indexer/index/memory_index.go:121-127 | everything is cleared |
| `Segment.WriteSegment` | internal/indexer/segment/writer.go:57-151 | the appended and patched file is header, posting region, dictionary, footer; no entries is an error, and so is a file past 63-bit offsets |
| `Segment.SlicesTile` | internal/indexer/segment/writer.go:88-113 | posting slices start at 0, each next one starts where the previous ends, the last ends with the region |
| `Segment.RegionSlice` | internal/indexer/segment/writer.go:88-113 | each dictionary entry's slice is its own encoded list and its document frequency the list's length |
| `Segment.HeaderRoundTrip` | internal/indexer/segment/reader.go:32-74 | every field patched into the 64-byte header decodes to its value, counts modulo 2^32 |
| `Segment.HeaderLayout` | internal/indexer/segment/writer.go:79-137 | the 64 header bytes, field by field, with the magic bytes written out |
| `Segment.FooterRepeatsHeader` | internal/indexer/segment/writer.go:125-132 | the last 32 bytes of every written file hold the checksum of its dictionary bytes and repeat the header's counts, places and sizes |
| `Segment.OpensIff` | internal/indexer/segment/reader.go:32-74 | any file opens if and only if it is long enough, starts with the magic bytes, and its dictionary lies inside and decodes; a short file and a wrong start have their own errors |
| `Segment.WrittenOpens` | internal/indexer/segment/reader.go:32-74 | every written file opens, with dictionary, region and header intact and the document count that of the distinct ids |
| `Segment.SearchReader` | internal/indexer/segment/reader.go:78-95 | the binary search loop on any dictionary, then the read and decode, including their errors |
| `Segment.BisectIsScan` | internal/indexer/segment/reader.go:79-85 | on a sorted dictionary the search finds what a scan from the front finds |
| `Segment.SegmentRoundTrip` | internal/indexer/segment/reader.go:78-95 | searching an opened segment returns exactly the postings written for the term, and nothing for an absent term |
| `Segment.LookupOutcome` | internal/indexer/segment/reader.go:78-95 | on any sorted dictionary over any bytes: nothing for a term without an entry, else what its bytes decode to, else an error |
| `Encoding.LosslessCodecExists` | internal/indexer/segment/writer.go:94-119 | a codec that undoes its own encoding exists |
| `EngineObject.Deduplicate` | internal/indexer/engine.go:301-322 | the in-place loop computes the highest-frequency posting per document, sorted by id |
| `EngineSpec.DedupExact` | internal/indexer/engine.go:301-322 | strictly sorted by id, only input postings, and for each input posting one of its document that is no less frequent |
| `EngineSpec.DedupFirst` | internal/indexer/engine.go:301-322 | among a document's postings the first of the most frequent is the one kept |
| `EngineObject.Engine.constructor` | internal/indexer/engine.go:42-57 | a new engine has empty memory, the readable segments of its directory and zero statistics |
| `EngineObject.Engine.IndexDocument` | internal/indexer/engine.go:61-87 | the new state is the recorded document, flushed when memory is full; success means no flush was due or memory is empty |
| `EngineObject.Engine.Flush` | internal/indexer/engine.go:91-117 | memory becomes a reader only if write and open succeed, otherwise memory is kept; it reports success exactly when memory is empty afterwards |
| `EngineObject.Engine.SearchPostings` | internal/indexer/engine.go:121-145 | first token, memory then readers, deduplicated, for any readers |
| `EngineObject.Engine.ReloadSegments` | internal/indexer/engine.go:254-297 | readers gain exactly the new openable segments in name order, the count is how many |
| `History.RunReflects` | internal/indexer/engine.go:61-145 | in every reachable state whatever memory and readers store is the posting of a delivered version, and every delivered document has a posting stored for each of its terms |
| `History.EngineRefinesHistory` | internal/indexer/engine.go:61-145 | for every run, one posting per document, sorted, each that of a delivered version, and no delivered document containing the term missing |
| `History.ConsistentAnswer` | internal/indexer/engine.go:121-145 | with identical redeliveries the answer is exactly the postings of the documents that contain the term |
| `History.ExactAnswer` | internal/indexer/engine.go:61-145 | for every run, also with changed redeliveries: the deliveries split into one epoch per reader and the current one, and the answer keeps, per document, the first of the most frequent among each epoch's last versions with the term, memory first, then segments from the oldest |
| `History.FlushTimingInvisible` | internal/indexer/engine.go:61-145 | two runs over the same documents answer every search alike, whatever the thresholds, flush points, failures, order and redeliveries |
| `History.RunCounts` | internal/indexer/engine.go:65-69 | totals count every delivery, and a document has the length of the version delivered last |
| `History.RunFromReflects` | internal/indexer/engine.go:61-145 | an engine that reflects some documents and goes on reflects these and what follows |
| `History.FlushedWhenFull` | internal/indexer/engine.go:77-85 | a document that leaves memory below the threshold is only added; one that reaches it flushes memory when the files behave, and memory is kept when they do not; success is reported unless a flush was due and documents are still in memory |
| `History.MemoryStaysBelow` | internal/indexer/engine.go:77-85 | over every run in which due flushes work, memory ends below the threshold |
| `History.WordFindsDocument` | internal/indexer/engine.go:122-126 | for every run, the term of a word finds a document if and only if the term the engine makes of it is among the terms of a delivered version |
| `History.OneWordDocument` | internal/indexer/engine.go:122-126 | a document of one word is found through that word if and only if its term is a fixed point of tokenising |
| `History.EveryVersionStaysFound` | internal/indexer/engine.go:61-145 | every version ever delivered stays reachable through each of its terms |
| `FlushSteps.EverythingAccountedFor` | internal/indexer/engine.go:91-117 | in every interleaving each version of a posting ever added is held, was replaced in memory by a later one, or was dropped by a reset; the newest of each place is held or was dropped; only versions added during a flush are dropped |
| `FlushSteps.SearchMissesNothing` | internal/indexer/engine.go:127-131 | a finishing search misses no version present when it began except those replaced or dropped since, no place except dropped ones, and invents nothing |
| `FlushSteps.QuietRunsLoseNothing` | internal/indexer/engine.go:91-145 | when no addition falls into a flush window, the newest version of every place is held, nothing disappears but by being replaced, and no search misses a place, however flushes and searches overlap |
| `FlushSteps.ResetDropsExactly` | internal/indexer/engine.go:109-109 | a reset drops exactly the versions added since its snapshot that memory still has and no reader covers; nothing if and only if there are none |
| `FlushSteps.AddInWindowIsLost` | internal/indexer/engine.go:92-109 | a run in which a version added in the window is gone, be it of a new document or of one indexed again, whose old version is then what is found |
| `Reload.NewReadersExact` | internal/indexer/engine.go:260-289 | a scan opens exactly the openable segment files that are not loaded, each once, in the order of their names |
| `Reload.TornWrite` | internal/indexer/segment/writer.go:57-70 | a torn write changes the directory by its temporary file only, memory and readers stay, and no scan finds anything more for it |
| `Reload.ReloadIsClean` | internal/indexer/engine.go:254-297 | over any directory no name is loaded twice, no `.tmp` file is loaded, and a second reload finds nothing |
| `Reload.RunKeeps` | internal/indexer/engine.go:254-297 | over every run of indexer and searcher, each file serves a memory index of delivered documents, the flushed documents are in files, and the searcher has loaded no name twice |
| `Reload.ReloadConverges` | internal/indexer/engine.go:254-297 | after any run, a reload that can read everything makes the searcher answer exactly from the documents that reached a segment |
| `Reload.RestartGoesOn` | internal/indexer/engine.go:42-87 | after any run, an indexer started again over its directory answers from the flushed documents and those that follow, and its statistics are those of the latter alone |
| `Reload.SearcherCountsNothing` | internal/indexer/engine.go:214-297 | statistics are never restored |
| `Reload.SearcherScoresZero` | internal/searcher/ranker/ranker.go:86-89 | every result of the single executor on a searcher that only reloads scores 0, for every plan |
| `Searchers.SearchersScoreZero` | internal/searcher/executor/sharded.go:54-73 | every result of the sharded executor on such searchers scores 0, at any time |
| `Searchers.SearchServiceIsOneEngine` | cmd/searcher/main.go:69-151 | over all runs of the shards: after a full reload the sharded executor answers like one engine without statistics over exactly the flushed documents: its hits, all scores 0, results by id; a query term is in the one's term statistics if and only if in the other's, with the same count |
| `Placement.AssignShard` | internal/ingestion/publisher/publisher.go:118-124 | the 64-bit accumulator never overflows: it is the big-endian number of the first eight bytes, modulo the shards; for eight shards the eighth byte modulo 8 |
| `Placement.BigEndianDigits` | internal/ingestion/publisher/publisher.go:119-122 | in base 256 the accumulated number's digits are the hash bytes, the first one leading |
| `Placement.HexDigitsPerShard` | internal/ingestion/publisher/publisher.go:44-59 | for each of the eight shards which hexadecimal digits go to it: three to shard 1, one to shard 7, two to each other |
| `Placement.RoutingIsolates` | internal/indexer/consumer/consumer.go:44-69 | after any arrivals each shard engine is where a run of its own events alone would be |
| `Placement.OneShardPerDocument` | internal/indexer/consumer/consumer.go:44-69 | through any redelivery order each document has one content and lives in one shard |
| `Placement.StampedRoutable` | internal/ingestion/publisher/publisher.go:59-85 | every published event names a shard the router has, and equal bodies go to equal shards |
| `RouterObject.Router.constructor` | internal/indexer/shard/router.go:34-47 | one separate engine per shard, each started from its own directory |
| `RouterObject.NewRouter` | internal/indexer/shard/router.go:27-50 | no router if and only if some directory fails, otherwise every shard as above |
| `RouterObject.Router.Route` | internal/indexer/shard/router.go:53-62 | the shard's engine, or none for an unknown shard |
| `RouterObject.Router.Handle` | internal/indexer/consumer/consumer.go:42-77 | undecodable messages are dropped, unknown shards refused, otherwise exactly one engine indexes the event and the status follows its success |
| `Ranker.IDFArgumentIs` | internal/searcher/ranker/ranker.go:79-83 | the logarithm's argument is (N + 0.5) / (df + 0.5), positive for every df |
| `Ranker.RarerWeighsMore` | internal/searcher/ranker/ranker.go:79-83 | a rarer term has a strictly larger weight |
| `Ranker.TFNormBounds` | internal/searcher/ranker/ranker.go:86-93 | each factor lies strictly between 0 and k1 + 1 |
| `Ranker.TFNormMonotone` | internal/searcher/ranker/ranker.go:86-93 | increasing in frequency, decreasing in length, strictly |
| `Ranker.RoundKeepsOrder` | internal/searcher/ranker/ranker.go:60-65 | rounding is monotone and separates scores more than 0.0001 apart |
| `Ranker.RoundIsNearest` | internal/searcher/ranker/ranker.go:62-62 | a rounded score is a nearest multiple of 0.0001, and half way the one further from zero |
| `Ranker.TermScoreIs` | internal/searcher/ranker/ranker.go:42-55 | what a term adds to a document is log((N + 0.5) / (df + 0.5)) * 2.2 f / (f + 1.2 (0.25 + 0.75 len / avg)), 0 when it is not listed |
| `Ranker.MoreRelevantScoresHigher` | internal/searcher/ranker/ranker.go:42-55 | with positive weights a document that has every term at least as often and is no longer scores at least as much, and strictly more as soon as it has one more often or is shorter |
| `Ranker.Rank` | internal/searcher/ranker/ranker.go:38-76 | whatever order maps are walked in, the result is the one ranking of the total scores |
| `Ranker.RankedShape` | internal/searcher/ranker/ranker.go:59-76 | sorted, one rounded entry per scored document, cut to the limit |
| `Ranker.RankedIsTop` | internal/searcher/ranker/ranker.go:59-76 | the ranking without sorting: as many documents as the limit allows, strictly by score and then id, with every document left out after them |
| `Ranker.SmallerLimitIsPrefix` | internal/searcher/ranker/ranker.go:72-74 | a smaller limit gives a prefix |
| `Ranker.ClearlyHigherComesFirst` | internal/searcher/ranker/ranker.go:59-71 | a document more than 0.0001 higher in raw score is listed first |
| `Ranker.ZeroAverageScoresZero` | internal/searcher/ranker/ranker.go:87-89 | average length 0 makes every score 0 |
| `Ranker.RankedPermutation` | internal/searcher/ranker/ranker.go:38-76 | the ranking does not depend on the order inside posting lists |
| `Parser.Parse` | internal/searcher/parser/parser.go:31-70 | the loop with its pending-NOT flag computes the fold over classified words |
| `Parser.OperatorsAnyCase` | internal/searcher/parser/parser.go:44-55 | the words and, or, not are operators in any mixture of cases, and no others |
| `Parser.SpacesSplit` | internal/searcher/parser/parser.go:41-41 | the six ASCII space characters split a query into words, and only they do |
| `Parser.EveryWordPlaced` | internal/searcher/parser/parser.go:43-67 | every token-bearing word becomes exactly one term or one exclusion |
| `Parser.ParseMeaning` | internal/searcher/parser/parser.go:43-67 | excluded are exactly the words behind a NOT with no token-bearing word between, the others are asked for, order is kept, and the last AND or OR gives the type |
| `ExecutorSpec.CandidatesMeaning` | internal/searcher/executor/executor.go:48-80 | a candidate matches every (AND) or any (OR) term that matches anything, at least one, and no exclude term |
| `ExecutorSpec.ResultLength` | internal/searcher/executor/executor.go:81-115 | min(limit, hits) results for a positive limit, all hits otherwise |
| `ExecutorSpec.HitsDependOnContent` | internal/searcher/executor/executor.go:71-102 | hits and ranking depend only on the lists as multisets and on the statistics |
| `ExecutorSpec.PlanOrderIrrelevant` | internal/searcher/executor/executor.go:40-115 | reordering or repeating terms and exclusions changes no answer |
| `ExecutorObject.Intersect` | internal/searcher/executor/executor.go:119-150 | starting from a shortest list gives the documents in every list |
| `ExecutorObject.Unite` | internal/searcher/executor/executor.go:154-162 | the documents in any list |
| `ExecutorObject.Execute` | internal/searcher/executor/executor.go:40-115 | the loops over an engine object compute the specified answer |
| `ShardedSpec.ShardingInvisible` | internal/searcher/executor/sharded.go:41-138 | with disjoint shards, in any walk order, hits, results and query-term statistics are those of one engine holding the union; the statistics maps agree entirely if and only if every matching exclude term is also a query term or there is no query term |
| `ShardedSpec.AveragesAgree` | internal/searcher/executor/sharded.go:57-73 | the token-weighted average rebuilt from shard averages is the average of the union |
| `ShardedSpec.IndistinctSharded` | internal/searcher/executor/sharded.go:74-111 | plans with the same exclusions whose terms differ at most by excluded ones have the same answer, for OR plans and plans that exclude all they ask for |
| `ShardedObject.FanOut` | internal/searcher/executor/sharded.go:141-188 | each slot holds its own shard's lists and statistics |
| `ShardedObject.MergeAll` | internal/searcher/executor/sharded.go:52-69 | joined lists, totals and the owner of every listed document |
| `ShardedObject.ExecuteSharded` | internal/searcher/executor/sharded.go:41-138 | the loops over the shard engines compute the specified answer |
| `EndToEnd.ShardedSystemIsOneEngine` | internal/searcher/executor/sharded.go:41-138 | published, delivered in any order and number, flushed at any time with failures, queried in any walk order: the indexing engines give the same hits and ranking as one engine fed the same deliveries in any order; a query term is in the one's term statistics if and only if in the other's, with the same count |
| `Merger.ScoredDocHeap.Push` | internal/searcher/merger/merger.go:34-49 | the heap stays a heap and gains the document |
| `Merger.ScoredDocHeap.Pop` | internal/searcher/merger/merger.go:34-57 | the heap stays a heap and loses a worst document |
| `Merger.Merge` | internal/searcher/merger/merger.go:13-32 | exactly the first `limit` (10 if not positive) of everything, sorted by score, then id |
| `Merger.TopKAbsorbs` | internal/searcher/merger/merger.go:13-32 | cutting a list to its own top k before joining loses nothing |
| `Merger.MergeOfTopKs` | internal/searcher/merger/merger.go:13-32 | merging per-shard top-k lists equals merging the full lists |
| `CacheKey.NormalizeQuery` | internal/searcher/cache/cache.go:138-170 | the loop computes the sorted key text of the lower-cased words |
| `CacheKey.KeyDetermines` | internal/searcher/cache/cache.go:129-170 | without commas the hashed string determines limit, query type and both multisets of words, whatever other characters they hold |
| `CacheKey.SameWordsSameKey` | internal/searcher/cache/cache.go:163-169 | the same words asked for and excluded, in any order, give the same key |
| `CacheKey.KeyIff` | internal/searcher/cache/cache.go:129-170 | without commas two requests share a key if and only if limit, type and both multisets of words agree |
| `CacheKey.WordOrderIrrelevant` | internal/searcher/cache/cache.go:163-169 | plain words in another order share every key |
| `CacheKey.KeysWritten` | internal/searcher/cache/cache.go:129-170 | the hashed strings of "b a", "a or b" and "a not b", written out for all plain words in this order |
| `CacheKey.WalksCompared` | internal/searcher/cache/cache.go:144-161 | key and plan walked side by side: the flags follow the scan and the misread tokens are what moves |
| `CacheKey.PlanAgainstKey` | internal/searcher/cache/cache.go:144-161 | for every query: same type, and the misread tokens are exactly what the key has more among its terms and the plan among its exclusions |
| `CacheKey.KeySound` | internal/searcher/cache/cache.go:129-170 | queries without commas and without a misread that share a key have the same limit, type and multisets of terms and exclusions after parsing |
| `CacheKey.HonestIff` | internal/searcher/cache/cache.go:144-161 | plan and key name the same sets if and only if every misread token is also asked for and also excluded elsewhere |
| `CacheKey.KeyPartner` | internal/searcher/cache/cache.go:129-170 | under the key of every query without commas there is a safe query, under every limit, whose plan is what the key stands for |
| `CacheKey.MisreadFamily` | internal/searcher/cache/cache.go:144-161 | "a not stop b" keeps the term of a, excludes that of b, has a key that asks for it and excludes nothing, and is neither honest nor tolerable, for all words |
| `CacheKey.HarmlessMisread` | internal/searcher/cache/cache.go:144-161 | "a not a not stop a" is misread and harmless |
| `CacheKey.CommaCollides` | internal/searcher/cache/cache.go:163-169 | "a,b" and "a b" share every key; what the plan of each is; the terms are equal if and only if one word has no token, the sets if and only if moreover the tokens may be equal |
| `QueryCache.KeySharesAnswer` | internal/searcher/cache/cache.go:129-134 | safe queries sharing a key have the same hits, results and statistics on every index, single or sharded |
| `QueryCache.Cache.Get` | internal/searcher/cache/cache.go:45-66 | the stored answer or a miss, and the counters |
| `QueryCache.Cache.GetOrCompute` | internal/searcher/cache/cache.go:84-109 | store, answer and cache flag after two looks, a computation and a write that may fail |
| `QueryCache.NoTermsAnswered` | internal/searcher/handler/handler.go:95-101 | a query without terms gets what either executor would answer, query echoed, and leaves the cache alone |
| `QueryCache.SameWordsHit` | internal/searcher/cache/cache.go:84-109 | once a request was answered and written, every later readable request with the same words in any order, type and limit is a hit |
| `QueryCache.SecondLook` | internal/searcher/cache/cache.go:91-96 | when only the look inside the flight can be read it still gives the stored answer, whatever the executor does, without counting as cached |
| `QueryCache.CacheIsTransparent` | internal/searcher/handler/handler.go:88-120 | behind the handler, after any trusted requests, whatever Redis did, a trusted request gets the answer it would get without a cache, for any executor and for whole answers and responses alike |
| `QueryCache.HonestTransparent` | internal/searcher/handler/handler.go:88-120 | among honest and term-less requests the cache never shows in whole answers, on any index, with the single executor |
| `QueryCache.TolerableTransparent` | internal/searcher/handler/handler.go:88-120 | among tolerable and term-less requests it never shows in whole answers on any shards, with the sharded executor |
| `QueryCache.HitEchoesStored` | internal/searcher/handler/handler.go:172-178 | after a stored answer, a hit of another query with its key carries the query string of the first |
| `Deployment.TaleIsServed` | cmd/searcher/main.go:69-151 | any documents with different ids, terms and writable segments are exactly what some deployment has published, delivered to the shards of their hashes and flushed |
| `CacheOnEngines.EngineByLookup` | internal/indexer/engine.go:121-145 | in every state, terms with the same lookup term have the same postings and terms without one have none |
| `CacheOnEngines.TolerableIsHarmless` | internal/indexer/engine.go:122-126 | tolerable queries are harmless, honest ones faultless, faultless ones harmless |
| `CacheOnEngines.HarmlessServedRight` | internal/searcher/handler/handler.go:88-120 | whatever state engines are in, a harmless query with terms always gets its own response, from the sharded executor its whole answer |
| `CacheOnEngines.EngineServesRightIff` | internal/searcher/handler/handler.go:88-178 | over every run of one engine, a query with terms and without commas always gets its own response if and only if it is harmless |
| `CacheOnEngines.EngineServesWrong` | internal/searcher/cache/cache.go:84-109 | every other such query is given another response after one safe request, under every limit, by an engine that has indexed at most two documents |
| `CacheOnEngines.EngineAnswersRightIff` | internal/searcher/cache/cache.go:84-109 | over every run of one engine it always gets its own whole answer if and only if it is faultless |
| `CacheOnEngines.ServiceServesRightIff` | cmd/searcher/main.go:69-151 | over everything published, delivered, flushed and reloaded by the deployed service, it always gets its own response if and only if it is harmless |
| `CacheOnEngines.ServiceServesWrong` | internal/searcher/cache/cache.go:84-109 | every other such query is given another response by some deployment, under every limit |
| `Commas.CommaOnEngineIff` | internal/searcher/cache/cache.go:163-169 | over every run of one engine, "a,b" has the whole answer of "a b" if and only if b is redundant |
| `CommaScores.CommaResponseIff` | internal/searcher/cache/cache.go:163-169 | and the same response if and only if b is redundant, for a logarithm that shows in four decimals: tokens that are alike score twice |
| `Commas.CommaInServiceIff` | internal/searcher/cache/cache.go:163-169 | over everything the deployed service may hold, "a,b" has the whole answer of "a b" if and only if b is redundant, and the same response if and only if b is overlooked |
| `Commas.CommaServedWrong` | internal/searcher/cache/cache.go:84-109 | unless b is overlooked some deployment gives "a,b" the stored response of "a b", under every limit |
| `Commas.StopWordFamily` | internal/searcher/cache/cache.go:144-161 | "a not stop b" is harmless, and faultless, if and only if the token of b is not live, for all words |
| `Commas.StopWordExamples` | internal/searcher/cache/cache.go:144-161 | "zoo not the foo" is not harmless, "zoo not the forest" is although it is neither tolerable nor honest |
| `CircuitBreaker.CircuitBreaker.constructor` | pkg/resilience/circuitbreaker.go:69-86 | closed, with non-positive settings replaced |
| `CircuitBreaker.CircuitBreaker.BeforeRequest` | pkg/resilience/circuitbreaker.go:105-129 | new state and admission in each state |
| `CircuitBreaker.CircuitBreaker.AfterRequest` | pkg/resilience/circuitbreaker.go:131-166 | new state after success or failure in each state |
| `CircuitBreaker.CircuitBreaker.Reset` | pkg/resilience/circuitbreaker.go:169-176 | closed and cleared, the last failure time kept |
| `CircuitBreaker.AdmittedExactly` | pkg/resilience/circuitbreaker.go:105-129 | over every run: closed admits all, open admits if and only if the timeout has passed since the latest failure, half-open if and only if at most the configured number of probes are in flight; a refusal changes only the clock |
| `CircuitBreaker.CannotWedge` | pkg/resilience/circuitbreaker.go:105-166 | in every reachable half-open state exactly `halfOpenRequests + 1` probes of the episode are in flight, at most the configured number plus one, and any completion leaves the state |
| `CircuitBreaker.OneProbeUncounted` | pkg/resilience/circuitbreaker.go:112-118 | for every configuration some run has one probe more in flight than configured |
| `CircuitBreaker.ClosedCountsTrailing` | pkg/resilience/circuitbreaker.go:141-166 | while closed, the counter is the number of failed completions since the last success or reset |
| `CircuitBreaker.TripsAtThreshold` | pkg/resilience/circuitbreaker.go:153-166 | closed if and only if failures are below the threshold; it leaves closed exactly on the failure that completes the threshold |
| `CircuitBreaker.NoAdmissionBeforeTimeout` | pkg/resilience/circuitbreaker.go:111-120 | without a manual reset nothing is admitted after opening until the timeout has passed since the latest failure, late completions included |
| `RateLimit.Limiter.Allow` | internal/auth/ratelimit/ratelimit.go:39-69 | answer and buckets after refill, cap and spending; an absent key starts full |
| `RateLimit.Limiter.Reset` | internal/auth/ratelimit/ratelimit.go:72-76 | the key's bucket is gone, others stay |
| `RateLimit.Limiter.CleanupPass` | internal/auth/ratelimit/ratelimit.go:82-91 | exactly the stale buckets are gone, for every window |
| `RateLimit.LimiterIsTokenBucket` | internal/auth/ratelimit/ratelimit.go:39-69 | over every run of calls of any keys and cleanup passes, a call is allowed if and only if the textbook bucket of its key, refilled at L per window up to L, holds a token |
| `RateLimit.PausedIsAllowed` | internal/auth/ratelimit/ratelimit.go:56-67 | after window / L without a call of the key the next is allowed |
| `RateLimit.BurstExact` | internal/auth/ratelimit/ratelimit.go:44-67 | of calls of a new key at one time exactly the first L are allowed |
| `RateLimit.CleanupRemovesExactly` | internal/auth/ratelimit/ratelimit.go:82-91 | a pass after any run removes exactly the buckets of keys not called for two windows |
| `RateLimit.StaleLikeAbsent` | internal/auth/ratelimit/ratelimit.go:53-68 | a stale bucket allows exactly when the limit is at least 1, and then behaves like an absent one |
| `RateLimit.CleanupUnobservable` | internal/auth/ratelimit/ratelimit.go:79-92 | cleanup passes anywhere in a run change no answer to a key with limits of at least 1, whatever other keys do |
| `RateLimit.CleanupShowsBelowOne` | internal/auth/ratelimit/ratelimit.go:45-64 | for every limit below 1 a cleanup pass turns a refusal into an admission |
| `RateLimit.TokensInBounds` | internal/auth/ratelimit/ratelimit.go:56-67 | tokens stay in [0, L] |
| `RateLimit.SpentAndSpendable` | internal/auth/ratelimit/ratelimit.go:39-69 | spent plus spendable never exceeds a full bucket plus the interval's refill |
| `RateLimit.AtMostLimitPlusRefill` | internal/auth/ratelimit/ratelimit.go:39-69 | over every run and interval of length T at most L + T * L / window calls of a key are allowed |
| `BatchCollector.Collector.Track` | internal/analytics/collector/batch.go:73-84 | the event is appended, a flush is due from the batch size on |
| `BatchCollector.Collector.TakeBatch` | internal/analytics/collector/batch.go:98-106 | the whole buffer is taken |
| `BatchCollector.Collector.Requeue` | internal/analytics/collector/batch.go:113-121 | the batch goes in front, and what exceeds three batches is cut from the newest end |
| `BatchCollector.NothingLostOrDoubled` | internal/analytics/collector/batch.go:73-126 | under every interleaving each tracked event is in exactly one of published, in flight, buffered or dropped |
| `BatchCollector.FailedFlushBound` | internal/analytics/collector/batch.go:108-122 | a failed flush leaves at most three batches, cuts only from the newest end, and only when full |
| `BatchCollector.OrderIffOrderly` | internal/analytics/collector/batch.go:98-126 | over distinct events a run keeps published, in-flight and buffered events in order throughout if and only if every success is of the oldest batch in flight and every failure of the newest |
| `BatchCollector.OrderKept` | internal/analytics/collector/batch.go:98-126 | with one batch in flight at a time the order is kept, for any events |
| `BatchCollector.FullBufferStarts` | internal/analytics/collector/batch.go:73-84 | over every run a tracked event starts a flush if and only if it leaves at least a batch in the buffer |
| `BatchCollector.TickerAlone` | internal/analytics/collector/batch.go:46-64 | as long as no flush started by a full buffer has taken a batch, never two batches are in flight |
| `BatchCollector.OverlapReorders` | internal/analytics/collector/batch.go:73-84 | for every batch size and any two full batches, the flushes their last events start can overlap and publish in the wrong order |
| `BatchCollector.TickerOvertakes` | internal/analytics/collector/batch.go:46-64 | the ticker can take an event tracked after a full batch and publish it before that batch |

## Left out

- Unicode: text is ASCII, every other character separates words; Go's rune classification and case mapping are not modelled.
- Float rounding: scores, averages and token counts are reals, so addition order cannot show in the last bits.
- Integer width of counters: `totalDocs`, `size`, frequencies and offsets below 2^63 are unbounded; the header's 32-bit truncation is modelled.
- Reference.EngineIsReference: asks for identical redeliveries; with changed content the lists are those of `History.ExactAnswer`, and scores are not restated over them.
- Tokenizer.StemExact: the stop words and suffix rules are tables taken from the source; the theorems hold of their entries as data.
- Encoding.LosslessCodecExists: shows only that some codec is lossless; nothing is proved about the JSON encoding the program uses.
- JSON, CRC32 and SHA-256 internals, and a writer that fails between fields: a failed write is one outcome.
- Read errors of an open segment file during a search: a reader answers from the bytes it was opened on.
- RouterObject.Router.constructor: the loop over shards is a recursive method.
- `GetAllEngines`, `FlushAll`, `ReloadAll`, `Close`, `StartFlushLoop`: plain loops over the operations modelled here.
- ShardedObject.ExecuteSharded: takes the shard engines in the order they are walked and runs the fan-out sequentially; the goroutines write disjoint slots of a read-only index.
- `FlushSteps` follows stored versions; which of several versions `deduplicatePostings` then shows is the subject of `EngineSpec`.
- QueryCache.Cache.GetOrCompute: TTL expiry, invalidation and the sharing of one flight by several callers are not modelled; the index under the cache is fixed.
- CacheKey.CommaCollides: commas are settled for two plain words in sorted order; queries that combine commas with NOT, or with further words, share keys in the same way and have no condition here.
- CacheOnEngines.ServiceServesRightIff: assumes that the segment of one document with one term of the query stays below 2^63 bytes, without which no segment of the term could be written; `Commas.CommaInServiceIff` likewise.
- RateLimit.Limiter.Allow: windows of zero or less, for which the source divides by zero.
- BatchCollector.Collector.Requeue: a publish either succeeds or fails as a whole; a batch partly accepted by Kafka is outside the model.
- ExecutorObject.Intersect: the start value of the shortest length (the largest int) is not modelled, since no list is that long.
- Documents stuck unpublished, idempotency keys, status updates in PostgreSQL.
- HTTP handlers, gateway, authentication, configuration, logging, metrics, tracing, health checks, the user interface, deployment: plumbing with little branching.
- Retry, timeout, the channel collector and the analytics aggregator: independent of the index and the query path.
