# Memphis: models and proofs

Memphis is an agent runtime with hash-chained memory. This project models the parts of it whose correctness is
hard to see from the code, and proves what they are for. One module follows one source file, with a few modules
for shared vocabulary.

| modules | what they model |
|---|---|
| `NeighborGraph`, `BestFirstSearch`, `SearchExtent`, `HnswIndex`, `NarrowSearch`, `HnswRuns` | the vector index: a mutable neighbour graph, a best-first search with two sorted work lists, how far it goes, what a narrow and a wide search find, degree trimming, and when all of it agrees with a brute-force scan |
| `ChainBlocks`, `SoulValidation`, `TamperEvidence`, `MemoryChain`, `ReplayHarness` | the Rust chain kernel: block validation, appends, replay, and what equal tips prove |
| `ChainFiles`, `AppendProtocol` | the file-backed chain: one append under the lock, and any number of processes appending, crashing and checking at once |
| `JsonText`, `JsonScanner`, `ScanLaws`, `CanonicalPrinter` | printed JSON (RFC 8259), the scanner that recovers objects from a damaged file, and the key-sorting printer |
| `KeyTexts`, `ChainDiff`, `ConflictResolver` | replica sync: which blocks share a key, a keyed difference and a last-write-wins merge |
| `LruCache`, `ChainCache` | the LRU block cache: recency lists, cache inclusion, and the byte accounting of the class |
| `AlertEmitter`, `RateLimiter`, `BufferPool`, `BufferRuns`, `LoopEngine` | state machines with accounts: alert suppression, request windows, pooled buffers, loop limits |
| `ImportJson`, `ImportReport`, `ImportRoundTrip`, `ReplayNormalizer`, `FieldNames`, `JsonFields` | the importers that deduplicate, re-index and re-link chains |
| `Common`, `Sorting`, `OrderedMaps`, `Numerals` | optional values, a stable sort, insertion-ordered maps, decimal text |

Conventions. A method that loops or changes state is proved against a specification function or predicate, and the
properties are then lemmas about that specification or invariants every method keeps. Hashes, signatures, clocks,
`JSON.parse`, the collation of strings and the similarity of vectors are parameters. `Valid()` is an invariant of
every run: each constructor establishes it and each public method keeps it.

Some behaviours of the code turned out to differ from what one would expect, and are proved as they are:

- the search reads its worst score once for all neighbours of a node, and with it stale can skip a neighbour better
  than a hit it returns; in all well-formed indexes the hits are the best of everything visited exactly when at
  most one hit is asked for or k + maxNeighbors is at most the list length plus 1, which the defaults 10, 16 and 32
  meet (`NarrowSearch.AmpleIsExact`; a graph on which it fails is in `NarrowSearch.TrapIsMissed`);
- the rate limiter lets at most 2 * maxRequests - 1 calls through in one window length, one fewer than two full
  windows (maxRequests for a window of one tick; a limit below 1 acts as 1), and this bound is met for all parameters
  (`RateLimiter.WindowBound`, `RateLimiter.WindowBoundIsTight`);
- key order never shows in canonical texts, fingerprints are exact, and conflicts are exactly the differences, each of
  them exactly when the comparator tells all keys apart; a collation that calls two different keys equal reports one
  block in two key orders as a conflict, while no difference is ever missed (`CanonicalPrinter.KeyOrderNeverShowsIff`,
  `ChainDiff.FingerprintsAreExactIff`, `ChainDiff.ConflictsAreExactIff`, `ChainDiff.TiedKeysConflict`);
- `invalidateChain("a")` also drops the blocks of a chain named `a:b` (`LruCache.InvalidationReach`);
- between key-distinct lists a last-write-wins pull is commutative exactly when no two differing blocks with one key
  share a timestamp (`ConflictResolver.DistinctPullCommutesIff`, `ConflictResolver.TieShows`); a list that repeats a
  key with an older block last can make the direction show without a tie, and changes when pulled from itself
  (`ConflictResolver.PullCommutesIff`, `ConflictResolver.RepeatedKeyShows`); mutual pulls converge always;
- an import stops with a type error exactly when a kept block other than the last has an index that reads as
  infinity (`ImportJson.ImportSucceedsIff`), and a wrong index alone does not make it invalid (`ImportJson.ValidIff`);
- an append in a directory with a non-empty chain fails exactly when an empty file numbered below 1 exists
  (`ChainFiles.ChainDirectory.AppendLocked`, `ChainFiles.EmptyFileZeroBlocksAppend`);
- a buffer that is released a second time while it is pooled ends up in the pool twice, and so with two holders
  (`BufferRuns.ReleasedTwice`); sharing arises in no other way (`BufferPool.BufferPool.Release`);
- the agent loop halts in time exactly when `max_steps` is below 2^32 - 1, because the step counter saturates
  (`LoopEngine.HaltsInTimeIff`);
- with a negative dedupe window two attempts for one key can be further back in time than the window allows, and a
  summary can be suppressed; with any other window neither happens (`AlertEmitter.AttemptsAreSpacedIff`,
  `AlertEmitter.SummariesGetThroughIff`).

## Model

| member | source | states |
|---|---|---|
| HnswIndex.FindInsertIndexDesc | src/infra/embeddings/hnsw-index.ts:26-38 | the binary search returns the place behind the last item whose score is at least the new one |
| HnswIndex.PushBest | src/infra/embeddings/hnsw-index.ts:136-141 | the result list stays sorted, duplicate-free and at most ef long; what is dropped is no better than anything kept, no rank gets worse, and the best hit is never lost |
| NeighborGraph.BruteForceIsTopK | src/infra/embeddings/hnsw-index.ts:102-105 | the reference: scoring every vector and sorting yields a top-k, meaning true scores, descending, and nothing left out beats anything kept |
| NeighborGraph.TopKScoresUnique | src/infra/embeddings/hnsw-index.ts:102-105 | any two top-k answers to one query have the same scores in the same order |
| BestFirstSearch.AllKeep | src/infra/embeddings/hnsw-index.ts:156-172 | visiting all neighbours with the worst score read before keeps the search invariant, the stale score included: whatever is visited and not listed meets a full list and is no better than its first ef - limit + 1 hits |
| BestFirstSearch.ExpandKeeps | src/infra/embeddings/hnsw-index.ts:147-172 | one turn of the search loop keeps that invariant and makes progress |
| BestFirstSearch.StoppedListIsBest | src/infra/embeddings/hnsw-index.ts:147-154 | when the search stops, by exhaustion, by having seen all nodes or by its early exit, the list is a best list: on a closed graph every neighbour of a hit was visited, and a list that is not full holds everything reachable |
| BestFirstSearch.TraversalIsBest | src/infra/embeddings/hnsw-index.ts:147-173 | the whole traversal terminates and ends in such a list from any state that meets the invariant |
| BestFirstSearch.ListCount | src/infra/embeddings/hnsw-index.ts:136-172 | the list ends with as many hits as it has room for or as were visited, whichever is less |
| SearchExtent.SearchIsRun | src/infra/embeddings/hnsw-index.ts:143-173 | how far a search goes: it is a run of turns, each of which expands the best candidate while fewer than ef hits are held or it scores at least the worst of them, takes in exactly the new neighbours that find room or beat the worst hit from before the turn, and keeps the best of what it was offered; no node is expanded twice, and it ends only when everything is seen or no candidate is worth it |
| SearchExtent.WholeTurn | src/infra/embeddings/hnsw-index.ts:156-172 | the loop over the neighbours does such a turn |
| BestFirstSearch.AmpleListIsBest | src/infra/embeddings/hnsw-index.ts:147-180 | if at most one hit is asked for, or the hits asked for plus the degree limit are at most ef + 1, nothing visited and left out beats any of them, for every graph and similarity |
| NarrowSearch.AmpleIsExact | src/infra/embeddings/hnsw-index.ts:147-180 | for given ef, k and degree limit, the hits are the best of everything visited in all well-formed indexes exactly under that condition |
| NarrowSearch.TrapIsMissed | src/infra/embeddings/hnsw-index.ts:147-172 | for every other ef and k a graph, a path with a fan at its end, on which a skipped neighbour beats a returned hit |
| BestFirstSearch.WideSearchIsExact | src/infra/embeddings/hnsw-index.ts:117-181 | a result list with room for everything reachable from the entry point, cut to k, is a top-k of the reachable nodes |
| BestFirstSearch.SearchAnswers | src/infra/embeddings/hnsw-index.ts:175-180 | the first k hits of a finished search are an answer: true scores, sorted, distinct, reachable, as many as were visited up to k, the best of everything visited when the list is ample, none missing while reachable nodes remain on a closed graph, and exact when the list has room for everything reachable |
| HnswIndex.HnswIndex.VisitNeighbors | src/infra/embeddings/hnsw-index.ts:156-172 | the inner loop, with the worst score read once before it, does what the step `AllKeep` speaks of does, on lists that stay in order |
| HnswIndex.HnswIndex.Explore | src/infra/embeddings/hnsw-index.ts:147-173 | the search loop with its work lists and its two ways out terminates and computes the traversal |
| HnswIndex.HnswIndex.BestFirst | src/infra/embeddings/hnsw-index.ts:143-173 | the search from an entry point returns the best list and the visited nodes of that traversal, and that list is a best list |
| HnswIndex.HnswIndex.SearchInternal | src/infra/embeddings/hnsw-index.ts:117-181 | an empty index answers nothing and visits nothing; otherwise the result is an answer for a work list of max(k, efSearch), next to everything visited |
| HnswIndex.HnswIndex.Search | src/infra/embeddings/hnsw-index.ts:102-105 | a query of the wrong size is an error, any other gets the hits of exactly such a run for its normalized form: an answer, and the best of everything visited when the list is ample for k and maxNeighbors; the index stays well formed |
| HnswIndex.HnswIndex.SearchWithDiagnostics | src/infra/embeddings/hnsw-index.ts:107-115 | the same search, with the number of nodes such a run visits and the number stored |
| HnswIndex.TrimKeepsClosest | src/infra/embeddings/hnsw-index.ts:244-261 | trimming keeps exactly the limit, only old neighbours, closest first, and nobody dropped is closer than anybody kept |
| HnswIndex.HnswIndex.TrimNeighbors | src/infra/embeddings/hnsw-index.ts:244-261 | one node's neighbours become the trimmed ones and nothing else changes |
| HnswIndex.LinkingKeepsGraphOk | src/infra/embeddings/hnsw-index.ts:68-81 | linking a new node both ways keeps the graph well formed (stored neighbours, no self-links, bounded degree), and each back link is kept or crowded out by closer neighbours |
| HnswIndex.LinkingKeepsComplete | src/infra/embeddings/hnsw-index.ts:68-81 | linking a new node to every node of a complete graph within the degree limit leaves a complete graph |
| HnswIndex.HnswIndex.LinkBack | src/infra/embeddings/hnsw-index.ts:74-79 | every chosen neighbour gets the reverse link, trimmed, and no other node changes |
| HnswIndex.HnswIndex.InsertedFacts | src/infra/embeddings/hnsw-index.ts:61-81 | storing a new node links it to its nearest nodes, keeps the graph well formed, and keeps a complete graph complete up to maxNeighbors + 1 nodes |
| HnswIndex.HnswIndex.Add | src/infra/embeddings/hnsw-index.ts:53-82 | stores the normalized vector or hands over to update; a wrong size changes nothing; the index stays well formed and complete graphs stay complete; the entry point stays, unless there was none or it has the empty id |
| HnswIndex.HnswIndex.MovedFacts | src/infra/embeddings/hnsw-index.ts:92-99 | moving a node relinks it to its nearest others, keeps the graph well formed, and keeps a complete graph complete |
| HnswIndex.HnswIndex.ClosestOthers | src/infra/embeddings/hnsw-index.ts:92-99 | the links of a moved node are its hits in their order, without itself, or without the last if it was not hit |
| HnswIndex.HnswIndex.Update | src/infra/embeddings/hnsw-index.ts:84-100 | moves a stored node or hands over to add, with the same guarantees as add |
| HnswIndex.HnswIndex.Clear | src/infra/embeddings/hnsw-index.ts:226-229 | leaves an empty, well-formed index without an entry point |
| HnswIndex.HnswIndex.PickEntryPoint | src/infra/embeddings/hnsw-index.ts:231-242 | on a non-empty index the pinned entry point if it is stored and its id is not empty, and otherwise the first node, which is pinned from then on |
| HnswIndex.HnswIndex.constructor | src/infra/embeddings/hnsw-index.ts:47-51 | a new index is empty and well formed, with at least 2 neighbours and a work list of at least 4 |
| HnswRuns.Run | src/infra/embeddings/hnsw-index.ts:53-100 | after any run of add, update and clear the index holds exactly the live vectors, and its graph is complete if the run never held more than maxNeighbors + 1 of them |
| HnswRuns.RunThenSearch | src/infra/embeddings/hnsw-index.ts:53-181 | a search after such a run, with max(k, efSearch) at least the number of live vectors, has the scores of the brute-force scan |
| HnswRuns.CompleteSearchIsBruteForce | src/infra/embeddings/hnsw-index.ts:117-181 | on a complete, closed graph a wide enough search is a top-k of all vectors and agrees with the scan score by score |
| SoulValidation.ComplaintsExact | crates/memphis-core/src/soul.rs:14-94 | the error list holds a complaint exactly when the block deserves it, and is empty exactly when the block is acceptable |
| SoulValidation.AcceptedIff | crates/memphis-core/src/soul.rs:14-94 | a block is accepted exactly when its chain name and content are not blank after trimming, the name has no null byte, slash, backslash or two dots in a row, the time reads, the hash is the digest of index, timestamp, chain, data and link, the signature is absent or well formed (in strict mode: there and verified over the hash), and it begins the chain or follows the block before in number, link and time |
| SoulValidation.ComplaintsInOrder | crates/memphis-core/src/soul.rs:21-88 | complaints are listed in the order of the checks, each at most once |
| SoulValidation.StrictAddsSignature | crates/memphis-core/src/soul.rs:48-56 | strict validation is plain validation together with a verified signature |
| SoulValidation.ValidateBlockInternal | crates/memphis-core/src/soul.rs:14-94 | succeeds exactly on such blocks, hash of the five fields included, and otherwise returns the complaints in order |
| SoulValidation.ValidateBlock | crates/memphis-core/src/soul.rs:6-8 | validation that lets an unsigned block pass, and nothing else that is not in order |
| SoulValidation.ValidateBlockStrict | crates/memphis-core/src/soul.rs:10-12 | validation that requires a verified signature |
| SoulValidation.ValidChainExtends | crates/memphis-core/src/chain.rs:17-29 | a chain with one more block is valid exactly when the chain was and the block is acceptable behind its last |
| SoulValidation.ValidLink | crates/memphis-core/src/soul.rs:43-87 | every block of a valid chain has the digest of its five fields as its hash, the right link, the next index and no earlier timestamp than the one before |
| ChainBlocks.TrimIsBlank | crates/memphis-core/src/soul.rs:21-33 | a text is blank exactly when trimming white space off its ends leaves nothing |
| SoulValidation.IndicesCountUp | crates/memphis-core/src/soul.rs:60-70 | the indices of a valid chain count up from its first, in 64 bits |
| SoulValidation.TimestampsNonDecreasing | crates/memphis-core/src/soul.rs:74-85 | any two blocks of a valid chain have timestamps in order |
| TamperEvidence.SameTipSameChain | crates/memphis-core/src/soul.rs:43-87 | two valid chains ending in one hash have the same length and agree at every position on index, timestamp, chain, data, link and hash, or the proof hands over a collision or a block hashing to the zero hash |
| MemoryChain.MemoryChain.Append | crates/memphis-core/src/chain.rs:17-22 | appends exactly the acceptable blocks, rejects with the complaints, and keeps the chain valid |
| MemoryChain.MemoryChain.AppendStrict | crates/memphis-core/src/chain.rs:24-29 | the same with signatures required |
| MemoryChain.EntryFaultsAreTheCallers | crates/memphis-core/src/memory.rs:16-48 | a block built for an entry can only be faulted for its chain name, content or timestamp, never for index, link or hash |
| MemoryChain.EntryAcceptedIff | crates/memphis-core/src/memory.rs:16-48 | an entry is accepted exactly when its name, content and timestamp are in order; the block carries the given type, content, tags and timestamp under the digest of just that |
| MemoryChain.MemoryStore.AppendEntry | crates/memphis-core/src/memory.rs:16-48 | appends exactly then the block that carries what the caller gave, in the next place, unsigned, and leaves the store as it was otherwise |
| ReplayHarness.Replay | crates/memphis-core/src/harness.rs:23-48 | the report is that of the greedy valid subsequence; accepted and rejected add up to the input, with one error for each rejection |
| ReplayHarness.TakeSnapshot | crates/memphis-core/src/harness.rs:50-73 | the snapshot counts the blocks, names the last hash, and digests the hashes |
| ReplayHarness.FedInOrder | crates/memphis-core/src/harness.rs:51-59 | with digests of 64 characters the digested text of a valid chain is its hashes, whole and in order |
| ReplayHarness.FedSlices | crates/memphis-core/src/harness.rs:51-59 | on any blocks the digested text is their hashes in order, with the computed hash in the place of a blank one |
| ReplayHarness.SameStateSameStory | crates/memphis-core/src/harness.rs:50-73 | two replays with the same state hash kept the same story, or exhibit a collision of the state digest or a broken block hash |
| ReplayHarness.KeptIsValidSubsequence | crates/memphis-core/src/harness.rs:29-40 | what a replay keeps is a valid chain and a subsequence of its input |
| ReplayHarness.EachBlockIsJudged | crates/memphis-core/src/harness.rs:29-40 | every block is judged on top of what was kept before it: kept in the next place if validation accepts it there, and otherwise reported at its place among the rejected, with its index and exactly the complaints |
| ReplayHarness.ValidChainIsKept | crates/memphis-core/src/harness.rs:29-40 | a valid chain is kept whole, without errors |
| ReplayHarness.ReplayIsIdempotent | crates/memphis-core/src/harness.rs:23-73 | replaying what a replay kept accepts all of it, with the same snapshot |
| ReplayHarness.SameLastHashSameStory | crates/memphis-core/src/harness.rs:50-73 | replays that report the same last hash kept the same story, or exhibit a broken hash |
| ChainFiles.ValidateLoaded | src/infra/storage/chain-adapter.ts:238-263 | accepts exactly the valid chains, and otherwise names the first block at which the chain breaks |
| ChainFiles.CheckNext | src/infra/storage/chain-adapter.ts:278-302 | one block is accepted exactly when its number, hash (the current or the old one) and link fit the blocks before |
| ChainFiles.NewBlockExtends | src/infra/storage/chain-adapter.ts:131-146 | a block built behind a valid chain extends it, numbered one higher, with the given data, chain name and time, linked to the last hash (64 zeros for the first), under the digest of exactly these five fields |
| ChainFiles.FullListingIsChain | src/infra/storage/chain-adapter.ts:211-236 | a complete listing without empty files is numbered 1..n and reads as the chain that is stored |
| ChainFiles.ChainDirectory.PruneTrailingEmpty | src/infra/storage/chain-adapter.ts:480-504 | removes exactly the empty files that have no non-empty file at or above their number |
| ChainFiles.ChainDirectory.PruneKeepsChain | src/infra/storage/chain-adapter.ts:480-504 | pruning keeps the stored chain, and leaves an empty file exactly when one is numbered below the first block |
| ChainFiles.ChainDirectory.ReadAndValidate | src/infra/storage/chain-adapter.ts:211-266 | reads every file in order of number; succeeds exactly on a valid chain without empty files, and otherwise names the lowest empty file or else the first break |
| ChainFiles.ChainDirectory.AppendLocked | src/infra/storage/chain-adapter.ts:129-166 | the critical section run alone extends the stored chain by a block with the given data, chain name and time, its number, link and the digest of these five, exactly when no empty file lies below the first block, and otherwise keeps the chain |
| ChainFiles.EmptyFileZeroBlocksAppend | src/infra/storage/chain-adapter.ts:129-166 | a directory with an empty file 000000.json below a first block, in which an append is refused |
| AppendProtocol.StepKeepsInv | src/infra/storage/chain-adapter.ts:448-504 | every step of every process, and every crash, keeps the protocol's invariant |
| AppendProtocol.AppendsAreSafe | src/infra/storage/chain-adapter.ts:100-166 | in every run at most one process is in the critical section, the non-empty files are a valid chain 1..n in the files of their numbers, and every returned block has an index of its own and is stored |
| AppendProtocol.LogOnlyGrows | src/infra/storage/chain-adapter.ts:148-158 | the chain of a later state extends that of an earlier one |
| AppendProtocol.EveryBlockWasAskedFor | src/infra/storage/chain-adapter.ts:129-166 | in every run each block that joined the chain is one some process was asked for: it carries that request's data, chain name and time and the digest of its fields, was built by that process on exactly the chain before it, and was moved into its file with nothing but the write between |
| AppendProtocol.RenameStoresTheRequest | src/infra/storage/chain-adapter.ts:148-158 | whoever moves a file into place adds exactly the block of its own last request |
| AppendProtocol.GivesUpAfterTwoHundred | src/infra/storage/chain-adapter.ts:456-473 | a waiting process has failed fewer than 200 times, and gives up on the 200th failure only |
| AppendProtocol.ChecksReadPrefixes | src/infra/storage/chain-adapter.ts:321-351 | a lock-free check that succeeds has read a valid prefix of the chain; one that listed no empty file reads the chain as it was when listed |
| AppendProtocol.AbandonedLockStops | src/infra/storage/chain-adapter.ts:456-473 | once a crash leaves the lock file behind, no append ever gets through and nothing is lost |
| JsonScanner.ChunksAreBalanced | src/infra/storage/chain-adapter.ts:382-431 | on any text the chunks are disjoint, in order, start with a brace, and are balanced outside strings exactly at their end |
| ScanLaws.CutsAreUnique | src/infra/storage/chain-adapter.ts:382-431 | on any text, however damaged, the chunks are the one list with these properties: balanced objects, in order and apart, beginning outside strings, and every brace that opens outside strings lies in one of them unless an object that is never closed begins at or before it |
| ScanLaws.OutermostObjectsAreCut | src/infra/storage/chain-adapter.ts:382-431 | the scanner meets these conditions |
| JsonScanner.ConcatenationIsCut | src/infra/storage/chain-adapter.ts:382-431 | on printed objects with white space between them, whatever braces, quotes and escapes their strings hold, the chunks are exactly the objects |
| JsonScanner.ConcatenationIsRecovered | src/infra/storage/chain-adapter.ts:382-431 | such a text reads back as all its objects in order, also with white space behind the last |
| JsonScanner.QuoteIsSkipped | src/infra/storage/chain-adapter.ts:390-409 | scanning a printed string, whatever it contains, leaves the scanner where it was |
| JsonScanner.ValueIsSkipped | src/infra/storage/chain-adapter.ts:382-431 | scanning any printed value inside an object leaves the scanner where it was |
| JsonScanner.ExtractJsonObjects | src/infra/storage/chain-adapter.ts:382-431 | the loop returns the chunks that parse, in order |
| JsonScanner.ParseJsonObject | src/infra/storage/chain-adapter.ts:357-380 | an empty text is refused and a text that parses is its value; any other reads as the last of its chunks that parses, and is refused exactly when none of them does |
| JsonScanner.AppendedFileReadsLast | src/infra/storage/chain-adapter.ts:357-431 | a file that several objects were written to, whatever their strings hold and with any white space between and behind them, reads as the one written last |
| JsonText.PrintInjective | src/sync/chain-diff.ts:15-22 | no two values print to one text, not even inside a larger text |
| JsonText.EscapeRoundTrip | src/sync/chain-diff.ts:15-22 | an escaped character reads back, and never looks like a closing quote |
| CanonicalPrinter.TextDecidesValue | src/sync/chain-diff.ts:15-22 | equal canonical texts come from values equal up to key order at every depth, under any comparator; such values have equal texts unless one of their objects has two keys that compare as equal |
| CanonicalPrinter.KeyOrderNeverShowsIff | src/sync/chain-diff.ts:15-22 | for a total, transitive comparator all values equal up to key order have equal texts exactly when it tells all different keys apart |
| CanonicalPrinter.TiedKeysShow | src/sync/chain-diff.ts:15-22 | for any two different keys that compare as equal, a value whose text shows the order they were written in |
| CanonicalPrinter.SameCanonicalSameValue | src/sync/chain-diff.ts:15-22 | sorting keys loses nothing: equal sorted forms come from equal values, for any comparator |
| CanonicalPrinter.SameValueSameCanonical | src/infra/storage/chain-adapter.ts:433-446 | the order in which keys were written never shows in a value without tied keys, whatever the comparator says about other keys |
| ChainDiff.FingerprintDecidesBlock | src/sync/chain-diff.ts:30-38 | equal fingerprints come from blocks that agree on every field, absent data reading as an empty object, under any comparator; blocks that agree have equal fingerprints unless their data has tied keys |
| ChainDiff.FingerprintsAreExactIff | src/sync/chain-diff.ts:15-38 | fingerprints decide equality of all blocks exactly when the comparator tells all keys apart |
| ChainDiff.KeysAgreeIff | src/sync/chain-diff.ts:24-28 | two blocks have one key exactly when they have the same non-empty hash; or no hash and the same index; or neither and the same time (absent reading as unknown) and data of the same canonical text. No two kinds of key, and no two time keys, ever run into each other |
| ChainDiff.IdentityIsByValue | src/sync/chain-diff.ts:24-28 | that same text means the same value, and the same value the same text unless it has tied keys |
| KeyTexts.OneColonFits | src/sync/chain-diff.ts:27 | a time, a colon and a printed value can be taken apart in one way only, whatever colons the time and the value contain |
| KeyTexts.NoValueInTail | src/sync/chain-diff.ts:15-27 | no printed JSON value ends in a colon and another printed JSON value |
| ChainDiff.NoDataIsEmptyObject | src/sync/chain-diff.ts:24-38 | absent data, null and the empty object make no difference to a key or a fingerprint |
| ChainDiff.IndexBlocks | src/sync/chain-diff.ts:41-42 | the map of a list holds for every key the last block with it, in order of first appearance |
| ChainDiff.DetectChainDiff | src/sync/chain-diff.ts:40-66 | a block is reported as one-sided exactly when it is the last of its key there and the other side has none with it, and a conflict exactly for the last blocks of a shared key whose fingerprints differ; in map order |
| ChainDiff.DifferenceIsByIdentity | src/sync/chain-diff.ts:24-66 | the same said of identities: hash, or else index, or else time and data |
| ChainDiff.ConflictsAreTheDifferences | src/sync/chain-diff.ts:40-66 | no differing shared key is ever missed, under any comparator; unless local data has tied keys the conflicts are exactly the shared keys whose blocks differ as values, once each, with both blocks |
| ChainDiff.ConflictsAreExactIff | src/sync/chain-diff.ts:15-66 | the conflicts are exact for all pairs of chains exactly when the comparator tells all keys apart |
| ChainDiff.TiedKeysConflict | src/sync/chain-diff.ts:15-66 | for any two tied keys, one block written in two key orders that is reported as a conflict |
| ConflictResolver.ResolveChainConflicts | src/sync/conflict-resolver.ts:17-53 | the written list has one block for each key, in sequence by index (a missing one last) and time, and consists of exactly these: preferring local, the last local block of a key or else the first remote one; preferring remote, the last remote one or else the last local one; by time, the last of the newest remote ones or the last local one, whichever is newer, the remote one on a tie |
| ConflictResolver.ResolvedIsWhatStays | src/sync/conflict-resolver.ts:17-53 | the merge, loop and sort together, comes to exactly that list for each of the three strategies and whatever keys the two lists repeat |
| ConflictResolver.LaterTimeStays | src/sync/conflict-resolver.ts:12-15 | of two single blocks with one key the later stays on either side; a missing, empty or unreadable time counts as the epoch |
| ConflictResolver.ResolvedHoldsMerged | src/sync/conflict-resolver.ts:17-53 | the merged list has distinct keys and holds for each key the winner, neither losing nor inventing a key |
| ConflictResolver.PullsConverge | src/sync/conflict-resolver.ts:39-44 | after A pulls from B and B pulls from A both hold the same block for every key, ties and repeated keys included |
| ConflictResolver.NewestIsLastNewest | src/sync/conflict-resolver.ts:39-44 | what a list brings into a merge for a key is its last block among those with the key's highest timestamp, repeated keys included |
| ConflictResolver.PullIsIdempotent | src/sync/conflict-resolver.ts:39-44 | for all lists a second pull changes nothing; pulling oneself changes nothing exactly when the block held for each key is already the last of its newest |
| ConflictResolver.PullIsAssociativeIff | src/sync/conflict-resolver.ts:39-44 | the grouping of pulls through a list does not matter, whatever lists are at the two ends, exactly when the block it holds for each key is the last of its newest |
| ConflictResolver.PullCommutesIff | src/sync/conflict-resolver.ts:39-44 | for all lists, the direction of a pull does not matter exactly when for each key both sides have the same last newest block, or one side's is strictly newer, or only one side has the key, and that side holds it |
| ConflictResolver.DistinctPullCommutesIff | src/sync/conflict-resolver.ts:39-44 | for lists without repeated keys that is exactly when no two different blocks with one key share a timestamp |
| ConflictResolver.TieShows | src/sync/conflict-resolver.ts:39-44 | two single blocks with one hash and no timestamps on which the direction of a pull shows |
| ConflictResolver.RepeatedKeyShows | src/sync/conflict-resolver.ts:39-44 | a list with a repeated key and no ties on which the direction shows, and which a pull from itself changes |
| ConflictResolver.MergedSize | src/sync/sync-manager.ts:84-101 | the merged size is the number of local keys plus the remote-only count; it is the local length plus that count exactly when local keys are distinct |
| LruCache.Inclusion | src/infra/cache/chain-cache.ts:41-126 | for capacities m <= n, after any one trace, the smaller cache's recency order is a subsequence of the larger's with equal values, and the sizes differ by at most n - m |
| LruCache.HitIsLastSet | src/infra/cache/chain-cache.ts:41-117 | after any trace a cached key holds the value last set for it since it was last invalidated |
| LruCache.CapacityHolds | src/infra/cache/chain-cache.ts:71-79 | no trace ever caches more blocks than allowed |
| LruCache.OrderIsLastUse | src/infra/cache/chain-cache.ts:41-79 | after any trace the cache lists its blocks by when each was last asked for or set, so an overflow evicts the one unused for longest |
| LruCache.MakeKeyInjective | src/infra/cache/chain-cache.ts:32-34 | keys tell chains and indices apart, colons in names included |
| LruCache.InvalidationReach | src/infra/cache/chain-cache.ts:82-89 | invalidating a chain drops a block exactly when its chain is that one or continues its name behind a colon |
| LruCache.ColonFreeInvalidation | src/infra/cache/chain-cache.ts:82-89 | for a chain without colons in its name that is exactly the chain itself |
| LruCache.InvalidationOverreach | src/infra/cache/chain-cache.ts:82-89 | an example of the other case: invalidating a drops blocks of a:b |
| ChainCache.ChainCache.Get | src/infra/cache/chain-cache.ts:41-54 | a hit returns the cached value and makes its key the newest, the others keeping their order; a miss changes only its counter |
| ChainCache.ChainCache.Set | src/infra/cache/chain-cache.ts:56-80 | stores as the newest and evicts only the oldest beyond capacity; the byte estimate stays the sum of twice the key and value lengths over exactly the cached keys, so the clamp at zero never acts |
| ChainCache.ChainCache.InvalidateChain | src/infra/cache/chain-cache.ts:82-105 | drops exactly the keys that begin with the name and a colon, counts them, leaves the others and their order, and keeps the books balanced |
| ChainCache.ChainCache.InvalidateBlock | src/infra/cache/chain-cache.ts:107-117 | drops one key and says whether it was there |
| ChainCache.ChainCache.Clear | src/infra/cache/chain-cache.ts:119-126 | leaves an empty, balanced cache |
| ChainCache.DeleteBalances | src/infra/cache/chain-cache.ts:107-116 | taking a key out takes exactly its size out of the sum, which stays non-negative |
| RateLimiter.RateLimiter.Check | src/infra/http/rate-limit.ts:16-32 | accepts exactly when a window opens or has room, updates only that key's bucket, and on refusal reports the positive time to wait |
| RateLimiter.CallsAreAccounted | src/infra/http/rate-limit.ts:16-32 | for every limit and positive window, what a bucket says at any point of any run about the calls accepted so far in any stretch of one window length |
| RateLimiter.WindowServes | src/infra/http/rate-limit.ts:16-32 | a window serves its opening call and then the next ones up to maxRequests and no others until its length has passed, whatever other keys do; then the next call opens another |
| RateLimiter.LowLimitIsOne | src/infra/http/rate-limit.ts:16-32 | a limit below 1 accepts the call that opens a window and no other, exactly as a limit of 1 |
| RateLimiter.WindowBound | src/infra/http/rate-limit.ts:16-32 | with a clock that does not run back, any half-open stretch of one window length has at most 2 * max(1, maxRequests) - 1 accepted calls for a key; at most max(1, maxRequests) if the window is one tick |
| RateLimiter.WindowBoundIsTight | src/infra/http/rate-limit.ts:16-32 | for every limit and every window length a run and a stretch that meet this bound |
| LoopEngine.LoopState.Apply | crates/memphis-core/src/loop_engine.rs:63-106 | one action, in 32 and 64 bit saturating arithmetic, with the exact new state and error |
| LoopEngine.RunningIsWithinLimits | crates/memphis-core/src/loop_engine.rs:63-106 | a loop that has not halted is within all four limits and has counted its calls, up to saturation |
| LoopEngine.RunsOnIff | crates/memphis-core/src/loop_engine.rs:63-106 | a run goes on exactly as long as the numbers of calls, tool calls and errors and the total wait, as far as they can be counted, are within the limits and no action has completed it or failed for good; its counters are then those numbers |
| LoopEngine.EndsFor | crates/memphis-core/src/loop_engine.rs:68-104 | how a running loop ends: the first exceeded limit in the order of the checks names the reason and the error; completing and failing for good complete it without an error |
| LoopEngine.HaltedStays | crates/memphis-core/src/loop_engine.rs:64-66 | nothing changes a halted loop |
| LoopEngine.HaltsInTimeIff | crates/memphis-core/src/loop_engine.rs:68-72 | every run has halted by call max_steps + 1 exactly when max_steps is below the largest 32-bit number |
| LoopEngine.SaturatedLoopRunsOn | crates/memphis-core/src/loop_engine.rs:68-72 | at that largest number a loop of empty waits never halts |
| AlertEmitter.AlertEmitter.Emit | src/infra/logging/alert-emitter.ts:56-87 | suppresses exactly within the window, counts, and reports delivery |
| AlertEmitter.AlertEmitter.FlushSuppressed | src/infra/logging/alert-emitter.ts:89-112 | flushes the keys that were known at the start, one after the other: every one with suppressed alerts whose window has passed is cleared and summarised, and the record of any other stays |
| AlertEmitter.AlertsAreConserved | src/infra/logging/alert-emitter.ts:56-112 | for any clock and any mix of emits and flush rounds, each key's emits are its delivery attempts plus the counts in its summaries plus what is still pending |
| AlertEmitter.HistoryDecides | src/infra/logging/alert-emitter.ts:56-112 | after any run an alert is suppressed exactly when something was sent about its key less than a window ago, and a flush sends a summary exactly when alerts were suppressed since the last one and the window has passed, owning up to all of them under the prefixed key |
| AlertEmitter.AttemptsAreSpacedIff | src/infra/logging/alert-emitter.ts:56-74 | two attempts for one key are a window apart in every run exactly when the window is not negative |
| AlertEmitter.SummariesGetThroughIff | src/infra/logging/alert-emitter.ts:89-112 | with callers that avoid the summary prefix, no summary is ever suppressed exactly when the window is not negative |
| AlertEmitter.NegativeWindowCrowdsAttempts | src/infra/logging/alert-emitter.ts:59-74 | a run that crowds attempts under any negative window |
| AlertEmitter.NegativeWindowLosesSummary | src/infra/logging/alert-emitter.ts:89-112 | a run that loses a summary under any negative window |
| BufferPool.BufferPool.constructor | src/infra/memory/buffer-pool.ts:32-38 | a new pool is empty, balanced, and has the positive configured sizes, or the seven default ones, and limits of at least 1024 bytes and 1 buffer |
| BufferPool.BufferPool.BucketFor | src/infra/memory/buffer-pool.ts:40-57 | the binary search finds the smallest configured size that fits, or returns the size itself when none does |
| BufferPool.BufferPool.Acquire | src/infra/memory/buffer-pool.ts:59-74 | hands out the youngest pooled buffer of the best bucket or a new one; used bytes grow by its length; with buffers released once, it is never one that somebody still holds |
| BufferPool.BufferPool.Release | src/infra/memory/buffer-pool.ts:76-105 | keeps a buffer exactly when the byte and list limits allow, clearing its first 64 bytes only then; used bytes stay the bytes that are out exactly when the buffer was out (or there was nothing to subtract), and sharing arises exactly when a pooled buffer is taken back again |
| BufferPool.BufferPool.Trim | src/infra/memory/buffer-pool.ts:107-128 | reaches any non-negative target, touches a list only once all larger ones are gone, keeps the oldest buffers of each, and drops not one more than needed |
| BufferPool.BufferPool.DrainBucket | src/infra/memory/buffer-pool.ts:115-118 | the inner loop leaves an older part of the list, all gone unless the target is met |
| BufferPool.PushOk | src/infra/memory/buffer-pool.ts:99-101 | pushing keeps every buffer in the list of its own length, lists within their limit, and the sums exact |
| BufferPool.PopOk | src/infra/memory/buffer-pool.ts:63-67 | popping does too, and the sum is at least the popped length, so the clamp at zero never acts |
| BufferPool.PushSharing | src/infra/memory/buffer-pool.ts:99-101 | taking back a buffer nobody holds leaves nothing pooled twice exactly if it was not pooled already |
| BufferPool.TrimStops | src/infra/memory/buffer-pool.ts:111-127 | stopping at the list where the target is met drops the minimum, from the largest lists down |
| BufferRuns.Run | src/infra/memory/buffer-pool.ts:59-128 | at every point of any run of acquires, trims and releases of buffers in hand, the buffers handed out and not given back are all different; in the end the used bytes are exactly theirs, and the pooled bytes are within the limit |
| BufferRuns.Acquire | src/infra/memory/buffer-pool.ts:59-74 | within such a run an acquire adds one buffer to those in hand, and it is none of them |
| BufferRuns.Release | src/infra/memory/buffer-pool.ts:76-105 | within such a run a release takes exactly the given buffer out of hand and keeps the pool orderly |
| BufferRuns.ReleasedTwice | src/infra/memory/buffer-pool.ts:59-105 | acquire, release, release, acquire, acquire: the last two hand out one and the same buffer |
| ImportJson.RunImportJsonPayload | src/infra/cli/import-json.ts:185-295 | the two loops compute the import as specified, errors included |
| ImportJson.DedupeCandidates | src/infra/cli/import-json.ts:198-224 | the first loop computes the kept blocks and one issue for each candidate that is not kept |
| ImportJson.Reconcile | src/infra/cli/import-json.ts:226-264 | the second loop relinks the kept blocks, counts the rewrites and reports them, or stops at a missing predecessor |
| FieldNames.CandidateIsReadAs | src/infra/cli/import-json.ts:138-183 | any object is read field by field as the first usable value under the accepted names in their order, with the position and 64 zeros as defaults; it is refused exactly if it has no hash under either name |
| FieldNames.PayloadIsReadAs | src/infra/cli/import-json.ts:117-136 | the candidates are the payload itself if it is a list, else its blocks, else its chain |
| ImportJson.KeptAreFirsts | src/infra/cli/import-json.ts:198-224 | the kept blocks are exactly those of the first readable candidate for each hash, in order |
| ImportJson.ImportedChainIsLinked | src/infra/cli/import-json.ts:226-294 | indices 0..n-1, each block naming the one before it, no hash twice, and imported plus skipped equal to the candidates |
| ImportReport.ReportIsExact | src/infra/cli/import-json.ts:185-295 | the whole report: the kept blocks relinked in their places, every count, exactly the issues that candidates, links and a last block without an index are due, and valid if all of them are about duplicates |
| ImportJson.SkippedIsExplained | src/infra/cli/import-json.ts:266-294 | what is skipped is a duplicate, an unreadable candidate, or a last block without a usable index; the duplicate count is exact |
| ImportJson.ValidIff | src/infra/cli/import-json.ts:272 | an import is valid exactly when every candidate is readable and the kept blocks were linked already, whatever their indices |
| ImportJson.ImportSucceedsIff | src/infra/cli/import-json.ts:226-239 | an import gets through exactly when the payload has a list and no kept block but the last has an infinite index |
| ImportJson.OverflowingIndexStopsImport | src/infra/cli/import-json.ts:233 | two blocks, the first with an overflowing index, on which it does not |
| ImportRoundTrip.BlockReadsBack | src/infra/cli/import-json.ts:138-183 | a written block reads back as itself, whatever optional parts it has |
| ImportRoundTrip.WrittenChainIsFixed | src/infra/cli/import-json.ts:185-295 | importing a written linked chain changes no block, rewrites nothing, skips nothing, and is valid |
| ImportRoundTrip.ReimportIsIdentity | src/infra/cli/import-json.ts:185-295 | importing the output of any successful import yields the same blocks and a clean report |
| ReplayNormalizer.NormalizeReplayBlocks | src/infra/storage/soul.ts:65-84 | the loop relinks the sorted blocks: linked, sequential, payloads untouched |
| ReplayNormalizer.NormalizedOrder | src/infra/storage/soul.ts:66-70 | every loaded object appears once, by old index and then by timestamp, in loading order where both agree |
| ReplayNormalizer.LinkedIsKept | src/infra/storage/soul.ts:65-84 | a chain that is linked already comes back as it is |
| ReplayNormalizer.NormalizingIsIdempotent | src/infra/storage/soul.ts:25-84 | normalizing the output of a normalization changes nothing |
| ReplayNormalizer.BlockReadsBack | src/infra/storage/soul.ts:25-63 | a written normalized block reads back as itself |
| FieldNames.BlockLoadsAs | src/infra/storage/soul.ts:25-63 | any object is loaded field by field with these defaults: index 0 (negative ones too, fractions cut off), the epoch, the given chain, 64 zeros, the digest and the text of what is there, the type journal, and only those tags that are texts |

## Left out

- SHA-256, Ed25519, AES-GCM, Argon2 and DID encoding: a digest and a three-valued signature check are parameters. Plain validation accepts a block whose signature check returns false, so nothing is claimed about signatures there.
- Floating point in `normalize` and `cosine`, NaN vectors: a similarity is any function to the reals. Search widths are whole numbers.
- `HnswIndex.save`, `load` and `size`: file I/O and a counter. An index loaded from an arbitrary file need not be neighbour-closed.
- HnswIndex.HnswIndex.Add: nodes are values in a map, so sharing of node objects is not modelled; no caller outside the class sees them.
- MemoryChain.MemoryStore.AppendEntry: `recall_by_keyword` and `recall_by_tag` are plain filters and are left out.
- SoulValidation.IndicesCountUp: `index + 1` wraps at 2^64 as in a release build; a debug build panics there instead.
- ChainFiles.CheckNext: the old hash over the data alone is accepted as the code does, so no tamper evidence is claimed for this chain. The canonical hash is a parameter over the tuple of hashed fields, so the re-ordering of number-like keys by `Object.fromEntries` does not appear.
- AppendProtocol.AppendsAreSafe: block files are empty or hold a whole block, file names map to one number each, and a directory listing is one step. Files damaged in other ways, an unlisted file name for the same number and a listing that is not atomic are not modelled.
- AppendProtocol.AbandonedLockStops: the code has no recovery of a lock file left by a crash, so only safety holds. An `EEXIST` raised inside the critical section, which the code would take for a busy lock, is not modelled.
- AppendProtocol.ChecksReadPrefixes: a read fails only on a listed file that is empty or gone; other I/O errors during a check are not modelled.
- JsonScanner.ConcatenationIsRecovered: `JSON.parse` is a parameter that inverts printing on the given objects; for `JsonScanner.AppendedFileReadsLast` it refuses a text of several objects, and `trim` is a parameter that takes no braces away.
- JsonText.PrintInjective: strings are sequences of Unicode scalar values (lone surrogates are not modelled) and a number is kept as its text.
- CanonicalPrinter.TextDecidesValue: `localeCompare` is a parameter, any total and transitive comparator.
- ChainDiff.FingerprintDecidesBlock: block indices are integers.
- ConflictResolver.ResolveChainConflicts: block indices are integers, and the merge holds values rather than references.
- ChainCache.ChainCache.Get: a stored value is always truthy; `getStats` and its hit rate are left out.
- RateLimiter.WindowBound: limits, counts and clock values are integers.
- AlertEmitter.AlertEmitter.Emit: works on the computed key; trimming and hashing of alerts, and the fallback log, are left out. A flush round is one step, and other emits may come between rounds.
- BufferPool.BufferPool.Acquire: sizes are integers; the default trim target, `getStats` and process memory figures are left out. The contents of a new buffer are arbitrary.
- ImportJson.RunImportJsonPayload: progress callbacks and the wording of error lines are left out; the reasons `invalid_hash_type` and `invalid_prev_hash_type` can never be reported, since a hash and a link are always texts by then.
- ImportRoundTrip.WrittenChainIsFixed: array positions, which are below 2^32, read back exactly; lists are at most as long as an array can be. The transactional file write is left out.
- ReplayNormalizer.NormalizeReplayBlocks: `JSON.stringify` and the digest of a raw block are parameters; loading files is left out.
- Job queueing, the orchestration service, SQL repositories, HTTP, gateway, CLI, TUI, dashboard, alert transports, IPFS, WebSocket and git calls, and the native Rust bridge behind `appendBlock`: input and output.
- Categorisation, allowlists, insight generators and reflection text: heuristics without a strong specification.
- `file-cache.ts`, `query-cache.ts`, `embed/cache.rs`, `integrity.ts`, decision lifecycle and context-window selection: they would repeat easier versions of what is above.
