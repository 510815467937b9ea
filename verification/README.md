# evm-gateway in Dafny

A model of the parts of the Injective EVM gateway where the state is: how a
Cosmos block becomes an Ethereum-looking block, how that block is kept in a
key-value index, how blocks are fetched and gaps are found, how events are
streamed, and how logs and storage are queried. To verify it, run
`dafny verify dfyconfig.toml`.

## How it is laid out

Loops and objects of the source are methods and classes here; each is proved
against a function or predicate, and what the source promises is then proved
about that function.

- **Building a block.** `VirtualLogs`, `Synthetic` and `BlockModel` hold logs,
  synthetic transactions and blocks. `IndexFold` is the indexer's walk over a
  block and `LiveFold` the backend's own walk over the same block, written
  independently as in the source; `BlockBuilder` and `LiveBuilder` are their
  loops. `Agreement` relates the two; `Numbering`, `Gas`, `BlockGas`, `Partition`
  and `SyntheticIdentity` state what holds of every block that is accepted.
  `SyntheticContent`, `BlockContent` and `BlockLayout` say what a block shows, item
  by item and field by field, in terms of its messages and events alone;
  `Acceptance` says which blocks are accepted, and `Tolerance` what the backend
  makes of those that are not.
- **The index.** `ByteOrder` and `Keys` are keys and key ranges, `KeyScan` range
  iteration, `KeyOwnership` which block owns which key, `IndexRefinement` and
  `IndexRuns` the refinement of a map from heights to blocks, `FiledForms` what
  lies under each of a transaction's keys, `IndexOrder` the order of index keys,
  `Indexer` the store object, `CacheReader` the reader that re-checks what it
  finds, and `SharedHashes` what becomes of a hash that recurs at several heights.
- **Synchronising.** `Ranges` and `SyncPlan` decide what to fetch and `GapSync`
  carries it out on the store; `BlockGetter` is the concurrent fetcher as a
  transition system in which workers, announcer and consumer interleave freely,
  with one step per critical section, and `GetterSync` puts the store behind it.
- **Streaming.** `Queue` is the ring buffer, `Stream` and `EventStream` the
  pruning segmented log over it.
- **Normalising and querying.** `LogNumbering`, `Normalize` and `Normalizer`
  renumber logs inside encoded results, and `NativeNumbering` follows those
  numbers into the index; `LogFilter` and `LogQuery` filter cached logs and skip
  blocks by bloom, and `CachedQuery` puts them over the index; `StoragePaging`
  enumerates storage slots.
- `Samples` holds small concrete inputs on which an expectation fails. `Common`
  and `Sorting` are shared vocabulary.

Two predicates say what a store holds. It *locates* blocks (`Located`) when the
keys found by height (metadata, logs, both indexes) are exactly theirs: every
run keeps this, whatever hashes recur. It *represents* blocks (`Represents`)
when all keys but traces are exactly theirs: runs keep this as long as no two
blocks share a hash.

Hashing (`keccak`), blooms, transaction roots and payload encodings are function
parameters. Where a result needs something of them it says so: protobuf only has
to decode what it encodes, and distinctness of synthetic transactions is stated
on the preimages.

## Where the code does not do what one would expect

Each of these is a lemma or contract below, with its exact condition.

- The live view exists and is the stored one if and only if every transaction
  with an Ethereum message carries the extension option; otherwise, where the
  live view exists, it has exactly one more transaction per such message
  (`Agreement.ViewsAgreeIffMarked`, with a block in
  `Samples.UnmarkedBlockDiffers`), and the virtual logs those messages own are
  the ones the index lacks (`Partition.BlockConserved`).
- The backend shows blocks the indexer rejects: its view of any block is what would
  be stored for the block with every transaction marked, undecodable transactions
  emptied, missing outcomes taken from the message itself and undecodable logs left
  out (`Tolerance.TolerantView`).
- A transaction hash may recur at another height, since a message rejected
  before execution is stored under its own hash and may be included again. What
  is filed under it is what the last height that touched it left
  (`SharedHashes.RunExact`, `SharedHashes.FiledAfterRun`). A receipt, RPC form or
  record stays filed if and only if no other height touches it
  (`SharedHashes.FormsKeptExactly`). The block that had it can be read back in full if
  and only if no other height has since stored, replaced or removed a block with
  one of its hashes (`SharedHashes.RunReadsBack`); deleting the later height
  drops the earlier one's transactions with it (`SharedHashes.DeletingStrands`,
  with a run in `Samples.HashRecurs`).
- Indexing the same block twice is the same as indexing it once if and only if
  every cached trace and virtual marker under the hash of one of its Ethereum
  transactions is under that of a transaction already recorded at that height
  (`IndexRuns.IndexTwice`, `IndexRuns.EarlyTraceIsDroppedLate`).
- The last receipt of a block reaches the block's stored gas if and only if there
  are end-of-block events, or the last transaction that shows anything accounts
  for all its gas and none after it used any, or no transaction shows anything or
  used any gas (`BlockGas.LastReceiptReaches`, with a block in
  `Samples.LastReceiptFallsShort`).
- Without virtualization stored logs keep the normaliser's numbers, which also
  count the logs of transactions that are not indexed: they are 0..n-1 if and
  only if no transaction without the extension option that has logs comes before
  one with the option that has logs (`NativeNumbering.StoredNumbersExact`).
- The height window is empty for height -1. For every other signed height it
  holds that height's keys and, besides, the next height's prefix without its
  trailing zero bytes, which no key of the index is (`ByteOrder.HeightWindowExact`,
  with a key in `Samples.ShortKeyInWindow`).
- While the chain head is below the earliest height wanted, no height is queued. A
  block indexed above the head the node reports is synced again by the tip queue,
  and no other indexed block is (`SyncPlan.PlanSync`).
- Reading the stream at an offset beyond the last item but inside the room of the
  last segment slices out of range; every other offset is safe, and a subscriber
  never has such an offset (`Stream.PanicsExactly`, `Stream.SubscriberSafe`, with
  an offset in `Samples.FutureReadPanics`). A pruned reader resumes inside the
  oldest segment, not at its start (`Stream.ReadContinues`).
- Filtering before decoding misses a record without an address when the filter
  names the zero address; encoded logs always have an address, so only nil
  entries are affected (`LogFilter.StoredLogsFilterExactly`, with one in
  `Samples.NilLogOverlooked`).
- A query by block hash answers with an empty list, not an error, when the bloom
  cannot be read (`LogQuery.BlockLogs`, `Samples.UnreadableBloomLosesMatch`).
- The cached-block reader rejects a transaction whose hash is all zero, which the
  index stores (`CacheReader.CachedBlockTransactions`, `Samples.ZeroHashStored`).

## Model

| member | source | states |
|---|---|---|
| Agreement.CachedViewIsLiveView | internal/evm/rpc/backend/virtual.go:106-340 | For every block the indexer accepts whose Ethereum transactions are marked, the live view exists and has the same transactions, receipts, cumulative gas and numbered log groups as were stored |
| Agreement.ViewsAgreeIffMarked | internal/indexer/kv_indexer.go:135-566 | For every accepted block the live view exists and is the stored one if and only if the block is marked, and where it exists it is longer by exactly the Ethereum messages of unmarked transactions |
| Samples.UnmarkedBlockDiffers | internal/indexer/kv_indexer.go:273-302 | An unmarked block that both sides accept, on which the live view has one transaction more |
| Tolerance.TolerantView | internal/evm/rpc/backend/virtual.go:106-340 | The live view of any block is exactly what would be stored for the block with its gaps filled in: transactions marked, undecodable ones emptied, missing outcomes taken from the message, undecodable logs left out; one exists if and only if the other does |
| Tolerance.ViewedExactly | internal/evm/rpc/backend/virtual.go:106-340 | A block has a live view if and only if results and block events were read, every transaction has a result, and those that decode have showable virtual events and Ethereum messages that unpack, have a sender and build |
| Acceptance.AcceptedExactly | internal/indexer/kv_indexer.go:174-509 | A block is accepted if and only if results and block events were read and every transaction has a result, decodes, has showable virtual events and, if marked, an outcome fitting each Ethereum message: in range, its own number or none, decodable logs or a failure without data |
| Acceptance.BuiltExactly | internal/evm/rpc/virtual/response.go:119-152 | Synthetic transactions can be built if and only if every hook with logs that no Ethereum message takes names a message of the transaction |
| BlockLayout.BlockLaidOut | internal/indexer/kv_indexer.go:214-509 | A stored block is one item for begin events if there are any, then for each transaction in order the items of its messages and those of its virtual events in its own setting (hash, messages, gas before it), then one item for end events if there are any |
| BlockContent.MessagesShown | internal/indexer/kv_indexer.go:304-463 | In either mode the recorded items of a stored block are exactly the Ethereum messages of its marked transactions, in order, each with its own hash, outcome, sender, target, input, logs and cumulative gas |
| BlockContent.PhasesShown | internal/indexer/kv_indexer.go:214-234 | With begin events the first item shows exactly those events in their order, under the hash of the phase and at gas 0; with end events the last item does so for them, at the block's gas |
| LiveBuilder.BuildLiveView | internal/evm/rpc/backend/virtual.go:106-340 | The backend's nested loops compute the live fold, error for error |
| BlockBuilder.Builder.IndexAll | internal/indexer/kv_indexer.go:135-566 | The indexer's loops compute the stored block, and the batch holds what it held before plus exactly that block's writes |
| Agreement.OutcomeIsClaim | internal/indexer/kv_indexer.go:332-361 | What the indexer reads off a result for an Ethereum message is what the live view claims on its own; it rejects exactly a missing parse and a contradicting Ethereum index, and where the parse is missing the live view falls back on the message itself |
| BlockModel.SplitBlockEvents | internal/evm/rpc/virtual/response.go:286-309 | The begin logs are those of the events at the positions marked as begin events, in increasing position, and the end logs those of all others |
| VirtualLogs.SetLogMetadata | internal/evm/rpc/virtual/types.go:252-266 | In place, every log gets its group's position, hash and consecutive index, virtual ones the Cosmos hash, and keeps everything else; a nil entry stays nil and uses up its index |
| Numbering.StoredBlockWellNumbered | internal/indexer/kv_indexer.go:180-566 | In either mode every accepted block is numbered without gap: positions, Ethereum indexes, one log group per visible transaction; bloom of all its logs, and as root the empty one, that of the visible hashes, or without virtualization the block's data hash |
| Numbering.BlockWideNumbering | internal/indexer/kv_indexer.go:184-566 | With virtualization the flattened log indexes are 0..n-1, each log names the position and hash of its transaction, and bloom and root cover exactly the visible logs and transactions |
| Numbering.RootCountNeverMismatches | internal/indexer/kv_indexer.go:512-530 | The root count mismatch error cannot occur |
| Numbering.SyntheticInSequence | internal/evm/rpc/virtual/response.go:119-197 | Synthetic transactions continue the transaction and log numbering they are given, whatever the events |
| Gas.LastCumulative | internal/evm/rpc/virtual/response.go:157-197 | The last synthetic receipt's cumulative gas in closed form, modulo 2^64 |
| Gas.GasAccountedExactly | internal/evm/rpc/virtual/response.go:157-197 | The last synthetic receipt ends at before + gasUsed, as 64-bit words, if and only if there are no hooks, or Ethereum and hook gas equal gasUsed as a word, or there is a bank envelope and they are less than gasUsed |
| Gas.SyntheticClimb | internal/evm/rpc/virtual/response.go:257-260 | When the gas fits, synthetic receipts climb from the Ethereum gas to the response's gas |
| Gas.CumulativeGasClimbs | internal/indexer/kv_indexer.go:363-509 | If it fits for every transaction, cumulative gas never decreases over the whole block and never exceeds the block's gas |
| BlockGas.StoredGas | internal/indexer/kv_indexer.go:299-545 | The gas stored for a block is the sum of its transactions' gas modulo 2^64 |
| BlockGas.LastReceiptReaches | internal/indexer/kv_indexer.go:363-509 | When the gas fits, the last receipt stands at the stored gas if and only if there are end events, or the last transaction that shows anything accounts for all its gas and none after it used any, or no transaction shows anything or used any gas |
| BlockGas.SettlesExactly | internal/indexer/kv_indexer.go:363-509 | The walk over the transactions that decides it, in closed form |
| Samples.LastReceiptFallsShort | internal/indexer/kv_indexer.go:363-509 | A block whose gas fits and whose last receipt is below the stored gas |
| Partition.OwnershipComplement | internal/evm/rpc/virtual/response.go:362-376 | The two ownership tests are exact complements over any message list |
| Partition.ExactlyOneOwner | internal/evm/rpc/virtual/response.go:362-376 | Every event is taken by exactly one Ethereum message or by the synthetic transactions, counted over all messages |
| Partition.EventsPartitioned | internal/evm/rpc/virtual/response.go:99-139 | The logs parsed are, as a multiset, those the Ethereum messages take and those of the events selected for synthetic transactions |
| Partition.ResponseConserved | internal/evm/rpc/virtual/response.go:99-197 | The logs Ethereum messages take and the logs of the synthetic transactions are, as a multiset, the logs parsed |
| Partition.BlockConserved | internal/indexer/kv_indexer.go:213-509 | Over a whole block stored virtual logs plus those of unmarked Ethereum messages are exactly the logs parsed, and nothing is missing from a marked block |
| Synthetic.ParseResponse | internal/evm/rpc/virtual/response.go:49-96 | The parsing loop, including which malformed events fail the response |
| Synthetic.LogsForMessage | internal/evm/rpc/virtual/response.go:99-115 | The logs of one message, in event order, numbered from its context |
| Synthetic.SortPermutes | internal/evm/rpc/virtual/response.go:153-155 | Sorting hooks only rearranges them |
| Synthetic.SortSorts | internal/evm/rpc/virtual/response.go:153-155 | Sorting hooks orders them by message index |
| Synthetic.SortStable | internal/evm/rpc/virtual/response.go:153-155 | Sorting hooks keeps the event order within one message |
| Synthetic.CountHooks | internal/evm/rpc/virtual/response.go:145-152 | Hooks per message; fails exactly when a hook has no index within the message list |
| Synthetic.RemainingGas | internal/evm/rpc/virtual/response.go:159-172 | Repeated saturating subtraction leaves max(0, gasUsed - Ethereum gas - sum of hook gas) |
| SyntheticContent.ParsedExactly | internal/evm/rpc/virtual/response.go:49-96 | Parsing fails exactly on an event that cannot be parsed, and otherwise keeps the entries of exactly the tracked events, in order, with code and non-negative gas |
| SyntheticContent.MessageLogsExact | internal/evm/rpc/virtual/response.go:99-115 | An Ethereum message shows the logs of exactly the events with its index, or without one if it is the only message, in event order, log by log as emitted and marked virtual |
| SyntheticContent.SyntheticTxsExact | internal/evm/rpc/virtual/response.go:119-274 | The synthetic transactions are the envelope of exactly the bank events outside Ethereum messages, in order, then one transaction per hook outside them in stable message order; every field, status, gas, running total, name and log of each is stated from its events |
| Synthetic.BuildSyntheticTx | internal/evm/rpc/virtual/response.go:199-274 | The transaction and receipt of one bank envelope or hook; what its fields hold is SyntheticContent.SyntheticTxsExact |
| Synthetic.SyntheticTxs | internal/evm/rpc/virtual/response.go:119-197 | The whole construction: bank envelope first, then hooks in message order, each numbered and charged after the one before |
| SyntheticIdentity.SyntheticTxNamed | internal/evm/rpc/virtual/response.go:174-195 | Every synthetic transaction is named by the hash of its preimage, in its record and its receipt |
| SyntheticIdentity.SyntheticPreimagesDistinct | internal/evm/rpc/virtual/types.go:272-292 | The preimages within one Cosmos transaction are pairwise distinct for any number of messages and nested hooks |
| SyntheticIdentity.BlockPreimagesDistinct | internal/evm/rpc/virtual/types.go:272-303 | No preimage clashes with one of another Cosmos transaction or of the begin and end transactions |
| ByteOrder.PrefixRangeEnd | internal/indexer/trace_cache.go:47-57 | The loop computes the end of the prefix range, and a key is in the range if and only if it starts with the prefix |
| ByteOrder.HeightWindowExact | internal/indexer/kv_indexer.go:897-911 | For every key and every signed height but -1 the window from a height to the next holds exactly that height's keys and the next prefix cut short of its trailing zeros; for -1 it is empty |
| Samples.ShortKeyInWindow | internal/indexer/kv_indexer.go:897-911 | A key between the prefixes of heights 255 and 256 that does not start with the former |
| ByteOrder.WordOfBytes | internal/evm/rpc/backend/storage_range.go:77-91 | As a 32-byte word a short byte string keeps its value and a long one its last 32 bytes |
| ByteOrder.WordOrder | internal/indexer/cache_collections.go:217-221 | Byte order on encoded words is numeric order |
| KeyScan.Scan | internal/indexer/cache_collections.go:307-327 | Range iteration lists exactly the keys of the range, in byte order |
| KeyOwnership.OwnKeysDisjoint | internal/indexer/cache_collections.go:213-243 | Blocks at different heights with different hashes share no key over all key families |
| KeyOwnership.BlockOpsCoherent | internal/indexer/kv_indexer.go:737-746 | A block's writes never contradict each other |
| IndexRefinement.DeleteRefines | internal/indexer/kv_indexer.go:807-895 | Deleting a height removes exactly that block from the keys found by height, whatever hashes recur; where none do, it removes that block and nothing else from the store |
| IndexRefinement.WriteRefines | internal/indexer/kv_indexer.go:464-566 | Writing a well-numbered block over a store without its height adds exactly that block to the keys found by height; if its hashes are new it adds exactly that block |
| IndexRefinement.ReindexRefines | internal/indexer/kv_indexer.go:158-162 | Indexing replaces the block at its height, in both senses |
| IndexRuns.RunRefines | internal/indexer/kv_indexer.go:552-589 | After any sequence of indexing, syncing, deleting and trace caching the keys found by height are exactly those of the blocks left and no stored value names another height; if no hash recurs, all non-trace keys are exactly the encoding of those blocks |
| IndexRuns.AcceptedIsFresh | internal/indexer/kv_indexer.go:135-566 | Every accepted block is numbered as the refinement asks, and is fresh if and only if its hashes are new |
| IndexRuns.RepresentsAttributed | internal/indexer/kv_indexer.go:464-566 | A store that represents blocks sharing no hash meets what absence asks: no value names another height and every marker has its transaction |
| IndexRuns.AbsentHeight | internal/indexer/kv_indexer.go:807-895 | After any run, a height without a block has left no metadata, logs or index entries, no stored record, receipt, transaction or block hash names it, and every virtual marker belongs to a transaction of another height |
| IndexRuns.FailedSyncLeavesNothing | internal/indexer/service.go:366-378 | After any run that ends in a failed sync attempt the height is wholly absent in that sense, and so are its traces and the traces of the Ethereum transactions recorded at it |
| IndexRuns.DeletedExact | internal/indexer/kv_indexer.go:807-895 | Whatever hashes recur, exactly which present keys a reset deletes, trace keys included |
| IndexRuns.TraceDoomedExact | internal/indexer/trace_cache.go:151-181 | A reset drops the traces of its height and of the Ethereum transactions recorded there, and no other trace |
| IndexRuns.ReindexExact | internal/indexer/kv_indexer.go:135-566 | Whatever hashes recur, key by key what indexing a block leaves behind |
| IndexRuns.DeleteTwice | internal/indexer/kv_indexer.go:569-589 | Deleting twice is deleting once |
| IndexRuns.ReindexIsDeleteThenIndex | internal/indexer/kv_indexer.go:158-162 | Indexing over any reachable store equals deleting the height first |
| IndexRuns.IndexTwice | internal/indexer/kv_indexer.go:807-895 | Indexing twice equals once if and only if every cached trace and virtual marker under the hash of one of the block's Ethereum transactions is under that of a transaction already recorded at that height |
| IndexRuns.EarlyTraceIsDroppedLate | internal/indexer/trace_cache.go:69-85 | A trace cached before its block, under any configuration digest, survives the first indexing and not the second |
| IndexRuns.LaterTraceIsDroppedAtOnce | internal/indexer/trace_cache.go:151-181 | A trace of a transaction recorded at the height is dropped by the next indexing, whatever the new block |
| FiledForms.TransactionStored | internal/indexer/kv_indexer.go:366-462 | On a store representing blocks that share no hash, under the literal key bytes of every present transaction: its receipt, its RPC form, its record if it is an Ethereum transaction and a marker if and only if it is not, and its hash under its positions |
| FiledForms.BlockStored | internal/indexer/kv_indexer.go:552-560 | Under the literal key bytes of every present block: its metadata, its log groups, and its height under its hash |
| FiledForms.FormsFiled | internal/indexer/cache_collections.go:264-369 | In every family, what lies under a hash is the form of the present transaction with that hash, and nothing if there is none |
| SharedHashes.FiledAfterRun | internal/indexer/kv_indexer.go:135-589 | After any run, what lies under a hash in any family is what lay there before if no action touched it, and otherwise the form filed by the last action that did, or nothing if that action stored none |
| SharedHashes.FormsKeptExactly | internal/indexer/kv_indexer.go:366-462 | After further work on other heights a transaction's receipt, RPC form and record are still filed if and only if no other height has since stored, replaced or removed a block that has its hash (for the record, as an Ethereum transaction) |
| SharedHashes.RunExact | internal/indexer/kv_indexer.go:135-589 | After any run, whatever hashes recur, every key holds what the last action that touched it left there |
| Indexer.KVIndexer.ResetBlock | internal/indexer/kv_indexer.go:807-895 | The reset loops queue deletions of exactly the reset keys, and fail exactly on unreadable metadata |
| Indexer.KVIndexer.DeleteTraceKeys | internal/indexer/trace_cache.go:151-181 | The trace loops queue exactly the traces of the given transactions and of the height |
| Indexer.KVIndexer.IndexBlock | internal/indexer/kv_indexer.go:135-566 | The store becomes the re-indexed store, or the call fails and nothing changes |
| Indexer.KVIndexer.DeleteBlock | internal/indexer/kv_indexer.go:569-589 | The store without the height, or unchanged on unreadable metadata |
| Indexer.KVIndexer.HandleSyncedBlock | internal/indexer/service.go:355-390 | A skipped height changes nothing; otherwise index and clean up after failure is one abstract sync step, an error is reported unless gaps are allowed, and only a stored block is published |
| Indexer.KVIndexer.GetBlockMetaByHash | internal/indexer/cache_collections.go:395-415 | On a store representing blocks, finds a block by hash if and only if it is there, with its own metadata |
| Indexer.KVIndexer.GetReceiptByTxHash | internal/indexer/cache_collections.go:329-350 | On a store representing blocks that share no hash, the receipt of the present transaction with the hash, and none without one |
| Indexer.KVIndexer.GetRPCTransactionByHash | internal/indexer/cache_collections.go:264-286 | Likewise its RPC form |
| Indexer.KVIndexer.GetRPCTransactionByBlockAndIndex | internal/indexer/cache_collections.go:288-305 | Likewise the transaction at a position of a block, for any 32-bit position |
| Indexer.KVIndexer.IsVirtualRPCTransaction | internal/indexer/cache_collections.go:355-369 | Likewise true exactly for present transactions without a record |
| Indexer.KVIndexer.GetByTxHash | internal/indexer/kv_indexer.go:618-640 | Likewise its record, and none for a virtual transaction |
| Indexer.KVIndexer.IsBlockIndexed | internal/indexer/cache_collections.go:509-523 | On a store locating blocks, true exactly for their heights |
| Indexer.KVIndexer.TransactionHashes | internal/indexer/cache_collections.go:307-327 | On a store locating blocks, a height's transaction hashes in increasing transaction index, and none for an absent height |
| IndexOrder.HashesInOrder | internal/indexer/cache_collections.go:307-327 | Any ascending listing of a present height's index keys gives its transaction hashes in increasing transaction index |
| CacheReader.CachedBlockTransactions | internal/evm/rpc/backend/blocks.go:925-991 | On a store locating the block the count agrees and the answer is that of the checks on its transactions in order; on a store representing blocks every check passes and the transactions are returned in order, unless one has the zero hash |
| CacheReader.CachedReadSucceeds | internal/evm/rpc/backend/blocks.go:925-991 | The checks, failure for failure, on any ascending listing of a present block |
| CacheReader.ReadListed | internal/evm/rpc/backend/blocks.go:925-991 | The reader's loop makes the checks in order and stops at the first failure |
| SharedHashes.ReadBackExactly | internal/evm/rpc/backend/blocks.go:925-991 | A stored block can be read back in full after any further work on other heights if and only if it has no zero hash, no two equal hashes, and no other height has since stored, replaced or removed a block with one of its hashes |
| SharedHashes.RunReadsBack | internal/evm/rpc/backend/blocks.go:925-991 | The same for every block present after any run from an empty index, in terms of the actions after the one that stored it |
| SharedHashes.LaterTakesOver | internal/indexer/kv_indexer.go:332-342 | Storing a block with a known hash makes the reader of the height that had it fail on the block hash, or on the number if the block hashes are equal |
| SharedHashes.DeletingStrands | internal/indexer/kv_indexer.go:807-895 | Deleting a height drops receipt, RPC form, marker and record under every hash it shares with another height, which keeps its index entries and is then read as missing a transaction |
| Samples.HashRecurs | internal/indexer/kv_indexer.go:332-342 | A run in which one hash is indexed at heights 1 and 2 and block 1 can no longer be read back |
| Samples.ZeroHashStored | internal/indexer/kv_indexer.go:339-361 | A run that stores a transaction with the zero hash |
| Ranges.ComputeGaps | internal/indexer/ranges.go:102-147 | For ranges that do not end before they start, exactly the heights of the interval that no range covers, as sorted, disjoint, maximal pieces |
| Ranges.NormalizeRanges | internal/indexer/ranges.go:150-180 | For ranges that do not end before they start, the same heights as sorted, disjoint, maximal pieces |
| Ranges.TotalIsUnionSize | internal/indexer/ranges.go:183-189 | Counting normalised ranges gives the size of the union |
| Ranges.CountBlocks | internal/indexer/ranges.go:183-189 | The loop sums the range lengths |
| SyncPlan.LoadIndexedRanges | internal/indexer/ranges.go:20-99 | On a store locating blocks, exactly their heights, as maximal pieces |
| SyncPlan.PlanSync | internal/indexer/service.go:135-197 | Idle exactly when the head is below the earliest height; otherwise, on a store locating blocks, the gap queue holds exactly the heights from earliest to head without a block and the tip queue starts after the head. From earliest on a height is indexed or queued exactly when the head has reached earliest or it is indexed anyway; the queues do not meet; an indexed height is queued again exactly when it lies above the head |
| GapSync.SyncGap | internal/indexer/service.go:216-245 | One gap is filled in ascending order with the blocks the node serves, up to and excluding the first that cannot be indexed unless gaps are allowed |
| GapSync.SyncGaps | internal/indexer/service.go:216-245 | All gaps are synced that way, an abandoned one not keeping the next from being synced, and nothing else changes |
| GapSync.InitialSync | internal/indexer/service.go:135-176 | Planning and syncing on the store: no height from earliest to head is missing afterwards if and only if every one missing before is served by a block that can be indexed |
| GapSync.NothingLeft | internal/indexer/service.go:143-153 | Planning again after that finds no gap |
| BlockGetter.StepInv | internal/blocksync/syncer.go:235-354 | Every step of a worker, the announcer or the consumer keeps order, tracking, the map bound, gap-freedom and the absence of lost wake-ups |
| BlockGetter.OrderedDelivery | internal/blocksync/syncer.go:77-147 | In every interleaving heights arrive as start, start+1, ..., the mismatch error never occurs, and the handler has seen exactly the blocks received at the positions that were not skipped, in order |
| BlockGetter.ExactlyOnePlace | internal/blocksync/syncer.go:235-354 | In every reachable state each height handed out is in exactly one place and no other height is anywhere |
| BlockGetter.BackPressure | internal/blocksync/syncer.go:333-350 | The map holds at most 1024 blocks per job plus one per throttled worker, and the channel at most 100 per job |
| BlockGetter.ThrottledButReady | internal/blocksync/syncer.go:247-262 | With every worker throttled above the limit, the announcer's next height is in the map and it can take it |
| BlockGetter.NeverStuck | internal/blocksync/syncer.go:235-354 | While the consumer wants more, some step is enabled that changes the state |
| BlockGetter.AlwaysMoreToCome | internal/blocksync/syncer.go:235-354 | From every reachable state in which the consumer wants more, finitely many enabled steps deliver one more block |
| BlockGetter.ContinueRuns | internal/blocksync/syncer.go:235-354 | Such a continuation is part of a run |
| BlockGetter.RangeEnds | internal/blocksync/syncer.go:77-114 | A range sync never receives past its end |
| BlockGetter.Getter.TakeHeight | internal/blocksync/syncer.go:293-308 | Taking a height is the step of that name and the height is new |
| BlockGetter.Getter.Store | internal/blocksync/syncer.go:333-341 | Inserting a block under the lock is the step of that name; the map grows by one and the worker throttles exactly above 1024 blocks per job |
| BlockGetter.Getter.CheckAgain | internal/blocksync/syncer.go:343-348 | Re-checking is the step of that name, and keeps the worker throttled exactly above the limit |
| BlockGetter.Getter.LookUp | internal/blocksync/syncer.go:247-260 | The announcer takes exactly its height from the map or goes to sleep |
| BlockGetter.Getter.Send | internal/blocksync/syncer.go:262-267 | Emitting appends the held block and moves to the next height |
| BlockGetter.SyncRange | internal/blocksync/syncer.go:77-114 | The consumer loop ends well exactly when the stream reaches the end and no handler call fails, and then the handler has seen exactly the blocks at the positions not skipped, in order |
| GetterSync.GetterFillsGap | internal/blocksync/syncer.go:77-114 | In every interleaving of the fetcher over a gap, with the sync handler as its consumer, the store has the served blocks of the heights received so far, ends as the height-by-height walk does, and fails exactly when a block that cannot be indexed is reached and gaps are not allowed |
| BlockGetter.FetchWithRetry | internal/blocksync/syncer.go:445-480 | Success, an unavailable block when gaps are allowed, or the tenth reply not ahead of the head, whichever comes first, ends the retries with the result of that name, and nothing else does but cancellation |
| Queue.MaskIsRemainder | internal/evm/rpc/stream/queue.go:35-37 | Masking with n-1 is the remainder modulo n for every power of two |
| Queue.Queue.constructor | internal/evm/rpc/stream/queue.go:46-50 | An empty queue of the smallest capacity |
| Queue.Queue.Resize | internal/evm/rpc/stream/queue.go:59-72 | Both copying branches keep the contents; the capacity stays a power of two of at least 16 |
| Queue.Queue.Add | internal/evm/rpc/stream/queue.go:75-84 | Appends to the contents |
| Queue.Queue.Get | internal/evm/rpc/stream/queue.go:117-135 | The element at an index, from the end when negative, and exactly which indexes panic |
| Queue.Queue.SetTail | internal/evm/rpc/stream/queue.go:109-135 | Writing through the tail pointer replaces the last element only |
| Queue.Queue.Remove | internal/evm/rpc/stream/queue.go:139-152 | Takes the first element, shrinking keeps the rest |
| Stream.AddKeepsHistory | internal/evm/rpc/stream/stream.go:45-60 | Adding keeps the segments equal to the last segments of everything ever added |
| Stream.Retention | internal/evm/rpc/stream/stream.go:19-60 | Whole segments are held: all items up to one segment more than the capacity, beyond that more than the capacity and at most one segment above it, which fixes the oldest item for every total |
| Stream.ReadContinues | internal/evm/rpc/stream/stream.go:154-187 | A read returns history from where the reader continues: its offset, or the same place in the oldest segment if pruned, up to the end of that segment or of the history |
| Stream.PanicsExactly | internal/evm/rpc/stream/stream.go:154-187 | Exactly which offsets slice out of range |
| Samples.FutureReadPanics | internal/evm/rpc/stream/stream.go:154-187 | One item in a segment with room for four: reading at offset 2 slices out of range |
| Stream.SubscriberSafe | internal/evm/rpc/stream/stream.go:71-87 | Whatever is published between reads, a subscriber, from offset -1 on, never panics, never moves back and never gets an item twice or out of order |
| Stream.NothingMissed | internal/evm/rpc/stream/stream.go:71-142 | A subscriber that stays within the capacity gets every item exactly once in order |
| Stream.NewSubscriber | internal/evm/rpc/stream/stream.go:71-87 | A new subscriber starts at the end and, within the capacity, gets everything published after that |
| EventStream.EventStream.Add | internal/evm/rpc/stream/stream.go:37-66 | History grows by the items and the last id is the total added |
| EventStream.EventStream.LastId | internal/evm/rpc/stream/stream.go:145-151 | The last id is the number of items ever added |
| EventStream.EventStream.DoRead | internal/evm/rpc/stream/stream.go:154-187 | The segment arithmetic computes the read specified on history |
| EventStream.EventStream.ReadAllNonBlocking | internal/evm/rpc/stream/stream.go:99-116 | Everything from where the reader continues to the end, and exactly when it panics |
| LogNumbering.CountersAreExact | internal/evm/rpc/types/tx_response_normalize.go:39-114 | Two running counters give every log the position counted directly |
| LogNumbering.PositionsAreExact | internal/evm/rpc/types/tx_response_normalize.go:39-114 | The running counters give every log as its log index the number of logs before it, and as its transaction index the slots of earlier results plus the Ethereum messages before its own |
| Normalize.UndecodedAdvances | internal/evm/rpc/types/tx_response_normalize.go:44-63 | A failed or empty result moves the transaction counter by exactly the greater of its Ethereum events and the number inferred for it |
| Normalize.LogsRenumbered | internal/evm/rpc/types/tx_response_normalize.go:24-126 | Log indexes become 0, 1, 2, ...; transaction indexes are the slots earlier results take, each the greater of announced and decoded messages, plus the Ethereum messages before it; every other field of every result, payload and response is kept |
| Normalize.RewriteTwice | internal/evm/rpc/types/tx_response_normalize.go:24-126 | Normalising twice is normalising once, byte for byte |
| Normalize.SucceedsExactly | internal/evm/rpc/types/tx_response_normalize.go:65-85 | It fails exactly when a successful result or one of its Ethereum responses does not decode |
| Normalizer.RenumberLogs | internal/evm/rpc/types/tx_response_normalize.go:87-97 | The inner loop renumbers and is dirty exactly when something changed |
| Normalizer.NormalizeTxResponseIndexes | internal/evm/rpc/types/tx_response_normalize.go:24-126 | The loops compute the rewrite on a fresh copy and leave the input alone |
| Normalizer.CountEthereumEvents | internal/evm/rpc/types/tx_response_normalize.go:128-136 | Counts the Ethereum transaction events |
| NativeNumbering.BlockStored | internal/indexer/kv_indexer.go:375-385 | Without virtualization the stored logs carry the numbers decoded for the messages of marked transactions, in order |
| NativeNumbering.StoredNumbersExact | internal/evm/rpc/types/tx_response_normalize.go:24-126 | Without virtualization and with logs decoded from the normaliser's output, the stored logs are numbered 0, 1, 2, ... if and only if no unmarked transaction with logs comes before a marked one with logs |
| LogFilter.LogRoundTrip | internal/indexer/kv_codec.go:781-898 | Decoding a stored log gives the log |
| LogFilter.FusedIsBruteForce | internal/indexer/kv_codec.go:211-272 | Filtering while decoding returns what decoding, flattening and filtering would, short of exactly the records without an address that a zero-address filter would match |
| LogFilter.FusedIffNoneOverlooked | internal/indexer/kv_codec.go:900-955 | On any stored records filtering before decoding equals filtering after it if and only if no record lacks an address that the zero address of the filter would stand for |
| LogFilter.StoredLogsFilterExactly | internal/indexer/kv_codec.go:211-272 | For stored logs the two are equal if and only if no nil entry meets a filter with the zero address and no topics |
| Samples.NilLogOverlooked | internal/indexer/kv_codec.go:211-272 | A nil log and a zero-address filter on which the two filters differ |
| LogFilter.MatchingIs | internal/evm/rpc/virtual/types.go:117-153 | The matches are the logs at exactly the positions whose address is asked for and whose topics meet every position of the filter, in increasing position |
| LogFilter.MatchLog | internal/evm/rpc/virtual/types.go:117-153 | The loops decide the address and topic rule |
| LogFilter.MatchRecord | internal/indexer/kv_codec.go:900-955 | The loops decide the same rule on an encoded record |
| LogFilter.FilteredBlockLogs | internal/indexer/kv_codec.go:211-272 | All matches of a stored block, in order |
| LogQuery.BloomFilter | internal/evm/rpc/namespaces/ethereum/eth/filters/utils.go:43-70 | The loops accept exactly if some address, if any is given, and for every position one of its topics, if any is given, have all their bits in the bloom |
| LogQuery.BloomExact | internal/indexer/kv_indexer.go:512 | A bit of a block's bloom is a bit of the address or of a topic of one of its logs |
| LogQuery.SkippingIsSound | internal/evm/rpc/namespaces/ethereum/eth/filters/utils.go:43-70 | A block whose bloom covers its logs and is not admitted holds no match |
| LogQuery.ScanRange | internal/evm/rpc/namespaces/ethereum/eth/filters/filters.go:167-192 | The height loop returns all matches in block order or an error, and succeeds exactly when every height can be answered within the limit |
| LogQuery.RangeLogs | internal/evm/rpc/namespaces/ethereum/eth/filters/filters.go:131-192 | Negative bounds become the head and zero becomes 1, the width is checked, the end is cut to 600 above the head, then exactly the matches of that range or an error |
| LogQuery.BlockLogs | internal/evm/rpc/namespaces/ethereum/eth/filters/filters.go:109-129 | One block by hash: exact if and only if its bloom can be read or it has no match |
| Samples.UnreadableBloomLosesMatch | internal/evm/rpc/namespaces/ethereum/eth/filters/filters.go:109-129 | A block with one match and an unreadable bloom, for which the query returns an empty list without an error |
| CachedQuery.StoredBlockFilter | internal/indexer/kv_codec.go:144-272 | Filtering a stored block while decoding it gives exactly the matching logs that were stored, in order |
| CachedQuery.RunKeepsBlooms | internal/indexer/kv_indexer.go:512-548 | After any run the stored blooms are made of all the logs of their blocks |
| CachedQuery.CacheAnswers | internal/evm/rpc/backend/filters.go:191-308 | Height by height, bloom and logs come from the store exactly if the block is there and was indexed in the mode asked for, otherwise from live data, except that offline a block indexed in the other mode is an error |
| CachedQuery.IndexIsHonest | internal/evm/rpc/backend/filters.go:191-308 | Over any store locating blocks the cache answers for a height exactly when its block was indexed in the mode asked for, with a covering bloom and the matching logs, and live data answers for the others |
| CachedQuery.CachedRangeLogs | internal/evm/rpc/namespaces/ethereum/eth/filters/filters.go:131-192 | A range query over the index, with live data behind it, returns exactly the chain's matching logs in block order if every height of the range is cached in the mode asked for or answered live and they fit the limit, and an error otherwise |
| StoragePaging.FilterInPlace | internal/evm/rpc/backend/storage_range.go:93-102 | Filtering through the aliased slice overwrites no unread item and keeps exactly the slots at or above the start |
| StoragePaging.StorageRangeAt | internal/evm/rpc/backend/storage_range.go:67-120 | For pairs with distinct slots, a page holds, with their values as 32-byte words, exactly the slots stored from the start key up to the next key, and is full unless it is the last |
| StoragePaging.FollowPages | internal/evm/rpc/backend/storage_range.go:77-118 | Following the next key ends, and visits every stored slot at or above the start exactly once, with its value, in ascending order |

## Left out

- RPC, gRPC, websocket and HTTP plumbing, configuration, telemetry and timing.
- Reads and writes of the database are taken to succeed; a batch is applied as a whole.
- Keccak, blooms, merkle roots, ABI packing, address parsing, signature recovery, protobuf and Cap'n Proto bytes are parameters or records with presence bits; a corrupt Cap'n Proto payload is not modelled.
- Parsing of transaction results and of failure texts (internal/evm/rpc/types/parsed_tx.go, the regular expressions of the normaliser): their results are inputs.
- Receipt and transaction fields that the two views fill differently by design: reason, VM error, chain id, base fee and effective gas price.
- Panics recovered inside indexing, and nil entries where a block or its header would be missing.
- 32-bit transaction counters of the index: blocks are assumed to have fewer than 2^31 visible transactions.
- 64-bit overflow of heights in gap computation, block counting and the query bounds, and of log and transaction counters while a block is built; gas and the counters of the normaliser wrap as in the source.
- What gap computation and range merging make of ranges that end before they start.
- The backward direction of the block getter, shutdown, cancellation other than of a retry, and fairness: steps are shown enabled, not eventually taken. The wake-up of a waiting stream reader is one more read at any time.
- How the service resolves its earliest height; the endless tip sync; publication itself.
- Legacy JSON and protobuf payloads, and the contents of cached traces.
- The LRU cache of materialised blocks, sync-status counters and resync statistics.
- FilterLogs over an already fetched list (internal/evm/rpc/namespaces/ethereum/eth/filters/utils.go): the same match test behind two height comparisons.
- Reuse of a dropped segment's memory by the stream: readers get copies, so it is not observable.
- Which of several equal elements a library sort puts first; any sorted rearrangement is allowed, except for hooks, whose sort is stable.
- CachedQuery.CachedRangeLogs: what live block data gives for a height is a parameter, taken to be that of the chain; the whole-block log cache in front of it is left out.
- NativeNumbering.StoredNumbersExact: takes each message's logs to be decoded from its own response in the normalised payload; the payload of a failed result is not renumbered, and is taken to hold no logs.
- Indexer.KVIndexer.GetBlockMetaByHash: stated for blocks that share no hash; two heights with one block hash are not followed further.
- StoragePaging.FollowPages: asks for distinct slots and a positive page size; with two pairs for one slot a page could end between them.
