# ebakus block-explorer backend — a Dafny model

This project models the logic at the heart of the ebakus block-explorer
backend. The backend pulls blocks from an ebakus node, stores them in
Postgres and serves them over HTTP. The model proves properties of that
logic. It covers seven parts:

- **Delegate block-density engine** (`api/delegates.go`, module
  `Delegates`):
  - the DPoS round-robin schedule `getSignerAtSlot`;
  - the `getDelegatesStats` walk back from the latest block, one second at
    a time. Each counted second charges its scheduled producer a block, and
    a miss when no stored block has that timestamp or another producer made
    it. The counters are snapshotted at each look-back window, and the
    result is ordered by the rotation.
- **Sync pipeline** (`cmd/crawler/main.go`, module `Crawler`; `main.go`,
  module `LegacySync`; `ipc/ipc.go`, module `Ipc`):
  - the 400-block and 20-transaction batchers;
  - the delete-and-forward stage used when the chain is rewound;
  - the producer-reward aggregator that flushes at 50 records;
  - the rich-list account scan with its block and account caps;
  - the node client's range reads and the strided streaming workers with
    their shared "last one closes the channel" counter;
  - the older one-shot sync with its worker launch and per-transaction
    inserts. Its block batcher (main.go:65-91) is the crawler's code with a
    literal 400, so `Crawler.StreamInsertBlocks` models both.
- **Storage codecs** (`db/db.go`, module `Db`):
  - delegates stored as concatenated 20-byte addresses;
  - values stored in units of 10^-4 coin;
  - the block row;
  - the hash check of `GetBlockByHash`;
  - the error semantics of the batch inserts.
- **JSON rendering** (`models/models.go`, module `Models`):
  - the `0x`-prefixed hex of transaction input and its decoder;
  - the field set of the block, transaction and full-transaction JSON.
- **Request rules** (`api/handlers.go`, module `Handlers`):
  - hash-or-number classification of the block parameter;
  - the range clamp;
  - paging defaults and sort order;
  - the cache keys and expiry times;
  - the status codes of the stats endpoint;
  - the total-supply formula.

Shared definitions live in module `Common`: byte strings, 64-bit wrap-around
arithmetic, map sums, "last assignment wins" maps and fixed-size batching.

External effects become parameters:
- **the node** is a function from height to an optional block;
- **the database** is a map, or the outcome of a query;
- **each failing call** is a predicate over the call's index (`fails`,
  `rowFails`);
- **channels** are the sequences a stage receives and sends.

Goroutines run one after another.

## Model

| member | source | states |
|---|---|---|
| Delegates.SignerAtSlot | api/delegates.go:35-48 | zero address when the delegate count or turn length is 0, or when the seat `(slot / turn) % count` is past the list; otherwise a member of the delegate list |
| Delegates.DefaultRotation | api/delegates.go:24-29 | with period 1, turn 6 and 2 delegates the seat is `delegates[(t / 6) % 2]`, it is the same for the 6 seconds of a turn, and it passes to the other delegate in the next turn |
| Delegates.StripHexPrefix | api/delegates.go:52-53 | the lookup text with at most a leading `0x` removed, a suffix of the input |
| Delegates.StripEncoded | api/delegates.go:52-53 | the hex of an address, with or without `0x`, strips to the hex itself |
| Delegates.LookupRoundTrip | api/delegates.go:52-53 | a lookup written as the 40 hex digits of an address, with or without `0x`, parses back to that address |
| Delegates.LookupLength | api/delegates.go:52 | text of any length other than 40 or 42 is not a hex address, so no lookup filter applies |
| Delegates.TickAt | api/delegates.go:131-141 | the second `i` back is scheduled to the zero address or a delegate, and it is counted exactly when there is no lookup or the lookup is its scheduled producer |
| Delegates.Ticks | api/delegates.go:131-136 | one tick per second of the longest window, in walk order |
| Delegates.Density | api/delegates.go:182 | `1 - missed/total` lies in [0, 1] and is 1 exactly when nothing was missed |
| Delegates.DensityBounds | api/delegates.go:182 | the missed fraction lies in [0, 1] and is 0 exactly when nothing was missed |
| Delegates.CounterSums | api/delegates.go:143-171 | after n seconds the counters' totals sum to the counted seconds and their misses to the missed seconds |
| Delegates.AllCounted | api/delegates.go:141 | without a lookup filter every one of the n seconds is counted |
| Delegates.CountersCharged | api/delegates.go:143-152 | a counter exists only for an address that some counted second was scheduled to |
| Delegates.MissedAtMostTicks | api/delegates.go:155-167 | missed seconds ≤ counted seconds ≤ seconds walked |
| Delegates.PendingWindows | api/delegates.go:174-177 | after n seconds the remaining windows are a suffix of the sorted windows: those passed are ≤ n and the next one is > n |
| Delegates.PendingUntilLongest | api/delegates.go:128-177 | windows remain before the longest is reached, only the longest remains one second before it, and none remain after it |
| Delegates.RecordsInvariant | api/delegates.go:173-193 | after every second each delegate's bucket list is non-empty, its windows strictly increase, totals and misses never decrease from bucket to bucket, every bucket has total ≥ 1 and missed ≤ total, and its window is one of the windows already passed |
| Delegates.SnapshotFacts | api/delegates.go:180-192 | a snapshot gives every running counter a newest bucket that holds its total and misses at the current window |
| Delegates.FinalRecords | api/delegates.go:131-194 | at the end no window remains, the delegates reported are those with counters, and each one's last bucket holds its final counts at the longest window |
| Delegates.FinalTotalsSum | api/delegates.go:131-208 | the last buckets' misses sum to the missed seconds and their totals to the counted seconds; without a filter the totals sum to the longest window |
| Delegates.FinalSums | api/delegates.go:180-192 | last buckets that copy the counters have the counters' sums |
| Delegates.Reported | api/delegates.go:196-202 | the delegates in rotation order that have records |
| Delegates.ReportedComplete | api/delegates.go:196-202 | no delegate with a record is left out, and when all have records the order is the rotation itself |
| Delegates.OrderedLists | api/delegates.go:196-202 | every list reported is a valid bucket list, and with a lookup filter it is about the looked-up address only |
| Delegates.StakeFromVotes | api/delegates.go:102-106 | the stake reported is the last vote for the address, or 0 when it has none |
| Delegates.BlockAtSecond | api/delegates.go:115-119 | the block found for a second is the last stored block with that timestamp, and none is found when no stored block has it |
| Delegates.StatsErrors | api/delegates.go:69-113 | "not found in delegates" exactly when a valid lookup address is missing from the latest block's delegates; a node error exactly when the votes cannot be read after that check; a report exactly when the latest block, the votes and the stored blocks are all read and the lookup passes |
| Delegates.StatsReportFacts | api/delegates.go:50-215 | a successful report examines the longest window, misses no more seconds than that, carries the address exactly when it is a valid lookup, and lists only valid bucket lists, each about the lookup when there is one |
| Delegates.StatsUnfilteredSums | api/delegates.go:131-208 | without a filter the final totals sum to the longest window and the final misses to the missed seconds |
| Delegates.ContainsAddress | api/delegates.go:82-94 | the loop finds the address exactly when it is among the delegates |
| Delegates.BuildStakeMap | api/delegates.go:102-106 | the stake map is the votes with the last vote per address winning |
| Delegates.BuildTimestampIndex | api/delegates.go:115-119 | the index is the stored blocks with the last block per timestamp winning |
| Delegates.ExamineSecond | api/delegates.go:132-163 | the tick computed in place is `TickAt` |
| Delegates.CountSecond | api/delegates.go:143-171 | the counters and the missed total after one counted second |
| Delegates.SnapshotAll | api/delegates.go:180-192 | the map after one snapshot loop is `Snapshot` of the one before |
| Delegates.SnapshotIfDue | api/delegates.go:173-193 | a snapshot is taken exactly when the second reaches the next window, which is then dropped |
| Delegates.Advance | api/delegates.go:131-194 | one iteration of the walk keeps the engine state equal to its specification |
| Delegates.CountWindows | api/delegates.go:127-194 | the loop's buckets and missed total are those of the specification after the longest window |
| Delegates.OrderLists | api/delegates.go:196-202 | the response lists are `Ordered` |
| Delegates.DelegatesStats | api/delegates.go:50-215 | the whole computation, errors included, equals `Stats` |
| Crawler.FirstFailure | cmd/crawler/main.go:236-249 | the first failing call, or none exactly when no call fails |
| Crawler.FirstFailureIs | cmd/crawler/main.go:237-240 | a failing call with only successes before it is the first failure |
| Crawler.Push | cmd/crawler/main.go:234-243 | appending to the buffer keeps "closed batches plus buffer = batches of what was seen"; a buffer that fills is closed into a batch |
| Crawler.StreamInsertBlocks | cmd/crawler/main.go:224-254 | the writes are the 400-block batches of the input; on the first failing write the stage stops with count 0 after writing that batch; otherwise it counts every block |
| Crawler.FailedBatch | cmd/crawler/main.go:236-240 | a write that fails right after a batch closes is the first failure among all batches of the input |
| Crawler.StreamInsertTransactions | cmd/crawler/main.go:256-285 | the writes are the 20-transaction batches of the input, write errors are ignored, and every transaction is counted |
| Crawler.BatchedStages | cmd/crawler/main.go:224-254 | batches concatenate to the input, all but the last hold 400, and a stage stopping at batch k has written a prefix of the input |
| Common.BatchesShape | cmd/crawler/main.go:229-251 | every batch but the last is full, the last is not, and together they are the input in order |
| Crawler.Kept | cmd/crawler/main.go:290-298 | the indices of the successful deletes, increasing |
| Crawler.KeptComplete | cmd/crawler/main.go:290-298 | no successful delete is left out |
| Crawler.StreamDeleteBlockWithTransactions | cmd/crawler/main.go:287-311 | the blocks forwarded are those whose delete succeeded, the producers forwarded are theirs, and the transactions forwarded are their hashes stamped with their times |
| Crawler.DeleteOne | cmd/crawler/main.go:290-305 | one block is deleted and, when that succeeds, forwarded with its producer and stamped hashes |
| Crawler.SendStamped | cmd/crawler/main.go:303-305 | one `(hash, block time)` is sent per transaction hash of the block, in order |
| Crawler.Stamped | cmd/crawler/main.go:303-305 | one stamped hash per transaction hash, carrying the block's time |
| Crawler.DeletedAreKept | cmd/crawler/main.go:290-298 | the forwarded blocks are exactly the input blocks whose delete succeeded, in input order |
| Crawler.DeletedAll | cmd/crawler/main.go:287-311 | with no failing delete every block is forwarded |
| Crawler.TransactionsStamped | cmd/crawler/main.go:300-304 | every forwarded transaction carries a hash of a forwarded block and that block's time |
| Crawler.CreditFacts | cmd/crawler/main.go:320-332 | crediting keeps every record at rewards = blocks × 3171·10^14 with at least one block, and adds exactly one block, to that producer |
| Crawler.FlushStep | cmd/crawler/main.go:334-343 | writing one pending record and deleting it keeps the tally of blocks credited |
| Crawler.FlushProducers | cmd/crawler/main.go:334-343 | the flush writes consistent records and stops at the first failing write; when none fails the map is emptied and the records written credit each address with its pending count |
| Crawler.TallyCredit | cmd/crawler/main.go:320-332 | crediting a received address keeps "written plus pending = blocks received per address" |
| Crawler.TallyFlush | cmd/crawler/main.go:334-343 | after a full flush the written counts are exactly the occurrences of each address received |
| Crawler.Receive | cmd/crawler/main.go:322-344 | one received address is credited, and when 50 records are pending they are flushed; fewer than 50 remain pending |
| Crawler.Finish | cmd/crawler/main.go:346-353 | the final flush leaves written records that credit each address with exactly the blocks received for it |
| Crawler.StreamInsertProducers | cmd/crawler/main.go:313-356 | every record written is consistent; a failing write ends the stage with count 0; on success the counts written sum per address to the blocks received |
| Crawler.ScanEndAsWritten | cmd/crawler/main.go:74-76 | the end height computed with the uint64 difference `tip - first`: the tip, or 500000 blocks past the cursor when that difference exceeds the cap |
| Crawler.ScanEndAsWrittenWraps | cmd/crawler/main.go:74-76 | a cursor of 10 over a tip of 5 wraps the difference, so the scan is sent to height 500010 |
| Crawler.ScanEnd | cmd/crawler/main.go:74-76 | the scan ends at the tip, never past it and never more than 500000 blocks past the cursor, and scans nothing when the cursor is above the tip |
| Crawler.ScanEndAgrees | cmd/crawler/main.go:74-76 | the intended end equals the computed one whenever the cursor is not above the tip |
| Crawler.TouchBlock | cmd/crawler/main.go:100-107 | the producer, each sender and each non-empty recipient is set to the block's number, later ones winning |
| Crawler.ScanBlock | cmd/crawler/main.go:88-113 | the accounts after one more block are those the scanned blocks touch |
| Crawler.TouchedGrows | cmd/crawler/main.go:109-113 | the accounts touched only grow as the scan goes on |
| Crawler.ScanAccounts | cmd/crawler/main.go:80-116 | the scan stops at the first height where the block or transactions query fails, or right after the block that takes the accounts past 1000000; the cursor is where it stopped, and each account maps to the last block that touched it |
| Crawler.ReadMissing | db/db.go:151-198 | a height with no stored block reads without error as block 0 produced by the zero address, with the transactions of the zero hash |
| Crawler.MissingHeightTouch | cmd/crawler/main.go:88-100 | a height with no stored block is recorded as block 0 produced by the zero address |
| Crawler.ProducerRecorded | cmd/crawler/main.go:100 | once the scan has passed a height, that block's producer is among the accounts |
| Crawler.MissingHeightRecorded | cmd/crawler/main.go:86-116 | a height with no stored block does not stop the scan: once passed, the zero address is among the accounts |
| Crawler.Liquid | cmd/crawler/main.go:148 | the liquid balance is the wei balance divided by 10^14, truncated to 64 bits |
| Crawler.RowFor | cmd/crawler/main.go:143-170 | a row is written exactly when balance and stake can both be read, and it carries the account's last block |
| Crawler.UpdateBalances | cmd/crawler/main.go:135-171 | every row is the one its account calls for, no account has two rows, and every account that calls for one has one |
| Crawler.RichList | cmd/crawler/main.go:39-188 | the cursor stays within [first, first + 500000] and, when the scan starts at or below the tip, not past it; a cursor above the tip is kept as it is; it stops early only where a query fails or on the account cap; every row is for an account the scanned heights touched, other than the system contract `0x…0101`, and carries the last block that touched it with its balance and stake; every such account whose balance and stake can be read has exactly one row |
| Ipc.BlockCountAsWritten | ipc/ipc.go:74-79 | the count `last - first + 1` computed in uint64 |
| Ipc.BlockCountAsWrittenWraps | ipc/ipc.go:74-77 | for first 5 and last 3 the dead guard lets a count of 2^64 - 1 through |
| Ipc.BlockCountAsWrittenAgrees | ipc/ipc.go:74-79 | on a valid range the uint64 count is the true count |
| Ipc.BlockCount | ipc/ipc.go:74-79 | an inverted range is an error, otherwise the count is `last + 1 - first` |
| Ipc.GetBlocks | ipc/ipc.go:73-89 | exactly `last - first + 1` blocks with `blocks[i]` at height `first + i`, or an error exactly when some height in the range is missing |
| Ipc.LastBlocksFirstAsWritten | ipc/ipc.go:63-66 | the first height `last - count + 1` computed in uint64 |
| Ipc.LastBlocksFirstAsWrittenWraps | ipc/ipc.go:63-66 | asking 20 blocks below height 10 wraps to a first height near 2^64 |
| Ipc.LastBlocksFirstAsWrittenAgrees | ipc/ipc.go:63-66 | when count ≤ last + 1 the uint64 value is the true first height |
| Ipc.LastBlocksFirst | ipc/ipc.go:63-66 | the last `count` heights end at the tip, clamped at height 0 |
| Ipc.GetLastBlocks | ipc/ipc.go:57-71 | an error when the tip cannot be read; otherwise the blocks from `LastBlocksFirst` to the tip, succeeding exactly when the node has them all |
| Ipc.StrideHeightsMembers | ipc/ipc.go:97 | a worker requests exactly the heights `first + offset + k·stride` below `first + count` |
| Ipc.StrideHeightsIncreasing | ipc/ipc.go:97 | a worker's heights strictly increase |
| Ipc.StrideHeightsPartition | ipc/ipc.go:97 | every height of the range belongs to the worker `(h - first) % stride` and to no other, and no worker requests a height outside the range |
| Ipc.StrideHeightsCover | ipc/ipc.go:97 | each height of the range is requested by its owner |
| Ipc.StrideHeightsOwner | ipc/ipc.go:97 | a requested height lies in the range and belongs to that worker |
| Ipc.FetchHeights | ipc/ipc.go:97-104 | the blocks sent are the node's blocks at the worker's heights, in order, stopping at the first missing height, which is reported |
| Ipc.StreamBlocks | ipc/ipc.go:91-110 | an inverted range errs at once; otherwise the blocks at the worker's heights are sent in order; on the first missing height the worker returns without touching the counter; otherwise it decrements it and closes the channel exactly when it reaches 0 |
| Ipc.CloseRule | ipc/ipc.go:105-107 | among workers finishing in some order the channel is closed exactly when all succeed, by the last of them, and the counter is left at the number that failed |
| LegacySync.StreamInsertTransactionsEach | main.go:93-105 | one insert per received transaction with that transaction alone, then one empty insert |
| LegacySync.EachInsertedOnce | main.go:93-105 | those inserts hand over every transaction exactly once, in order |
| LegacySync.SyncFirst | main.go:124-129 | the first height synced is one past the newest stored block, wrapping to 0 at 2^64 - 1 |
| LegacySync.LaunchWorkers | main.go:138-142 | `threads` workers with offsets 0 … threads - 1, all with stride `threads`, and the counter set to `threads` |
| LegacySync.WorkersPartitionRange | main.go:138-142 | the launched workers split the sync range: each height is requested by one worker and no other |
| LegacySync.AllWorkersOk | main.go:138-142 | every worker gets through exactly when the node has every height of the range |
| LegacySync.WorkersSyncRange | main.go:138-142 | when every worker launched with stride `threads` got through, the block at each height of the range is among those sent by the worker owning that height |
| LegacySync.PullNewBlocks | main.go:107-153 | the range is [newest stored + 1, tip], so no stored height is fetched again and on an empty table height 0 is never fetched; worker k sends the blocks of its heights in order, all of them exactly when the node has them all and otherwise up to the first it lacks; a closed channel means every height of the range was sent, by the worker (h - first) mod threads; the channel is closed exactly when there is at least one worker, the range is not inverted and the node has every height |
| Db.EncodeDelegates | db/db.go:664-667 | the stored bytes are the delegates' 20-byte values concatenated |
| Db.DecodeDelegates | db/db.go:185-192 | `len/20` addresses, the i-th taken from bytes [20i, 20i + 20) |
| Db.ConcatChunk | db/db.go:664-667 | bytes [20i, 20i + 20) of the encoding are the i-th delegate |
| Db.DelegatesRoundTrip | db/db.go:185-192 | decoding an encoding, with fewer than 20 trailing bytes, gives the delegates back |
| Db.SplitThenConcat | db/db.go:185-192 | re-encoding a decoding drops exactly the trailing bytes past a multiple of 20 |
| Db.BlockRowRoundTrip | db/db.go:663-687 | a stored block reads back unchanged except that its transaction count becomes the number of its transactions and its transaction list is not stored |
| Db.GetBlockByID | db/db.go:151-198 | a missing number reads back as the empty block; a stored one reads back as its row |
| Db.LatestBlockNumber | db/db.go:132-148 | the largest stored number, or 0 for an empty table |
| Db.GetBlockByHash | db/db.go:205-262 | an empty request panics on the slice; see the lemmas below |
| Db.GetBlockByHashSound | db/db.go:239-242 | a hash lookup succeeds only when the request is `0x` plus the lowercase hex of the stored hash, and then returns the stored block |
| Db.GetBlockByHashFindsStored | db/db.go:205-262 | a stored block is found exactly by `0x` plus the lowercase hex of its hash |
| Db.UppercaseRequestRejected | db/db.go:239-242 | a request with an uppercase hex digit always gets "wrong block found" |
| Db.GetBlockByHashMissing | db/db.go:205-242 | a well-formed request for an unknown hash gets "wrong block found" |
| Db.ScaleDown | db/db.go:590 | the stored value is the wei value divided by 10^14, truncated to 64 bits |
| Db.ScaleRoundTrip | db/db.go:369 | reading back a stored value gives `v - v % 10^14`, within 10^14 below `v` |
| Db.ScaleUpThenDown | db/db.go:590 | storing a read-back value gives the stored value again |
| Db.ScaleDownWraps | db/db.go:590 | a quotient of 2^64 is stored as 0 |
| Db.TransactionRowValue | db/db.go:584-608 | a transaction's row carries its scaled value, its recipient and its other fields unchanged |
| Db.UpsertLastWins | db/db.go:584-613 | after a batch the row for a key is the last successful row for it |
| Db.UpsertOtherKeys | db/db.go:584-613 | keys that no successful row names keep their old rows |
| Db.InsertBlocks | db/db.go:634-705 | an empty batch and a failing begin or prepare leave the table unchanged and the latter two are returned; otherwise the good rows are upserted and nil is returned |
| Db.InsertedBlockReadsBack | db/db.go:634-705 | a block whose row succeeded and is not overwritten later in the batch reads back by its number |
| Db.InsertTransactions | db/db.go:552-631 | the same error semantics for transactions, except that a batch holding a contract creation panics at the nil recipient and commits nothing |
| Db.FailedRowsSkipped | db/db.go:584-613 | a hash whose rows all failed keeps what the table had |
| Models.HexEncodeLowercase | models/models.go:153 | the rendering uses lowercase hex digits only |
| Models.HexRoundTrip | models/models.go:169 | hex decoding inverts hex encoding |
| Models.HexEncodeInjective | models/models.go:153 | different inputs render differently |
| Models.RenderInput | models/models.go:153 | `0x` followed by two hex digits per byte |
| Models.UnmarshalInputAsWritten | models/models.go:158-175 | exactly `"0x"` keeps the current value; shorter text fails on the slice |
| Models.UnmarshalInputAsWrittenIgnoresPrefix | models/models.go:169 | text without `0x` is accepted: `"abcd"` decodes to `[0xcd]` |
| Models.UnmarshalInput | models/models.go:158-175 | text without the `0x` prefix is rejected; exactly `"0x"` keeps the current value |
| Models.UnmarshalInputAgreesWhenPrefixed | models/models.go:158-175 | with the prefix present the corrected decoder behaves as written |
| Models.InputRoundTrip | models/models.go:153-172 | decoding the rendering of any input, empty included, gives it back |
| Models.MarshalBlockForgetsOnlyTransactions | models/models.go:37-70 | two blocks render alike exactly when they differ at most in their transaction lists |
| Models.MarshalTransactionFaithful | models/models.go:122-156 | the transaction JSON is injective and its input decodes back |
| Models.MarshalTransactionFullFaithful | models/models.go:179-223 | the full-transaction JSON is injective and renders input as the plain transaction does |
| Handlers.FormatUintValue | api/handlers.go:487 | the decimal rendering of a number denotes that number |
| Handlers.FormatUintInjective | api/handlers.go:487 | different numbers render differently, so cache keys do not collide |
| Handlers.ParseUint | api/handlers.go:86 | a value is returned only for non-empty all-digit text below the bit limit, and every other text is rejected |
| Handlers.ParseFormatUint | api/handlers.go:336 | parsing the rendering of a number below the limit gives it back |
| Handlers.ParseInt64 | api/handlers.go:75 | a result lies in the int64 range, and a negative one was written with `-` |
| Handlers.ParseFormatInt | api/handlers.go:474 | parsing the rendering of any int64 gives it back |
| Handlers.BlockRequest | api/handlers.go:45-134 | a parameter longer than 2 characters with `x` second is a hash; otherwise a non-number is a bad request; a plain id lies in uint64 and has no range; a range query clamps to at most 100 |
| Handlers.BlockByNumber | api/handlers.go:75-134 | a non-negative number is a block id; with a range it is the top of up to `min(range, 100)` blocks, truncated to 32 bits |
| Handlers.BlockNegativeIds | api/handlers.go:93-134 | with a range, -1 means 2^32 - 1 and other negatives are rejected; without one a negative id wraps to `2^64 - n` |
| Handlers.PageParam | api/handlers.go:324-344 | an empty parameter takes its default, and anything else must parse as a 32-bit unsigned number or is a bad request |
| Handlers.PageParamRoundTrip | api/handlers.go:324-344 | a rendered 32-bit number is accepted as itself |
| Handlers.ParseReference | api/handlers.go:356-369 | the reference is exactly one of from, to, all, block or latest, or none |
| Handlers.Order | api/handlers.go:346-352 | the order is `asc` or `desc`, and `desc` exactly when asked for exactly |
| Handlers.TxByAddressRequest | api/handlers.go:309-369 | a query exists exactly when the reference is known and both page parameters parse; every failure is a bad request |
| Handlers.TxByAddressDefaults | api/handlers.go:332-352 | the defaults are offset 0, limit 20 and ascending order |
| Handlers.RichListRequest | api/handlers.go:670-695 | defaults are offset 0 and limit 100, and unparseable values are bad requests |
| Handlers.DelegatesRequestAsWritten | api/handlers.go:470-500 | any parseable number is accepted, even a negative one |
| Handlers.DelegatesNegativeAccepted | api/handlers.go:474-488 | `-1` is served as block 2^64 - 1, under key `delegates:18446744073709551615`, for a day |
| Handlers.DelegatesRequest | api/handlers.go:470-500 | a non-negative number gives key `delegates:N` kept a day; a negative one is a bad request; anything else is the latest block under key `delegates` kept 1 second |
| Handlers.DelegatesKeysDistinct | api/handlers.go:470-487 | per-block keys differ by block and never equal the latest-block key |
| Handlers.DelegatesAgree | api/handlers.go:470-500 | apart from negative numbers the corrected rule is the rule as written |
| Handlers.StatsStatus | api/handlers.go:421-431 | "not found in delegates" is 404 and every other error is 500 |
| Handlers.StatsNotFound | api/handlers.go:421-431 | the stats endpoint answers 404 exactly when a valid lookup address is not a current delegate |
| Handlers.StatsKey | api/handlers.go:409-412 | `stats`, or `stats:` plus the address's rendering when the parameter is a hex address |
| Handlers.StatsKeyPrefix | api/handlers.go:409-412 | an address with or without `0x` gets the same cache key |
| Handlers.Mul64 | api/handlers.go:635 | the uint64 product, equal to the true product when that fits |
| Handlers.ChainSupply | api/handlers.go:634-640 | circulating equals total, total is a whole number of coins, and without wrap-around it is `(initial + 3171 × n) × 10^18` |
| Handlers.SupplyPerBlock | api/handlers.go:634-640 | each block adds exactly 3171 coins to the supply |

## Left out

- Floating point: the density is the exact real `1 - missed/total`, not a
  float64. The slot is `timestamp / period` in integer division rather than
  a float quotient. The second examined, `latest - i`, is a uint64
  subtraction and wraps when the latest timestamp is below the longest
  window, as in the source. The model then divides the wrapped value
  exactly. Go converts it to float64 and back with `int(...)`
  (api/delegates.go:40-41, 133), which loses precision above 2^53 and
  overflows `int` above 2^63. The seats charged to those seconds can
  therefore differ from Go's.
- The look-back windows are given sorted; `sort.Ints` is not modelled.
- The nil checks on the database and IPC clients, log lines and the
  "Chocking" warnings are not modelled.
- The stored blocks the density engine reads (`GetBlocksByTimestamp`) are a
  parameter, and so are the node's delegate votes and the latest block.
- Goroutines, channels, `sync.WaitGroup` and the atomic counter: each stage
  runs sequentially over the sequence it receives. `Ipc.CloseRule` covers
  workers finishing in any order.
- Redis reads and writes and the HTTP layer (routing, response writing)
  are not modelled. Only the keys, expiry times and status choices are.
- The rich list's `GetTopBalances` and `PurgeBalanceObject`
  (cmd/crawler/main.go:173-180) are store calls with no logic of their own.
- `SetGlobalInt`: the cursor it stores is returned by `Crawler.RichList`.
- The crawler's `pullNewBlocks` wiring (cmd/crawler/main.go:358-425) is
  goroutine plumbing. The backward reorg walk that feeds the delete stage
  is not part of this model. `doEnsSync` is node calls plus an upsert.
- The older sync's transaction-hash channel and `StreamTransactions` are
  not part of this model. `main.go` calls a `StreamBlocks` that takes that
  channel.
- With no workers, or with a failing worker, the older sync never closes
  its block channel and so hangs. `LegacySync.PullNewBlocks` reports this
  as `closed == false`.
- EIP-55 checksum rendering of addresses is a parameter (`render`) of
  `Handlers.StatsKey`.
- `params.MainnetDPOSConfig.InitialDistribution` is a parameter of
  `Handlers.ChainSupply`.
- `HandleAddress`, `HandleABI`, `HandleTxByHash` and the ENS handlers have
  no parameter rules worth modelling. The SQL of `GetTransactionsByAddress`,
  including its cap of 0xffff rows and the `latest` reference that has no
  SQL case, is not modelled.
- Db.InsertBlocks and Db.InsertTransactions: a row whose key is already
  in the table replaces it. The table's key constraints on `COPY` are not
  modelled. A failure of the final flush, close or commit is modelled as
  the whole batch going missing.
- The rich-list scan stops at a height where the block query or the
  transactions query fails. The model folds both into the height being
  absent from the store it is given. A height with no stored block is not
  a failure: GetBlockByID returns the zero block with no error, so that
  height is scanned as block 0 and the cursor moves past it.
- `GetTransactionsByAddress` is not part of this model. The rich-list scan
  takes what it returns for a block hash as a parameter (`txsOf`). Its row
  decoding calls `tx.To.SetBytes` (db/db.go:540) on the `To` pointer, which
  is nil in a fresh `models.Transaction`. As written, any call that returns
  a row therefore panics, and the rich-list scan crashes the crawler at the
  first scanned block that has a transaction. `txsOf` stands for the rows
  the query is meant to return.
- Crawler.RichList uses the corrected `Crawler.ScanEnd`, so a stored
  cursor above the node's tip scans nothing. As written the uint64
  difference wraps, the scan runs 500000 heights past the cursor over
  zero blocks, and the cursor stored for the next run jumps there
  (cmd/crawler/main.go:74-76; see Findings).
- Crawler.StreamInsertTransactions: a batch holding a contract creation
  makes `InsertTransactions` panic, which ends the crawler. The stage
  records the calls it makes and not that crash.
- Crawler.StreamInsertBlocks: the failure oracle may fail the final write
  even when it is empty, which `InsertBlocks` never does (db/db.go:635-637).
  The contract holds for every oracle, including those that never fail an
  empty write.
- SQL text, the Postgres driver, `pq.CopyIn`, the `rows.Scan` plumbing,
  `GetAddressTotals`, coinmarketcap, lockfiles, CLI flags and `expandHome`
  are not modelled.
- Ipc.GetLastBlocks is built on the corrected `Ipc.LastBlocksFirst`, so
  asking for more blocks than exist returns heights 0 up to the tip. As
  written the start wraps: tip 10 and count 20 start at 2^64 - 9, and the
  node is asked for heights it does not have (ipc/ipc.go:63; see Findings).
- Ipc.GetBlocks and Ipc.StreamBlocks use the corrected `Ipc.BlockCount`,
  so an inverted range is the error the source meant rather than a
  wrapped count (ipc/ipc.go:74-77 and 92-95; see Findings).
- LegacySync.PullNewBlocks inherits that correction: when the newest stored
  block is two or more above the node's tip, its workers send nothing
  (`sent[k] == []`). As written the count wraps, each worker asks the node
  for heights above its tip, and the first fetch fails. In both readings
  no worker decrements the counter, so the channel is never closed.
- Handlers.BlockRequest, Handlers.IsHashParam and
  Models.UnmarshalInputAsWritten, like every member that indexes, slices or
  measures a string: strings are sequences of characters, while Go indexes
  strings by byte. The two agree only on ASCII text. `"éxy"` is a hash
  request here, but in Go its second byte is not `x`, so the number parse
  fails and the reply is 400. `"é"` is too short to slice here, while Go's
  `str[2:]` of its two bytes is empty and decodes to no bytes.
- Models.UnmarshalInput: the decoder returns the new value rather than
  overwriting its receiver in place.
- Handlers.ParseInt64: the ensures does not say that a rejected text is
  outside the int64 range or malformed; `ParseFormatInt` gives the
  round trip instead.

## Findings

| source | as written | input that shows it | evidently intended | confidence | as-written member | corrected member |
|---|---|---|---|---|---|---|
| api/handlers.go:474-485 | `blockNumber` is converted to uint64 before the `< 0` check, so the check never fires | `/delegates/-1` is served as block 2^64 - 1 under key `delegates:18446744073709551615` | negative block numbers are a bad request | not executed | Handlers.DelegatesNegativeAccepted | Handlers.DelegatesRequest |
| ipc/ipc.go:74-79 | `last - first < 0` on uint64 never holds, so an inverted range is not rejected | first 5, last 3 gives a count of 2^64 - 1 | an inverted range is an error | not executed | Ipc.BlockCountAsWrittenWraps | Ipc.BlockCount |
| ipc/ipc.go:63-66 | `last - count + 1` on uint64 wraps when more blocks are asked than exist | 20 blocks below height 10 start at 2^64 - 9 | the range is clamped at height 0 | not executed | Ipc.LastBlocksFirstAsWrittenWraps | Ipc.LastBlocksFirst |
| models/models.go:165-172 | the first two characters are dropped without checking that they are `0x` | `"abcd"` decodes to `[0xcd]` | text without the prefix is rejected | not executed | Models.UnmarshalInputAsWrittenIgnoresPrefix | Models.UnmarshalInput |
| cmd/crawler/main.go:74-76 | `lastBlock-firstBlock` is a uint64 difference, so a stored cursor above the node's tip wraps it past the cap | cursor 10 and tip 5 give an end of 500010 | a cursor above the tip scans nothing | not executed | Crawler.ScanEndAsWrittenWraps | Crawler.ScanEnd |
