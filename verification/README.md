# Verified model of the ledger migration

The repository moves a TigerBeetle ledger into a fresh cluster. It decodes the old data file offline, plans
a compressed history (two genesis accounts per ledger, re-timestamped accounts, at most two synthetic
transfers per account, and optionally the real transfers since a cutoff), and imports that plan in batches.
This project models those parts in Dafny and proves what they promise about each other.

| file | models |
|---|---|
| `Wrappers.dfy`, `Sorting.dfy`, `Bits.dfy` | results and options; stable sorting, sums, arbitrary hash-map order; bits of a flag word |
| `Records.dfy` | 128-byte records, flags, little-endian readers (`crates/reader/src/types.rs`) |
| `Layout.dfy` | zones of the data file, grid block headers (`layout.rs`, `block.rs`) |
| `Streams.dfy`, `LsmIterator.dfy`, `WalIterator.dfy` | the lazy record iterators and their paging (`reader.rs`) |
| `Manifest.dfy` | the manifest log (`manifest.rs`) |
| `Merge.dfy`, `DataFile.dfy`, `Paging.dfy` | checkpointed and logged records merged, from the bytes of a file to its current records and pages |
| `Format.dfy`, `ManifestFormat.dfy`, `LogFormat.dfy` | blocks, tables, manifest chain and log as they are written, field after field, and that reading gives them back |
| `Image.dfy`, `WrittenFile.dfy` | a whole written file, what reading it returns, and a writer for any list of accounts that fits a block |
| `Timestamps.dfy`, `Plan.dfy` | timestamp deduplication and the balance plan (`plan.rs`) |
| `Ledger.dfy` | the abstract ledger: the specification an import runs against |
| `Importer.dfy` | conversions, batches, phases, failures (`importer.rs`) |
| `Acceptance.dfy` | when a cluster accepts a list of transfers, from what is known before sending it |
| `Replay.dfy`, `Migration.dfy`, `Ordering.dfy` | what a plan does when it is run, and where its timestamps lie |
| `Service.dfy`, `FileMigration.dfy` | a migration request, and the whole way from file to cluster (`grpc_service.rs`) |
| `Csv.dfy`, `CsvOrders.dfy`, `CsvCompression.dfy`, `CsvMigration.dfy` | planning from CSV transfers, when the plan is accepted in every hash-map order, compression against verbatim replay, and importing after the accounts (`grpc_service.rs`) |
| `Witnesses.dfy` | inputs on which one id, or the order of a hash map, decides an import |
| `TimeBasedId.dfy` | the id generator (`time_based_id.rs`) |

Code that updates state is modelled by classes and methods (`ObjectIter` with its shared block buffer,
`WalObjectIter`, `Importer`, `Client`, `TbidGenerator`, loops over vectors and maps), each proved equal to a
specification function; the theorems are about those functions. Hash maps are iterated in an arbitrary
order: the results hold for every order, and where the code's own result depends on the order the exact
condition is proved. The clock, the random source, the network and the superblock are arbitrary inputs.

The central results are exact.

- `Migration.SnapshotMigration`: importing the plan of any list of accounts is accepted by an empty ledger if
  and only if the accounts are `Importable`: ids distinct, not reserved and clear of the genesis ids, ledger
  and code nonzero, not linked, not both limit flags, sums within 128 bits, the last timestamps in the past,
  and for each account with a balance no flag that stops the replay (not closed; debits within credits if so
  flagged; no credits at all under `credits_must_not_exceed_debits`, because the credit side is sent first).
  Then every account holds its original posted balances, ledger, code, user data and flags, and the genesis
  accounts the sums of their ledger.
- `Migration.WindowedMigration`: with a cutoff, accepted if and only if the accounts as of the cutoff are
  importable and the window is `TransfersImportable`: plain flags, ids new and above those of the synthetic
  transfers, timestamps rising from the last synthetic one and in the past, both accounts planned in the
  transfer's ledger, older and open, and limits and 128-bit sums kept on cutoff balance plus window so far.
  Then the transfers of the window are the last ones posted, in order and in every field but `imported`.
- `CsvOrders.AcceptedInEveryOrderIff`: a CSV import with a cutoff is accepted in every order of the hash map
  if and only if the list is `CsvImportable`. If any transfer lies before the cutoff, no transfer id is used
  yet, the N synthetic timestamps just below the cutoff lie between the cluster's last transfer and its clock,
  every account used before the cutoff is open, in the transfer's ledger and older than all of them, and its
  opening balance alone covers everything debited from it (or credited to it) before the cutoff, within 128
  bits and its limit; and the transfers since the cutoff are importable after that.
- `CsvCompression.CompressionPreservesBalances`: a list that can be replayed verbatim can be imported
  compressed, in every order, if and only if there is `RoomToCompress`, which says what compression asks on
  top: free ids, older accounts, and limits that hold without help from the other side. Whenever both are
  accepted, every account ends with the same balances.
- `CsvMigration.AccountsThenCsvInEveryOrder`: the same exactness for accounts from the file, then CSV.
- `Image.ReadsBack`: whatever is written is read back. From a file whose blocks, manifest chain and log messages
  are laid out field by field as the format documents them, reading returns exactly the records of the tables
  that the newest manifest event keeps, and those of the log after the checkpoint, without padding and in order.
  `WrittenFile.AccountsRoundTrip` writes any list of accounts that fits a block and reads back that list, and
  `FileMigration.WrittenFileToCluster` follows what was written on to the cluster.
- `FileMigration.FileToCluster` and `FileMigration.FileToClusterWindowed` carry these back to the bytes of the
  old data file, which is read successfully if and only if all of it that is needed can be read; from a
  damaged file nothing is imported. Both hold for every account whose version is certain, one by one: a stale
  version of one account takes nothing from the others. The balances restored are those of the record as
  read: a log record carries the balances its account was created with (`reader.rs:113-118`), and transfers
  that are only in the log are added to no account.

Three statements of the documentation do not hold of the code. The model follows the code, gives an input on
which each fails, and proves when it holds:

- `plan.rs:101-108` and the design document (lines 204-210) put synthetic timestamps strictly below the
  cutoff (`Ordering.NoRoomExample`, exactly when: `Ordering.SyntheticOrdering`).
- The same lines of the design document put them after all accounts; with a cutoff the code puts them after
  accounts with a balance only (`Ordering.EmptyAccountAfterTransfers`, exactly when:
  `Ordering.AfterAllAccountsIff`).
- The design document (line 237) calls a collision of synthetic and windowed transfer ids impossible; nothing
  excludes it, and one makes the import fail (`Witnesses.IdCollisionExample`, where the id alone decides, and
  `Migration.IdCollisionRejected`; ids above the synthetic ones are part of the exact condition of
  `Migration.WindowedMigration`).

Seven results are about inputs that the code does not exclude:

- First-seen-wins over the manifest equals replaying the log if and only if first and last event agree in the
  newest block that mentions an address (`Manifest.WalkIsReplayIff`, `Manifest.TwoEventsMislead`).
- Every page call lists the live tables in a new hash-map order, so pages taken one after the other may repeat
  and lose records (`Paging.RecordLostExample`); they are complete for every choice of orders if and only if at
  most one table yields records or one page holds them all (`Paging.PagingCompleteIff`).
- A merged read is independent of that order if and only if no two live tables hold different versions of an
  id that the log does not override, for one id or for all (`DataFile.IdOrderIrrelevantIff`,
  `DataFile.OrderIrrelevantIff`, `DataFile.StaleVersionExample`). Accounts are merged only when the log holds
  accounts.
- With no account in the log the tables are not merged, and two live tables that hold one account id make every
  import fail (`FileMigration.UnmergedTablesRejected`, `FileMigration.UnmergedExample`).
- The hash map's order can decide whether a CSV import is accepted (`Witnesses.OrderDecidesExample`; every
  order is accepted exactly under the condition of `CsvOrders.AcceptedInEveryOrderIff`).
- Ids keep increasing beyond 48 bits of milliseconds only under a condition on clock and draw
  (`TimeBasedId.NextIdLargerIff`, `TimeBasedId.OrderLostBeyond48Bits`).
- A CSV transfer since the cutoff may carry the id of an aggregated one, and then the import fails
  (`CsvMigration.CsvIdCollisionRejected`; on the input of `Witnesses.CsvIdCollisionExample` the id decides).

Notes on wording, with no result attached: `plan.rs:38` says a synthetic transfer inherits the account's code,
and the code always uses 999; `plan.rs:78` speaks of one genesis account per ledger, and the code makes two;
`importer.rs:106-110` names the third phase `transfers`, and the code reports `synthetic_transfers` and
`windowed_transfers`; the design document (lines 212-213) describes a check against accounts newer than the
cutoff that `plan_migration` (`grpc_service.rs:733-835`) does not make.

## Model

| member | source | states |
|---|---|---|
| Records.AccountDecodeEncode | crates/reader/src/types.rs:109-126 | decoding any 128 bytes as an account and encoding little-endian gives the bytes back |
| Records.AccountEncodeDecode | crates/reader/src/types.rs:109-126 | encoding any account whose fields fit their widths and decoding gives the account back |
| Records.TransferDecodeEncode | crates/reader/src/types.rs:246-262 | the same round trip from bytes for transfers |
| Records.TransferEncodeDecode | crates/reader/src/types.rs:246-262 | the same round trip from records for transfers |
| Records.OffsetsTileTheRecord | crates/reader/src/types.rs:109-126 | the thirteen offsets are the running sums of the widths, each field starts where the one before ends and the last ends the record; both decoders read exactly at these offsets |
| Records.AccountFieldsAt | crates/reader/src/types.rs:109-126 | which bytes of the 128 are which field of an account |
| Records.TransferFieldsAt | crates/reader/src/types.rs:246-262 | which bytes of the 128 are which field of a transfer |
| Records.ToLEFromLE | crates/reader/src/types.rs:327-344 | reading a little-endian integer loses nothing: writing it back gives the bytes |
| Records.NextByte | crates/reader/src/types.rs:327-344 | each further byte of an integer is more significant than all before it |
| Records.FromLEToLE | crates/reader/src/types.rs:327-344 | writing an integer that fits in n bytes little-endian and reading it gives the integer |
| Layout.BlocksDisjoint | crates/reader/src/layout.rs:62-73 | blocks at different addresses never overlap, the block before the grid zone that address 0 wraps to included |
| Layout.ParseHeader | crates/reader/src/block.rs:64-111 | an accepted header has a size between 256 and the block length, so every record slot it implies lies inside the block |
| Format.ParseHeaderIff | crates/reader/src/block.rs:3-24 | for every header written field by field: accepted if and only if its command is 20, its size between 256 and the block length and its address not 0; size and type are read back |
| Format.HeaderOfIsHeader | crates/reader/src/block.rs:3-24 | any 256 bytes are such a header, so that covers every block |
| Format.ReadBlockIff | crates/reader/src/reader.rs:697-709 | a block is read if and only if the file reaches its end, counted in blocks from the grid zone, and it is an accepted block of the type wanted |
| Format.IndexReadBack | crates/reader/src/reader.rs:453-508 | the value-block addresses written into an index block, after checksums and two key sections, are read back in order, null sentinels dropped |
| Format.ValuesReadBack | crates/reader/src/reader.rs:510-524 | exactly the slots the header's size has room for are read back from a value block, in order, without padding |
| Format.TableReadBack | crates/reader/src/reader.rs:408-525 | exactly the records written into the value blocks of a table are read back, in order, without padding |
| ManifestFormat.EntryReadBack | crates/reader/src/types.rs:298-322 | of a written manifest entry, address and tree are read back; labels 64..127 insert, 128..191 update, 192..255 remove, and those below 64 are skipped |
| ManifestFormat.ManifestReadBack | crates/reader/src/manifest.rs:186-215 | the previous address and the events written into a manifest block are read back, in order |
| ManifestFormat.ChainReadBack | crates/reader/src/manifest.rs:174-229 | a written chain no longer than the reader allows is read back whole, newest block first |
| LogFormat.SlotReadBack | crates/reader/src/reader.rs:635-690 | a written log message gives back exactly its records, without padding, if its operation matches and its op is above the checkpoint, and nothing otherwise |
| LogFormat.LogReadBack | crates/reader/src/reader.rs:600-690 | a written log gives back exactly those records, in slot order |
| Image.ReadsBack | crates/reader/src/reader.rs:408-690 | a written file is intact; its checkpointed records are those written into the tables that the manifest keeps, its logged ones those written after the checkpoint |
| Image.AccountsGivenBack | crates/reader/src/reader.rs:74-85 | every account whose fields fit and whose id is neither 0 nor the greatest is given back |
| Image.TransfersGivenBack | crates/reader/src/reader.rs:87-95 | the same for transfers |
| Image.PaddingDropped | crates/reader/src/reader.rs:74-95 | records with id 0 or the greatest id are dropped |
| Image.OperationsLogged | crates/reader/src/reader.rs:74-95 | the log's accounts are those of operation 138 and its transfers those of operation 139 |
| Image.WrittenAccountsRead | crates/manager-node/src/grpc_service.rs:1350-1384 | reading the accounts of a written file succeeds and merges exactly what was written |
| Image.WrittenTransfersRead | crates/manager-node/src/grpc_service.rs:1391-1431 | reading the transfers of a written file since a cutoff succeeds and is the window of exactly what was written |
| WrittenFile.FileIsWritten | crates/reader/src/reader.rs:408-690 | a file can be written for every list of accounts that fits a block |
| WrittenFile.AccountsRoundTrip | crates/manager-node/src/grpc_service.rs:1350-1384 | reading that file returns exactly the accounts written, in order |
| Streams.PageIs | crates/reader/src/reader.rs:242-271 | a page is the slice of records from page * limit; it is an error exactly when the iterator's error falls inside it |
| Streams.PagesTile | crates/reader/src/reader.rs:242-271 | for one order of the tables, and for the log: without an error, pages concatenate to a prefix, and enough of them to all records, for any limit |
| Paging.PageOfFile | crates/reader/src/reader.rs:242-271 | on readable tables, a page call returns the page of the tables as listed in that call |
| Paging.PagingCompleteIff | crates/reader/src/reader.rs:242-271 | one order per call: enough pages return every record exactly once for every choice of orders if and only if at most one table yields records or one page holds them all |
| Paging.RecordLostExample | crates/reader/src/manifest.rs:174-235 | two tables, one record a page: listed the other way round on the second call, a record is returned twice and the other one lost |
| LsmIterator.ObjectIter.constructor | crates/reader/src/reader.rs:369-388 | a new iterator will yield the flat stream of its tables |
| LsmIterator.ObjectIter.Next | crates/reader/src/reader.rs:408-449 | terminates and yields exactly what the flat specification says comes next: each non-padding record once and in order, one error, then nothing |
| LsmIterator.ObjectIter.LoadIndexBlock | crates/reader/src/reader.rs:453-508 | leaves no record pending in the reused buffer and the nonzero value addresses of the index block to visit, or fails as specified |
| LsmIterator.ObjectIter.LoadValueBlock | crates/reader/src/reader.rs:510-524 | the buffer holds the value block, and the record count is the number of whole slots of 128 bytes between byte 256 and the size in its header, or the call fails as specified |
| LsmIterator.CollectAddresses | crates/reader/src/reader.rs:496-503 | the loop collects the nonzero addresses of the section in order |
| LsmIterator.ReadPage | crates/reader/src/reader.rs:242-271 | skip, take and collect on the lazy iterator give the specified page |
| LsmIterator.TableYieldsExactlyTheRecords | crates/reader/src/reader.rs:408-525 | a readable table yields a record if and only if it is in a slot of one of its value blocks that ends within the size at byte 96 of the header, and it is not padding |
| LsmIterator.IndexOkIff | crates/reader/src/reader.rs:453-508 | an index block is accepted if and only if it has no more entries than room for them and they end inside the block |
| LsmIterator.TableReadableIff | crates/reader/src/reader.rs:408-525 | a table is read to the end if and only if its index block and all its value blocks are accepted |
| WalIterator.WalObjectIter.Next | crates/reader/src/reader.rs:600-626 | terminates and yields exactly what the flat specification of the log says comes next |
| WalIterator.WalObjectIter.ExamineSlot | crates/reader/src/reader.rs:645-671 | gives the body size if and only if byte 252 is the operation, the op at 224 is neither 0 nor at or below the checkpoint, and the size at 96 has room for a record; otherwise the slot contributes nothing |
| WalIterator.WalObjectIter.LoadNextMatchingSlot | crates/reader/src/reader.rs:635-690 | moves to the next slot with records, skipping only slots that contribute none; the slot index always grows |
| WalIterator.ReadPage | crates/reader/src/reader.rs:304-326 | a page of log records is the specified slice |
| WalIterator.YieldsExactlyTheRecords | crates/reader/src/reader.rs:600-690 | on a readable log: exactly the non-padding records, up to the size at byte 96, of slots whose operation (byte 252) matches and whose op (at 224) is nonzero and above the checkpoint |
| WalIterator.CheckpointedNotYielded | crates/reader/src/reader.rs:656-661 | no record of an op at or below the checkpoint is ever yielded |
| WalIterator.ReadableIff | crates/reader/src/reader.rs:643-690 | a slot is readable if and only if the file has its header and, should it offer a record, its body |
| Manifest.CyclicChainRejected | crates/reader/src/manifest.rs:174-183 | a chain that runs into a cycle is rejected, whatever block count is declared |
| Manifest.LogOkIff | crates/reader/src/manifest.rs:174-229 | a chain is read successfully if and only if it reaches 0 within the allowed number of valid manifest blocks |
| Manifest.WalkSucceedsIff | crates/reader/src/manifest.rs:162-229 | past the empty-log check, the walk succeeds if and only if the chain ends within manifest_block_count + 1 valid blocks |
| Manifest.FollowChain | crates/reader/src/manifest.rs:174-229 | the loop, counting each block before it is read, computes the liveness of the chain or fails once the count passes the limit |
| Manifest.WalkManifest | crates/reader/src/manifest.rs:156-236 | the walk terminates on every file, reads at most manifest_block_count + 1 blocks, failed reads included, and computes the liveness of the whole chain |
| Manifest.RecordBlock | crates/reader/src/manifest.rs:211-226 | entries of a block are taken in ascending index, first seen first, other trees skipped |
| Manifest.WalkIsReplayIff | crates/reader/src/manifest.rs:156-236 | first-seen-wins newest first equals last-wins oldest first if and only if first and last event agree in the newest block that mentions each address |
| Manifest.WalkFindsLiveTables | crates/reader/src/manifest.rs:156-236 | with one event per address and block, the walk finds exactly the tables live after replaying the log, for one tree or all |
| Manifest.WalkLiveIff | crates/reader/src/manifest.rs:156-236 | on any log: a table is found if and only if the newest block that mentions it keeps it, its first event there being an insert or an update; with one event per address and block, if and only if its last event of the whole log is an insert or an update |
| Manifest.ManifestOkIff | crates/reader/src/manifest.rs:186-209 | a manifest block is accepted if and only if its entries end inside it |
| Manifest.TwoEventsMislead | crates/reader/src/manifest.rs:211-226 | a block that inserts and then removes a table makes the walk report a removed table as live |
| Manifest.CollectIndexBlocks | crates/reader/src/manifest.rs:156-236 | each table of one tree that the newest block mentioning it keeps by an insert or update, once, in an arbitrary order |
| Manifest.CountLiveIndexBlocks | crates/reader/src/manifest.rs:89-150 | the number of tables, over all trees, that the newest block mentioning them keeps by an insert or update |
| Manifest.CountIsSumOverTrees | crates/reader/src/manifest.rs:104-150 | if each address belongs to one tree, counting all trees at once equals adding up the trees |
| Manifest.WalkCountIsSum | crates/reader/src/manifest.rs:89-236 | on one log, the reported count is the sum over all tree ids of what collecting that tree finds |
| Merge.MergedIffCurrent | crates/manager-node/src/grpc_service.rs:1416-1421 | the merged map holds a record if and only if it is the last log record with its id, or the last checkpointed one when the log has none |
| Merge.ReadAllAccounts | crates/manager-node/src/grpc_service.rs:1350-1384 | every current account once, errors passed on, an unreached checkpoint read as empty, an empty log returning the tables untouched |
| Merge.ReadAllTransfersSince | crates/manager-node/src/grpc_service.rs:1391-1431 | exactly the current transfers since the cutoff, each id once, in timestamp order |
| Merge.WindowUnique | crates/manager-node/src/grpc_service.rs:1423-1428 | if timestamps differ the result is unique, so the hash map's order cannot show |
| DataFile.OpenLsm | crates/reader/src/reader.rs:206-237 | opening yields the live tables of the tree in some order, or the manifest's error; NotCheckpointed if and only if the manifest is empty and the sequence is not 0 |
| DataFile.ReadLsmPage | crates/reader/src/reader.rs:242-271 | a page over the live tables of a file; before the first checkpoint every page is empty |
| DataFile.ReadWalPage | crates/reader/src/reader.rs:282-326 | a page of the log records of a file above its checkpoint |
| DataFile.TablesInOrder | crates/reader/src/reader.rs:408-449 | readable tables are yielded whole, one after the other |
| DataFile.TablesFail | crates/reader/src/reader.rs:408-449 | the iterator over the tables fails if and only if one of them does, with the error of one of them |
| DataFile.BothRead | crates/manager-node/src/grpc_service.rs:1350-1384 | reading both sources succeeds if and only if the file is intact, and otherwise fails with the error of one of them |
| DataFile.IdOrderIrrelevantIff | crates/manager-node/src/grpc_service.rs:1376-1383 | for one id: what the merge keeps is the same for every order of the tables if and only if the log holds the id or no two tables disagree on it |
| DataFile.OrderIrrelevantIff | crates/manager-node/src/grpc_service.rs:1376-1383 | the merge is the same for every order of the tables if and only if no two tables disagree on an id that the log does not override; accounts are merged only when the log holds accounts |
| DataFile.StaleVersionExample | crates/manager-node/src/grpc_service.rs:1372-1383 | two tables with two versions of account 7: if the log holds account 8 only, the version read depends on the order of the tables; if the log is empty, both are read |
| DataFile.ReadTransfersSince | crates/manager-node/src/grpc_service.rs:1391-1431 | succeeds if and only if the file is intact and passes the error on otherwise; the result is the window for some table order: sorted by timestamp, each id once, only meant transfers since the cutoff, and every one of them whose id the log or agreeing tables decide |
| DataFile.MeantWindowUnique | crates/manager-node/src/grpc_service.rs:1423-1430 | if every id is decided and meant transfers have different timestamps, only one sequence meets that contract |
| DataFile.ReadAccounts | crates/manager-node/src/grpc_service.rs:1350-1384 | succeeds if and only if the file is intact and passes the error on otherwise; the tables as they stand if the log holds no account, otherwise every current account once; every account whose own version is certain is in it |
| Timestamps.DedupIsLeast | crates/compressor/src/plan.rs:246-254 | deduplicated timestamps strictly increase above the start, are never lowered, and are pointwise least among all such sequences |
| Timestamps.DedupClosedForm | crates/compressor/src/plan.rs:246-254 | new[i] is the greatest of start + 1 + i and old[j] + (i - j) for j <= i |
| Timestamps.DedupIdentityIff | crates/manager-node/src/grpc_service.rs:1508-1516 | nothing changes if and only if the input already strictly increases above the start |
| Timestamps.DedupeTimestamps | crates/manager-node/src/grpc_service.rs:1508-1516 | the in-place loop computes that sequence and changes nothing else |
| Plans.Build | crates/compressor/src/plan.rs:84-86 | the snapshot plan depends on the accounts alone, not on the hash map's order |
| Plans.BuildSnapshotImpl | crates/compressor/src/plan.rs:169-341 | grouping, genesis accounts, sorting, deduplication and transfer generation give the specified plan |
| Plans.SortedGroups | crates/compressor/src/plan.rs:171-194 | the groups come out ascending by ledger, each with its accounts in input order, for every hash-map order |
| Plans.InLedgerAppend | crates/compressor/src/plan.rs:171-194 | within its group every account keeps its place in the input |
| Plans.BuildGenesis | crates/compressor/src/plan.rs:196-243 | the loop over the groups gives two genesis accounts per ledger with timestamps 1, 2, ... and the accounts group by group |
| Plans.DedupeAccountTimestamps | crates/compressor/src/plan.rs:246-254 | the loop over the accounts rewrites timestamps as specified |
| Plans.GenerateSynthetic | crates/compressor/src/plan.rs:279-330 | the counters and pushes give the specified transfers, credit side first |
| Plans.BuildWindowed | crates/compressor/src/plan.rs:109-146 | balances become those at the cutoff (window deltas subtracted with saturation, window accounts zeroed); windowed transfers are kept verbatim |
| Plans.SortedAccountsPermute | crates/compressor/src/plan.rs:239-244 | grouping, flattening and sorting lose and duplicate no account; the result is sorted by timestamp, and accounts with one timestamp keep their order |
| Plans.DedupAccountsAt | crates/compressor/src/plan.rs:246-254 | only timestamps change, never downwards, and they strictly increase |
| Plans.GenesisIdsNeverClash | crates/compressor/src/plan.rs:182-183 | no genesis id serves two ledgers or two sides |
| Ordering.AccountDedupIsDedup | crates/compressor/src/plan.rs:246-254 | the planner's account timestamps are the least increasing ones, as for transfers |
| Ordering.TimestampsKept | crates/compressor/src/plan.rs:239-254 | accounts with different timestamps, later than the genesis accounts, keep the timestamps they have |
| Ledgers.RunKeepsSound | crates/reader/src/types.rs:20-28 | in every run of any events, balances stay within 128 bits and both limit flags are respected |
| Ledgers.AccountsAcceptedIff | docs/rotate-archive-impl-plan.md:177-183 | account events are all accepted if and only if ids are new and distinct, shapes valid and timestamps strictly increasing, in range and past |
| Ledgers.TransfersAcceptedIff | crates/tigerbeetle-client/assets/tb_client.h:103-170 | a run of plain transfers is accepted if and only if each is acceptable in the closed-form state before it; that closed form is the final state |
| Acceptance.TransfersImportableIff | crates/tigerbeetle-client/assets/tb_client.h:103-170 | on a cluster whose accounts, balances, used ids and last timestamp are known, a converted list is accepted if and only if every transfer is well formed, in turn, and taken by both accounts on opening balance plus totals so far |
| Acceptance.PlainFlagsIff | crates/compressor/src/importer.rs:328-354 | conversion leaves the bare imported flag if and only if none of the eight kind flags is set |
| Importers.AccountFlagsPreserved | crates/compressor/src/importer.rs:270-303 | every original flag survives conversion at its own bit, `imported` is set, and no bit beyond these six appears |
| Importers.TransferFlagsPreserved | crates/compressor/src/importer.rs:328-354 | each of the eight kind flags survives conversion at its own bit, `imported` is set, and no other bit appears |
| Importers.ConversionKeepsFields | crates/compressor/src/importer.rs:270-371 | an account keeps every field but balances and the reserved word, which become 0; a windowed transfer keeps every field; a synthetic one gets no user data and no kind |
| Importers.ConvertedTotals | crates/compressor/src/importer.rs:328-371 | conversion of a whole window for replay changes no account's debit or credit total |
| Importers.BatchesTileTheEvents | crates/compressor/src/importer.rs:111-221 | the first k batches concatenate to a prefix of genesis, accounts, synthetic, windowed; all batches give the whole; each is nonempty, at most 8000 long and within one phase |
| Importers.BatchesAreFull | crates/compressor/src/importer.rs:120-121 | only the last batch of a phase may be shorter than 8000 |
| Importers.PhasesAre | crates/compressor/src/importer.rs:111-221 | four phases under these names, one for each list of the plan |
| Importers.ProgressCountsRecords | crates/compressor/src/importer.rs:129-136 | per phase, under its name, the progress counts strictly increase, equal the records accepted so far and end at the total, which every report gives |
| Importers.NoFailuresIff | crates/compressor/src/importer.rs:123-128 | a batch reports no failure if and only if running its events in order is accepted |
| Importers.Client.Create | crates/compressor/src/importer.rs:123-124 | one request: the failures, or a transport error after which the batch may or may not have been applied |
| Importers.Importer.SendChunk | crates/compressor/src/importer.rs:121-136 | sends one batch; any failure ends the import without progress |
| Importers.Importer.ImportPhase | crates/compressor/src/importer.rs:117-137 | the chunk loop sends the batches of a phase up to the first failure |
| Importers.Importer.ImportAllWithProgress | crates/compressor/src/importer.rs:111-221 | the four phases in order, up to the first failure |
| Importers.PhasesAreOnePass | crates/compressor/src/importer.rs:111-221 | phase by phase is the same as one pass over all batches |
| Importers.ImportRun | crates/compressor/src/importer.rs:111-221 | every run submits a prefix cut at a batch boundary and reports exactly the accepted batches; it returns Ok if and only if all was delivered and the whole sequence accepted |
| Replay.SyntheticNumbers | crates/compressor/src/plan.rs:279-330 | ids are 1, 2, ..., timestamps floor + 1, floor + 2, ..., and the code is 999 |
| Replay.RegularTotals | crates/compressor/src/plan.rs:295-328 | the synthetic transfers give every account exactly its balances |
| Replay.GenesisTotals | crates/compressor/src/plan.rs:295-328 | they give the genesis accounts of a ledger the sums of its balances, on one side only |
| Replay.GenesisBalancedIff | crates/compressor/src/plan.rs:20-22 | the two genesis totals are equal if and only if the ledger's debit and credit sums are |
| Replay.ConservationAtEveryPrefix | crates/compressor/src/plan.rs:292-330 | at every prefix, a ledger's genesis debits equal the credits so far given to its accounts, and likewise on the other side |
| Replay.CreditSideAcceptedIff | crates/compressor/src/plan.rs:295-311 | a credit-side transfer is accepted if and only if the account allows credits, sums fit and its timestamp is in the past |
| Replay.DebitSideAcceptedIff | crates/compressor/src/plan.rs:313-328 | a debit-side transfer is accepted if and only if the account allows it after its credits, sums fit and its timestamp is in the past |
| Replay.SyntheticAcceptedIff | crates/compressor/src/plan.rs:292-330 | on a ledger that holds the accounts, all synthetic transfers are accepted if and only if the accounts are replayable |
| Migration.Timeline | crates/compressor/src/plan.rs:196-254 | timestamps strictly increase over genesis and regular accounts together |
| Migration.PlanIdsDistinctIff | crates/compressor/src/plan.rs:182-183 | a plan's account ids are distinct if and only if the input's are and none is a genesis id of a ledger in use |
| Migration.AccountPhasesAcceptedIff | crates/compressor/src/importer.rs:111-164 | an empty ledger accepts both account phases if and only if the accounts are creatable |
| Migration.FloorBounds | crates/compressor/src/plan.rs:256-277 | the floor lies at or after all genesis accounts and all accounts with a balance (without a cutoff, all accounts); it is the timestamp of such an account, or the last genesis timestamp if there is none |
| Migration.PlanRuns | crates/compressor/src/importer.rs:111-221 | importing a plan runs its accounts, then synthetic, then windowed transfers |
| Migration.ThreePhasesAcceptedIff | crates/compressor/src/importer.rs:111-188 | accounts and synthetic transfers are accepted if and only if the accounts are importable; the final state in closed form |
| Migration.SyntheticRestores | crates/compressor/src/plan.rs:279-330 | after the synthetic phase every account holds exactly its planned balances, ledger, code, user data and flags |
| Migration.SyntheticGenesis | crates/compressor/src/plan.rs:47-53 | after the synthetic phase the genesis accounts hold the sums of their ledger |
| Migration.SnapshotMigration | crates/compressor/src/plan.rs:169-341 | importing a snapshot plan is accepted if and only if the accounts are importable, and then restores every posted balance and the genesis sums |
| Migration.CutoffPlusWindowIff | crates/compressor/src/plan.rs:122-141 | cutoff balance plus window totals is the final balance, without saturation, if and only if the window explains the account |
| Migration.OpeningBalances | crates/compressor/src/plan.rs:279-330 | what a plan leaves on an account before the window is its planned balance, and on a genesis account the sum of its ledger |
| Migration.PlanClusterDescribes | crates/compressor/src/plan.rs:279-330 | accounts, balances, used transfer ids and last timestamp that the first three phases leave, from the accounts alone |
| Migration.WindowedAcceptedIff | crates/compressor/src/plan.rs:109-146 | a windowed plan is accepted if and only if accounts at the cutoff and window are importable; the final state in closed form |
| Migration.WindowedMigration | crates/compressor/src/plan.rs:109-146 | accepted if and only if accounts at the cutoff and window are importable; then the window is posted transfer by transfer as it was, every new account holds what the window moved and every old one the greater of that and its final balance, and it is the final balance if and only if the window explains it |
| Migration.IdCollisionRejected | docs/rotate-archive-impl-plan.md:220-237 | a windowed transfer with the id of a synthetic one makes the import fail |
| Witnesses.IdCollisionExample | docs/rotate-archive-impl-plan.md:220-237 | two accounts and the one windowed transfer that explains them, one synthetic transfer: for every id and every late enough clock, accepted if and only if the transfer's id is above 1 and not reserved |
| Ordering.SyntheticOrdering | crates/compressor/src/plan.rs:256-330 | synthetic timestamps lie after every genesis account and every account with a balance, and all below the cutoff if and only if floor + n is |
| Ordering.NoRoomBelowCutoff | crates/compressor/src/plan.rs:101-108 | an account with a balance created right before the cutoff always breaks the documented order |
| Ordering.NoRoomExample | crates/compressor/src/plan.rs:101-108 | a concrete ledger and cutoff on which the documented order fails |
| Ordering.AfterAllAccountsIff | docs/rotate-archive-impl-plan.md:204-210 | every synthetic transfer is later than every account if and only if there is none or no account is later than the floor |
| Ordering.EmptyAccountAfterTransfers | docs/rotate-archive-impl-plan.md:204-210 | a concrete windowed plan with an account later than the synthetic transfers |
| Ordering.TimestampSharedIff | crates/compressor/src/plan.rs:256-277 | an account and a synthetic transfer share a timestamp exactly when an account lies in the slots after the floor, never in snapshot mode |
| FileMigration.ExecuteMigration | crates/manager-node/src/grpc_service.rs:989-1070 | reads the file, refuses without touching the cluster on a read error (so from any damaged file) or while any account has pending debits or credits, reporting how many do; otherwise imports the requested plan, so after a success no account read had either |
| FileMigration.FileToCluster | crates/manager-node/src/grpc_service.rs:971-1070 | whatever was read: the import reports success if and only if all is delivered and the accounts are importable, and then every account of the file whose own version is certain holds the posted balances of its record |
| FileMigration.FileToClusterWindowed | crates/manager-node/src/grpc_service.rs:971-1070 | the same with a cutoff and the window read from the file: the window is posted as it was, cutoff balance plus window, which is the final balance if and only if the window explains the account; the window holds meant transfers only, and every one whose own id is decided |
| FileMigration.WrittenFileToCluster | crates/manager-node/src/grpc_service.rs:971-1070 | the accounts of a written file are read, and if their import reports success every account written once in it holds the balances that were written |
| FileMigration.CertainAccountsRead | crates/manager-node/src/grpc_service.rs:1350-1384 | no account whose own version is certain is lost between the file and the plan, whatever becomes of the others |
| FileMigration.UnmergedTablesRejected | crates/manager-node/src/grpc_service.rs:1372-1374 | with no account in the log, two live tables that hold one id make the accounts unimportable in every mode, for every window, cutoff and clock |
| FileMigration.UnmergedExample | crates/manager-node/src/grpc_service.rs:1372-1374 | two tables with an old and a new version of account 7 and an empty log: the import fails for every order of the tables |
| Service.CountPending | crates/manager-node/src/grpc_service.rs:996-1005 | the number of accounts with pending debits or pending credits |
| Service.PlanMigration | crates/manager-node/src/grpc_service.rs:1007-1030 | windowed plan with a cutoff, snapshot plan without, stripped to accounts on request |
| Service.StripToAccounts | crates/manager-node/src/grpc_service.rs:1018-1030 | the accounts-only rewrite keeps the accounts in every field but their four balances, which become 0, and nothing else |
| Service.SnapshotExecution | crates/manager-node/src/grpc_service.rs:971-1070 | end to end without a cutoff: success if and only if all was delivered and the accounts are importable; then all balances are restored |
| Service.WindowedExecution | crates/manager-node/src/grpc_service.rs:971-1070 | end to end with a cutoff: success if and only if all was delivered and accounts and window are importable; then every account holds cutoff balance plus window |
| Service.AccountsOnlyMigration | crates/manager-node/src/grpc_service.rs:1007-1030 | an accounts-only migration, with or without a cutoff, is accepted if and only if the accounts are creatable, and leaves every account at zero |
| Service.EmptyAccountsDescribes | crates/manager-node/src/grpc_service.rs:1018-1030 | the cluster it leaves: the planned accounts, no balance, no transfer |
| CsvPlanning.Aggregate | crates/manager-node/src/grpc_service.rs:1467-1471 | the map holds exactly the occurring keys, each with its total amount |
| CsvPlanning.SynthesizeFromCsv | crates/manager-node/src/grpc_service.rs:1473-1492 | one synthetic transfer per key in hash-map order, numbered and timestamped consecutively; the final sort changes nothing |
| CsvPlanning.BuildPlanFromCsv | crates/manager-node/src/grpc_service.rs:1443-1504 | for every hash-map order, the specified split, aggregation, sorting and deduplication |
| CsvPlanning.KeysCoverTotals | crates/manager-node/src/grpc_service.rs:1467-1471 | summing a total over any enumeration of the keys covers every transfer exactly once |
| CsvPlanning.CompressionKeepsTotals | crates/manager-node/src/grpc_service.rs:1443-1504 | for every cutoff, list and order, compressed and verbatim replay give every account the same totals |
| CsvPlanning.CsvPlanAcceptedIff | crates/manager-node/src/grpc_service.rs:1443-1504 | for one given hash-map order: a CSV plan is accepted on a known cluster if and only if its transfers are importable, and then adds to every account its totals in the CSV list |
| CsvOrders.AcceptedInEveryOrderIff | crates/manager-node/src/grpc_service.rs:1443-1504 | every hash-map order is accepted if and only if list and cluster meet `CsvImportable`, which names no order; each accepted order adds to every account its totals in the CSV list and posts the transfers since the cutoff in every field but their timestamps as they were |
| CsvOrders.KeysNecessary | crates/manager-node/src/grpc_service.rs:1473-1492 | if the compressed transfers are importable in every order, then the timestamps fit, every account they use is older than all of them, and its opening balance alone covers them |
| Witnesses.OrderDecidesExample | crates/manager-node/src/grpc_service.rs:1473-1492 | a list, a cutoff and a cluster with a limited account: accepted when the account is credited first, rejected when it is debited first |
| CsvCompression.CompressionPreservesBalances | crates/manager-node/src/grpc_service.rs:1443-1504 | if verbatim replay is accepted, compressed replay is accepted in every order if and only if there is room (free ids, older accounts, limits without help from the other side); whenever both are accepted all balances are the same |
| CsvCompression.WindowedNoLater | crates/manager-node/src/grpc_service.rs:1494-1516 | a transfer since the cutoff is replayed after compression exactly as verbatim, except that its timestamp may be earlier |
| CsvMigration.AccountsThenCsv | crates/manager-node/src/grpc_service.rs:1158-1162 | after an accounts-only migration, for one given order: accepted if and only if the planned transfers are importable on empty accounts, and then every account holds its CSV totals |
| CsvMigration.AccountsThenCsvInEveryOrder | crates/manager-node/src/grpc_service.rs:1158-1162 | the same for all orders: certain to be accepted if and only if the CSV list is importable on empty accounts |
| CsvMigration.CsvExecution | crates/manager-node/src/grpc_service.rs:1111-1185 | batch by batch over a network, for one given order: success if and only if all is delivered and importable |
| CsvMigration.CsvExecutionInEveryOrder | crates/manager-node/src/grpc_service.rs:1111-1185 | batch by batch over a network: certain to succeed if and only if as many requests as the list asks for are delivered and the list is importable on the cluster |
| CsvMigration.CsvIdCollisionRejected | crates/manager-node/src/grpc_service.rs:1473-1496 | if the list holds a transfer since the cutoff with an id among 1..N, where N is the number of keys before it, the import fails for every order |
| Witnesses.CsvIdCollisionExample | crates/manager-node/src/grpc_service.rs:1473-1496 | one transfer before and one since the cutoff: accepted if and only if the id of the second is above 1 and not reserved |
| CsvPlanning.SyntheticWindowIff | crates/manager-node/src/grpc_service.rs:1473-1492 | synthetic timestamps are positive and below the cutoff if and only if there are fewer keys than the cutoff; then they fill the slots just below it; ids are 1, 2, ... and the code is 999 |
| CsvPlanning.WindowedAfterCutoff | crates/manager-node/src/grpc_service.rs:1494-1496 | windowed timestamps are strictly increasing, positive and not before the cutoff |
| CsvPlanning.WindowedUnchanged | crates/manager-node/src/grpc_service.rs:1494-1516 | transfers since the cutoff with different timestamps are replayed with the timestamps they have |
| CsvPlanning.PlanCsvMigration | crates/manager-node/src/grpc_service.rs:1256-1293 | the reported counts equal the lengths of the plan that execution will build, for every order |
| TimeBasedId.IdsStrictlyIncrease | crates/tigerbeetle-client/src/time_based_id.rs:67-134 | over every run, for any clock and any randomness, ids strictly increase while milliseconds fit 48 bits |
| TimeBasedId.PackSplits | crates/tigerbeetle-client/src/time_based_id.rs:70-78 | a packed id splits back into its milliseconds and its 80 random bits |
| TimeBasedId.PackOrder | crates/tigerbeetle-client/src/time_based_id.rs:70-78 | packed ids order states by milliseconds, then randomness |
| TimeBasedId.DrawTaken | crates/tigerbeetle-client/src/time_based_id.rs:67-134 | a draw of 80 bits is taken as it is, and of a longer one the low 80 bits count |
| TimeBasedId.NextIdIs | crates/tigerbeetle-client/src/time_based_id.rs:67-134 | the next id in numbers: clock and draw when the clock is ahead, else one more, or on overflow the next millisecond and a new draw |
| TimeBasedId.AheadOfClockBound | crates/tigerbeetle-client/src/time_based_id.rs:81-134 | milliseconds never fall behind the greatest clock seen and never run ahead of it by more than the number of overflows |
| TimeBasedId.NextIdLargerIff | crates/tigerbeetle-client/src/time_based_id.rs:67-134 | while the current milliseconds fit 48 bits, the next id is larger if and only if the clock's low 48 bits, or else the draw, are ahead, or the carry stays within 48 bits |
| TimeBasedId.OrderLostBeyond48Bits | crates/tigerbeetle-client/src/time_based_id.rs:78-78 | beyond 48 bits an id can be smaller than the one before |
| TimeBasedId.TbidGenerator.NextFromSystemTime | crates/tigerbeetle-client/src/time_based_id.rs:67-134 | one call moves to the next state and returns its packed id |
| TimeBasedId.GlobalGenerator.Id | crates/tigerbeetle-client/src/time_based_id.rs:31-43 | the global generator is created on first use and then advanced once per id |
| TimeBasedId.Generate | crates/tigerbeetle-client/src/time_based_id.rs:181-213 | a loop of calls returns the ids of the run, strictly increasing |

## Left out

- Migration.WindowedMigration: covers windows of plain posted transfers; the abstract ledger refuses pending, posting, voiding, balancing, closing and linked transfers and linked accounts, and has no pending balances, because the planner's deltas ignore them.
- The `exists` family of rejections is one rejection, whether or not the other fields agree, and ids of failed transfers are not remembered.
- Machine width: record fields are natural numbers. The ledger checks its own 128-bit and 2^63 bounds; unchecked additions of the source (index-block offsets, deduplication at the greatest timestamp, `manifest_block_count + 1`, `page * limit`, window and CSV sums) are modelled without wrap-around.
- Superblock parsing: its result is an input record.
- DataFile.OpenLsm: models the build without debug assertions, in which a live table at address 0 is read from the block before the grid zone; a debug build stops there.
- Ledgers.TransfersAcceptedIff: the abstract ledger refuses linked, pending, posting, voiding, balancing and closing transfers, which the client interface allows.
- Manifest.WalkManifest: models the two loops of manifest.rs as one walk with an optional tree filter, because they differ in nothing else.
- Importers.Importer.ImportPhase: models the four chunk loops as one method called for each phase in order, because they differ only in conversion and phase name; the connection probe, and a receiver that drops progress, are left out.
- CsvPlanning.PlanCsvMigration: leaves out the timestamp range and per-ledger summary of the report.
- The import helpers without progress (`import_accounts`, `import_transfers`), which repeat the same loops.
- The foreign client, its status-code tables, remote procedures and log streaming, process manager, scheduler, archive upload, compression and configuration: external effects without a property of this kind.
- Checksums, replication and state sync: described in the documents, not implemented in these files.
- Vectors local to a function are sequences rather than arrays; only `dedupe_timestamps` and the block buffer are updated in place.
