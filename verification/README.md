# Block-window sync engine of moonriver-explorer, in Dafny

The explorer's server follows a blockchain block by block. It keeps the
transactions of a trailing window of recent blocks, plus one document per
participant address, in three collections: `states`, `transactions` and
`accounts`. `states` holds a single document with the cursor `nextBlock` and
the window size `storedBlockHeight`. This project models the engine in
`server/main.js` and proves what it guarantees:

- `insertTransaction` stores a transaction once per hash. It then updates the
  account of each endpoint: it appends the hash and overwrites `latestBlock`,
  or it creates the account after a code probe.
- `removeDocumentsBefore` detaches every transaction below a threshold from
  its endpoint accounts, deletes the accounts it leaves empty, and deletes
  those transactions.
- The body of the `transactionSyncLoop` job fetches block `nextBlock`,
  ingests its transactions, advances the cursor by one, and evicts below the
  old cursor minus the window.
- At startup the cursor is set to the chain height and the window to 20,
  and both document collections are cleared.

Layout:

- `records.dfy` (module `Records`): the documents and the blocks the ledger delivers.
- `invariants.dfy` (`Invariants`): the consistency condition `Consistent`.
  Hashes are unique. Accounts are keyed by their address and are never
  empty. Every listed hash names a stored transaction of which the account
  is an endpoint, and occurs at most once per such endpoint.
- `ingestion.dfy` (`Ingestion`), `eviction.dfy` (`Eviction`) and `sync.dfy`
  (`Sync`): the operations as functions on the collections, with their
  lemmas.
- `server.dfy` (`Server`): class `Store`, which holds the three collections
  as fields. Its methods update them in place with the loops of the source.
  Each method is proved to leave exactly the collections that its function
  describes. `InsertTransaction`, `RemoveDocumentsBefore`, `SyncCycle` and
  `Startup` are also proved to keep `Consistent`.
- `scenarios.dfy` (`Scenarios`): worked runs on a two-block window.

External answers are parameters:

- `ledger: map<int, Block>` holds the blocks that fetching answers with. A
  block number outside it is a fetch that fails.
- `codes: map<Address, string>` holds what the code probe answers. An
  address outside it is a probe that fails.
- `Option<int>` is what the chain-height query answers at startup.

The model follows the code where its behaviour is easy to misread:

- The eviction threshold is computed from the cursor before the increment
  (server/main.js:225). So a successful cycle keeps every transaction with
  `blockNumber >= nextBlock - storedBlockHeight - 1`: `storedBlockHeight + 1`
  blocks, not `storedBlockHeight`. With a window of 2, a transaction of
  block 10 survives the cycle of block 12 and goes with the cycle of block 13
  (`Scenarios.KeptAfterBlock12`, `Scenarios.EvictedAfterBlock13`). The
  comment at server/main.js:149 gives the recency range a width of 21
  blocks, which matches. Its bounds of 0 to 20 are off by one, though:
  server/main.js:229 passes the state from before the increment, so the
  recency the code computes runs from -1 to 19.
- Account hash lists are lists, not sets. A hash is appended without any
  check (server/main.js:93), so a list can hold it twice. `latestBlock` is
  overwritten with the block being ingested, not kept at the largest block
  seen (server/main.js:98).
- Startup overwrites an existing cursor with the current chain height
  (server/main.js:182), so the cursor only moves forward between two
  startups, and blocks produced while the server was down are skipped.

## Model

| member | source | states |
|---|---|---|
| Ingestion.Touch | server/main.js:49-101 | For an existing account, the hash is appended at the end of its list, `latestBlock` becomes the transaction's block, and address and `isContract` are kept. For an unknown address whose probe answers, an account is created with list `[hash]`, `isContract` iff the code is not `"0x"`, and `latestBlock` = the block. A failed probe changes nothing. No other account changes, and only the count of this hash at this address can rise, by at most one. |
| Ingestion.NewRecord | server/main.js:37-44 | No contract of its own: the stored document. Its fields (hash, block, from, to, value, timestamp × 1000) are stated by `Ingestion.InsertTx` and `Scenarios.FirstInsert`. |
| Ingestion.TouchEach | server/main.js:47-49 | Accounts of addresses outside the endpoint list are untouched. |
| Ingestion.InsertTx | server/main.js:33-104 | A hash already stored leaves both collections unchanged. Otherwise exactly one record is appended, with the transaction's hash, block, from, to and value, and timestamp = block timestamp × 1000. The accounts are touched for `from`, then `to`, and no other account changes. Afterwards the hash is stored. The state document is untouched. |
| Ingestion.IngestTxs | server/main.js:217 | No contract of its own: `insertTransaction` over the block's transactions in order. Its behaviour is stated by `Ingestion.IngestTxsSpec`, `Ingestion.IngestAppendsBlockRecords`, `Ingestion.IngestLeavesOthers`, `Ingestion.IngestIdempotent` and `Ingestion.IngestKeepsConsistent`. |
| Ingestion.IngestTxsSpec | server/main.js:217 | Ingesting a block keeps the stored transactions as a prefix, stores every hash of the block, and leaves the state document alone. |
| Ingestion.IngestAppendsBlockRecords | server/main.js:217 | Every record appended while ingesting a block is the record of one of the block's own transactions, with the block's timestamp in milliseconds. |
| Ingestion.IngestLeavesOthers | server/main.js:217 | Ingesting a block leaves the account of an address that is the sender or receiver of none of its transactions exactly as it was. An absent account stays absent. |
| Ingestion.IngestKnownIsNoop | server/main.js:34-35 | Transactions whose hashes are all stored change nothing, whatever the timestamp and probe answers. |
| Ingestion.IngestIdempotent | server/main.js:34-35 | Ingesting the same block twice gives the same collections as ingesting it once, even when the retry sees other probe answers. |
| Ingestion.TouchKeepsShape | server/main.js:77-100 | An account update keeps every account keyed by its own address and non-empty. |
| Ingestion.InsertKeepsConsistent | server/main.js:33-104 | Storing a transaction preserves `Consistent`. |
| Ingestion.IngestKeepsConsistent | server/main.js:217 | Ingesting a block preserves `Consistent`. |
| Eviction.IndexOf | server/main.js:121 | `indexOf` gives -1 exactly when the hash is absent, and otherwise the position of its first occurrence. |
| Eviction.RemoveFirst | server/main.js:120-122 | `indexOf` plus `splice` removes exactly one occurrence of the hash as a multiset, or nothing when the hash is absent. |
| Eviction.RemoveFirstCount | server/main.js:120-122 | The number of the removed hash falls by one, down to zero, and every other hash keeps its number. |
| Eviction.Detach | server/main.js:115-133 | A missing account is skipped. Otherwise one occurrence is removed (this count is stated by `Eviction.DetachCount`), and an account whose list becomes empty is deleted. The touched account is never left empty. No account is added and no other account changes. |
| Eviction.DetachShape | server/main.js:115-133 | One detach keeps every account keyed by its address and non-empty, and a surviving account keeps its address, `isContract` and `latestBlock`. |
| Eviction.DetachCount | server/main.js:120-131 | Detaching lowers the count of the evicted hash at that address by one, down to zero, and no other count changes. |
| Eviction.DetachEach | server/main.js:114-115 | Over the endpoint list: no account is added, keys and non-emptiness are preserved, and accounts outside the list are untouched. |
| Eviction.DetachEachKept | server/main.js:114-133 | An account that survives the loop over the endpoint list keeps its address, `isContract` and `latestBlock`: only its hash list changes. |
| Eviction.DetachTx | server/main.js:113-134 | The same guarantees for one evicted transaction's `from` and `to`, and a surviving account keeps its address, `isContract` and `latestBlock`. |
| Eviction.DetachEachPair | server/main.js:114-133 | The per-address loop over `[from, to]` is `DetachTx`. |
| Eviction.DetachTxCount | server/main.js:113-134 | One evicted transaction removes one occurrence of its hash per endpoint (two when `from` equals `to`) and no other hash. |
| Eviction.DetachAll | server/main.js:113-134 | Over all evicted transactions: no account is added, keys and non-emptiness are preserved, a surviving account keeps its address, `isContract` and `latestBlock`, and accounts that are endpoints of no evicted transaction are untouched. |
| Eviction.DetachAllCount | server/main.js:113-134 | Each count falls by the number of endpoint slots the evicted transactions with that hash hold, down to zero. |
| Eviction.Below | server/main.js:107-109 | The query returns exactly the stored transactions with `blockNumber` below the threshold. |
| Eviction.AtOrAbove | server/main.js:139-142 | The removal leaves exactly the stored transactions with `blockNumber` at or above the threshold. |
| Eviction.Evict | server/main.js:106-143 | No contract of its own: detach the transactions below the threshold, then delete them. Its behaviour is stated by `Eviction.EvictSpec`, `Eviction.DetachAllCount` and `Eviction.EvictKeepsConsistent`. |
| Eviction.EvictSpec | server/main.js:106-143 | No transaction below the threshold remains. Every transaction at or above it stays. No account is created, no account is left empty, a surviving account keeps its address, `isContract` and `latestBlock`, and the state document is untouched. |
| Eviction.DropCovers | server/main.js:113-122 | An evicted transaction accounts for every occurrence its endpoints may hold. |
| Eviction.AtOrAboveUnique | server/main.js:139-142 | The kept transactions still have distinct hashes. |
| Eviction.EvictedCountGone | server/main.js:113-134 | An account that holds an evicted transaction's hash no more often than it is an endpoint of it holds none of it afterwards. |
| Eviction.EvictKeepsReference | server/main.js:106-143 | Every hash still listed after eviction names a kept transaction of which the account is an endpoint at least as often. |
| Eviction.EvictKeepsConsistent | server/main.js:106-143 | Eviction preserves `Consistent`: no empty account, and no listed hash whose transaction was deleted. |
| Sync.Cycle | server/main.js:209-247 | No contract of its own: one run of the job body. Its behaviour is stated by `Sync.CycleIdle`, `Sync.CycleAdvances`, `Sync.CycleSteps` and `Sync.CycleKeepsConsistent`. |
| Sync.Fetched | server/main.js:215-225 | No contract of its own: the branch for a fetched block. `Sync.CycleSteps` ties it to `Sync.Cycle`, and `Server.Store.ProcessBlock` performs it in place. |
| Sync.Advanced | server/main.js:215-220 | No contract of its own: the collections after ingestion and the cursor advance. `Ingestion.IngestTxsSpec` and `Sync.CycleAdvances` state its effect. |
| Sync.CycleIdle | server/main.js:209-247 | With no state document, or when the fetch of block `nextBlock` fails, a cycle changes nothing. |
| Sync.CycleAdvances | server/main.js:213-225 | After a successful fetch the cursor is `nextBlock + 1` and the window size is kept. Every stored transaction has `blockNumber >= old nextBlock - storedBlockHeight`, which is `new nextBlock - storedBlockHeight - 1`. |
| Sync.CycleSteps | server/main.js:213-228 | A cycle that fetched its block is the ingestion of its transactions, then the cursor advance, then eviction below the old cursor minus the window. |
| Sync.Started | server/main.js:166-202 | Both document collections are empty. With a known height the state is `{nextBlock: height, storedBlockHeight: 20}`, whether or not a state existed. With an unknown height the state is as before. The result is `Consistent`. |
| Sync.CycleKeepsConsistent | server/main.js:209-229 | A complete cycle preserves `Consistent`. |
| Sync.Run | server/main.js:250-253 | No contract of its own: the repeated job, one cycle per tick. Its behaviour is stated by `Sync.RunCursor` and `Sync.RunWithoutState`. |
| Sync.RunCursor | server/main.js:205-257 | Over any sequence of cycles from a state document, the cursor rises by exactly the number of fetched blocks and never falls. The window size stays the same and `Consistent` is kept. |
| Sync.RunWithoutState | server/main.js:211 | Without a state document no cycle changes anything or advances. |
| Server.Store.TouchEndpoints | server/main.js:47-101 | The loop over `[from, to]` leaves exactly the accounts that `Touch` gives for `from` and then `to`. The other collections are untouched. |
| Server.Store.InsertTransaction | server/main.js:33-104 | The in-place update leaves exactly `InsertTx` of the old collections and keeps `Consistent`. |
| Server.Store.DetachTransaction | server/main.js:113-134 | The in-place `indexOf`/`splice`/remove/update of both endpoints leaves exactly `DetachTx` of the old accounts. The other collections are untouched. |
| Server.Store.RemoveDocumentsBefore | server/main.js:106-143 | The in-place eviction leaves exactly `Evict` of the old collections and keeps `Consistent`. |
| Server.Store.IngestBlock | server/main.js:217 | Inserting the block's transactions in order leaves exactly `IngestTxs` of the old collections. |
| Server.Store.ProcessBlock | server/main.js:215-228 | Handling a fetched block leaves exactly the ingestion, cursor advance and eviction of the old collections. |
| Server.Store.SyncCycle | server/main.js:209-247 | One job run leaves exactly `Cycle` of the old collections and keeps `Consistent`. |
| Server.Store.Startup | server/main.js:166-202 | Startup leaves exactly `Started` of the old collections, which are `Consistent`. |
| Scenarios.FirstInsert | server/main.js:33-104 | Inserting T1 from A to B into empty collections stores T1 with its timestamp in milliseconds and creates accounts A and B, each holding `[T1]`. |
| Scenarios.FirstBlock | server/main.js:209-225 | Window 2, cursor 10, block 10 holding T1 from A to B. Afterwards A and B each hold `[T1]`, T1 is stored, and the cursor is 11. |
| Scenarios.FailedFetch | server/main.js:243-247 | A block that is not produced yet leaves everything unchanged. |
| Scenarios.EmptyBlock | server/main.js:213-225 | An empty block only advances the cursor and evicts below the old cursor minus the window. |
| Scenarios.KeptAfterBlock12 | server/main.js:225 | After empty blocks 11 and 12 the cursor is 13 and T1 and both accounts are still stored. |
| Scenarios.DetachFirst | server/main.js:113-134 | Detaching T1 from A and then B empties both lists and deletes both accounts. |
| Scenarios.EvictFirst | server/main.js:106-143 | Evicting below 11 removes T1 and deletes A and B, whose lists become empty. |
| Scenarios.EvictedAfterBlock13 | server/main.js:225 | The cycle of block 13 leaves cursor 14 and no transactions and no accounts. |
| Scenarios.RetriedBlock | server/main.js:34-35 | Fetching block 10 a second time stores T1 once and lists it once per account. |

## Left out

- Account creation is modelled as taking effect at once. In the source the code probe's `then` runs later, when the probe answers. So two first sightings of one new address in a block (or `from` equal to `to`) can each create an account document, and a created account can arrive after that cycle's eviction. In the model the second sighting appends to the account the first one created.
- The code probe is one answer per address for a whole call (`codes: map<Address, string>`). Repeated probes of one address within a cycle cannot answer differently.
- The presentation fields of an account (`startingPosition`, `targetPosition`, `startingRotation`, `spinSign`, drawn with `Math.random`) and `updateTargetPositions` (server/main.js:145-164) are floating-point display data that no core behaviour reads.
- `ethers.utils.formatUnits(tx.value, 18)` is a library call. The stored value is the raw amount, kept as an opaque number.
- Network I/O (`getBlockNumber`, `getBlockWithTransactions`, `getCode`) is replaced by the parameters described above.
- A contract-creation transaction whose `to` is null is not modelled: every endpoint is an address.
- Job scheduling is timing and concurrency: the 6-second `replicate`, `singular`, `Jobs.clear`, and cycles that overlap because the fetch promise is not awaited. So is the race between the asynchronous startup height query and the first job run.
- Storage failures are not modelled: every insert, update and remove succeeds. The `try`/`catch` around the detaching loop (server/main.js:112-137) therefore never fires.
- Console statistics (server/main.js:232-240, including their division by zero), dotenv and settings loading (server/main.js:17-27) and `createIndex` (server/main.js:194-198) change no collection.
- Mongo's internal `_id` fields are not modelled. Accounts are identified by address and the state document by being the only one.
- Sync.CycleAdvances: states the cursor and the window bound but not the accounts. They are characterised through `Sync.CycleSteps`, `Ingestion.InsertTx`, `Eviction.DetachAllCount` and `Sync.CycleKeepsConsistent` instead.
