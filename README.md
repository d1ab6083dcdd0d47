# A ledger with one chain and one queue, in Dafny

This project models the core of a single-process ledger engine written in
Rust. Clients build value-transfer transactions that sign themselves. The
ledger admits them through a validation gate into a transaction pool and a
bounded FIFO queue of 100 000 entries. A processing step drains up to a batch
of queued transactions. It applies each one to an account-balance table, then
seals them into a block linked to the chain tip, mined to two leading hex
zeros, and appends that block. A small monitor keeps statistics over the last
100 batches.

The Dafny modules follow the source files:

- `Crypto` (`crypto.dfy`) holds `u64` wrap-around, UUIDs, timestamps and the SHA-256 digests. The digests are passed around as opaque function values.
- `Errors` (`errors.dfy`) holds `LedgerError`. Each message string the checks choose between is its own sub-case.
- `Transactions` (`transaction.dfy`) models `src/transaction.rs`.
- `Blocks` (`block.dfy`) models `src/block.rs`. The block is a class whose `nonce` and `hash` fields are changed by `Mine`.
- `Balances` (`balances.dfy`) holds the balance table and the per-transaction update of `src/ledger.rs`. It also holds the conservation lemmas.
- `Ledger` (`ledger.dfy`) models the `DistributedLedger` state machine of `src/ledger.rs` as a class.
- `Performance` (`performance.dfy`) models the integer parts of `src/performance.rs` as a class.

SHA-256, the JSON serialisation inside `Transaction::hash`, UUID v4 generation
and the wall clock are not interpreted. Digests are fields of a `Digests`
value that every hashing operation receives. Every proof therefore holds for
every choice of hash functions. Fresh UUIDs and the current time are
parameters of the operations that would generate them.

Some behaviour of the code is kept as written:

- The pool entry is inserted before the queue send that can fail. A transaction refused because the queue is full is refused as a duplicate afterwards.
- The pool is never emptied.
- Balances are not re-checked when a batch commits. From a funded balance table, two transfers admitted against the same balance can together overdraw the sender. The `u64` subtraction then wraps, as it does in a release build.
- `process_transactions` calls `record_batch` without `.await` (`src/ledger.rs:132`), so the statistics are never updated. Lines 131-134 are therefore not modelled, and the ledger model does not touch the monitor.

No account can ever be funded. The only transactions that skip the balance check (`src/ledger.rs:58-59`) have an empty sender, and `validate` rejects an empty sender (`src/transaction.rs:61-65`). The demos fund accounts that way, so their first call already fails. A ledger built by `new` has no balances and an empty queue. `AddTransaction` then always fails, and both it and `ProcessTransactions` keep that state. So every state reachable from `new` is unfunded. The joint overdraft (`JointOverdraftWraps`, `JointOverdraftAdmitted`) is proved about a funded balance table that `new` cannot produce. It describes what the code does once an account holds money. `AbsentSenderMints` describes the per-transaction update on its own, and that branch is never reached through `add_transaction`. An admitted sender already has an account holding at least the positive amount (`AdmittedSenderHasAccount`). The ledger invariant keeps every queued sender in the balance table, because no key is ever removed. So the sender's `or_insert(0)` at `src/ledger.rs:106` never runs.

## Model

| member | source | states |
|---|---|---|
| `Transactions.CalculateSignature` | src/transaction.rs:32-46 | the signature is the digest of the id, sender, receiver, amount and the whole seconds of the timestamp, and nothing else |
| `Transactions.Hash` | src/transaction.rs:85-89 | the record digest covers every field, including the signature and the full timestamp |
| `Transactions.New` | src/transaction.rs:17-30 | the record keeps the given id, time, endpoints and amount; its own signature never fails, and it validates iff amount > 0, the endpoints differ and neither is empty |
| `Transactions.Validate` | src/transaction.rs:48-83 | checks run in the order amount, same endpoints, empty endpoint, signature, and the first failing check's error is returned; Ok iff all five conditions hold; every error is `InvalidTransaction` |
| `Transactions.SenderlessNeverValidates` | src/transaction.rs:61-65 | a transaction with an empty sender never validates: "empty" error when the amount and receiver are set, "same" error when both endpoints are empty |
| `Transactions.SubsecondTimeUnsigned` | src/transaction.rs:32-46 | only the whole seconds of the timestamp are signed, so changing the sub-second part does not change the validation result |
| `Blocks.Target` | src/block.rs:52 | the target is `difficulty` characters, each `'0'` |
| `Blocks.MeetsTargetByDigits` | src/block.rs:54 | `starts_with(target)` holds iff the first `difficulty` hex characters of the hash are `'0'` |
| `Blocks.TxHashes` | src/block.rs:43-46 | the block hash covers one digest per transaction, in block order |
| `Blocks.ValidateAll` | src/block.rs:81-86 | the transaction loop succeeds iff every transaction validates; any error it returns is a transaction error |
| `Blocks.ValidateAllReportsFirst` | src/block.rs:81-86 | the loop's error is the error of the first failing transaction |
| `Blocks.Block.CalculateHash` | src/block.rs:36-49 | the block hash is the digest of the id, the link, the whole seconds of the timestamp, the current nonce and the transaction digests in block order |
| `Blocks.Block.constructor` | src/block.rs:18-34 | nonce is 0, the hash is the current `calculate_hash`, and the link and transactions are as given |
| `Blocks.Block.Mine` | src/block.rs:51-58 | changes only nonce and hash; success iff the hash starts with `difficulty` zeros; each step adds 1 to the nonce (wrapping at 2^64); no step when the target is already met or difficulty is 0; no earlier nonce met the target; a consistent cached hash stays consistent |
| `Blocks.Block.Validate` | src/block.rs:60-87 | "Invalid block hash" iff the cached hash is stale; then a wrong link gives "Invalid previous hash" (with a predecessor) or the genesis error (without one, for a non-empty link); Ok iff the hash is fresh, the link holds and every transaction validates; proof-of-work is not re-checked |
| `Balances.Balance` | src/ledger.rs:144-148 | a missing account reads as 0 |
| `Balances.Debit` | src/ledger.rs:103-107 | a present sender loses `amount` (wrapping below 0), an absent sender is created with 0, and the other accounts are unchanged |
| `Balances.Credit` | src/ledger.rs:109-111 | a present receiver gains `amount`, an absent receiver is created holding `amount`, and the other accounts are unchanged |
| `Balances.Transfer` | src/ledger.rs:102-112 | one processed transaction adds both endpoints as keys and removes none; debits the sender, credits the receiver, and leaves every other account unchanged |
| `Balances.ApplyBatchKeepsAccounts` | src/ledger.rs:102-112 | applying a batch never removes an account and creates every receiver |
| `Balances.TransferConserves` | src/ledger.rs:102-112 | when sender and receiver differ, the sender holds at least `amount` and the receiver does not overflow, a transfer keeps the sum of all balances |
| `Balances.AbsentSenderMints` | src/ledger.rs:104-111 | a transfer from an unknown sender creates that sender with 0 and still credits the receiver, so the sum grows by `amount` |
| `Balances.ApplyBatchConserves` | src/ledger.rs:102-112 | a batch whose every transfer is covered by the balances it meets keeps the sum of all balances |
| `Balances.JointOverdraftWraps` | src/ledger.rs:102-106 | two transfers of 5 that are each covered by a balance of 5 wrap the sender to 2^64 - 5 when processed together |
| `Ledger.ChainTransactions` | src/ledger.rs:150-153 | the transactions of the chain in order; their number is the per-block count summed |
| `Ledger.PooledOnceSplit` | src/ledger.rs:54-56 | when the chain and the queue together hold each id once, each holds each id once and no id is in both: no transaction is included twice |
| `Ledger.PooledOnceDropMiddle` | src/ledger.rs:86-92 | removing the drained batch from between the chain and the queue keeps every id pooled and distinct |
| `Ledger.PooledOnceExtend` | src/ledger.rs:54-77 | queueing a transaction whose id was not pooled, and pooling it, keeps every id pooled and distinct |
| `Ledger.CommitKeepsPooledOnce` | src/ledger.rs:120-129 | appending the block that holds the batch keeps the chain and queue ids pooled and distinct |
| `Ledger.ChainLinked` | src/ledger.rs:115-129 | in a ledger's chain the genesis link is empty, every later block names its predecessor's hash, and every cached hash is current |
| `Ledger.ChainExtend` | src/ledger.rs:123-129 | appending a block that validates against the tip and meets the target keeps the chain valid |
| `Ledger.Admission` | src/ledger.rs:49-77 | errors in the order validation, `DuplicateTransaction`, `InsufficientBalance` (missing balance = 0), queue full; Ok iff the transaction is well formed, new, covered, and the queue has room |
| `Ledger.FullQueueThenDuplicate` | src/ledger.rs:70-77 | a transaction refused for a full queue is later refused as a duplicate, whatever the queue length and balances then |
| `Ledger.AdmittedSenderHasAccount` | src/ledger.rs:58-67 | an admitted transaction's sender is already an account holding at least its positive amount |
| `Ledger.UnfundedAdmitsNothing` | src/ledger.rs:58-67 | while every balance is 0, one admission check never admits a transaction |
| `Ledger.JointOverdraftAdmitted` | src/ledger.rs:59-67 | two transfers of 5 from an account holding 5 are both admitted, and processing them wraps the sender |
| `Ledger.DistributedLedger.constructor` | src/ledger.rs:22-37 | one genesis block with an empty link, no transactions and nonce 0; empty balances, pool and queue; the ledger invariant holds, and the ledger is unfunded |
| `Ledger.DistributedLedger.InitializeGenesisBlock` | src/ledger.rs:39-47 | appends one new unmined block with an empty link and no transactions, and changes nothing else |
| `Ledger.DistributedLedger.AddTransaction` | src/ledger.rs:49-80 | returns the admission result; pools the id on success and on the queue-full path; appends to the back of the queue only on success; leaves balances and blocks unchanged; keeps the queue within 100 000, every queued sender an account, and every id of the chain and queue pooled and distinct; an unfunded ledger always refuses and stays unfunded |
| `Ledger.DistributedLedger.ProcessTransactions` | src/ledger.rs:82-137 | removes the first min(n, queue length) entries; applies them to the balances in queue order; appends exactly one block holding them in that order, linked to the old tip and meeting the target; never returns an error; an empty drain changes nothing; the pool is untouched and never emptied; an unfunded ledger stays unfunded with no new block |
| `Ledger.DistributedLedger.CollectBatch` | src/ledger.rs:83-92 | the batch is the queue's first min(n, length) entries and the queue keeps the rest; every batch sender is already an account; the ids of chain, batch and rest stay pooled and distinct |
| `Ledger.DistributedLedger.ApplyBalances` | src/ledger.rs:101-112 | the balances become the batch applied one transaction after another |
| `Ledger.DistributedLedger.CommitBlock` | src/ledger.rs:114-129 | the block built on the tip validates against it and is appended; the chain invariant is kept |
| `Ledger.DistributedLedger.AppendBlock` | src/ledger.rs:126-129 | pushes the block after the tip and changes nothing else; the chain invariant and the id invariant are kept |
| `Ledger.DistributedLedger.SealBlock` | src/ledger.rs:120-121 | the new block holds the batch and the tip link; its hash is consistent; success iff it meets difficulty 2 |
| `Ledger.DistributedLedger.LatestBlock` | src/ledger.rs:139-142 | the tip always exists and is the last block |
| `Ledger.DistributedLedger.GetBalance` | src/ledger.rs:144-148 | a missing account reads as 0; otherwise the stored balance |
| `Ledger.DistributedLedger.GetTransactionCount` | src/ledger.rs:150-153 | the number of transactions in the blocks after genesis (genesis holds none) |
| `Performance.PerformanceMonitor.constructor` | src/performance.rs:27-37 | zero counter and empty windows |
| `Performance.PerformanceMonitor.RecordBatch` | src/performance.rs:39-50 | adds the batch size to the counter; the newest time and size are last in their windows; the oldest entry of each is dropped only when the windows would exceed 100; the windows stay equal in length |
| `Performance.PerformanceMonitor.GetStats` | src/performance.rs:64-89 | reports the counter and the window's mean batch time, or 0 for an empty window; changes nothing |

## Left out

- Concurrency is left out: the `RwLock`, the `DashMap`s, the crossbeam channel and its receiver clones, and `block_in_place`/`block_on`. The model is one sequential state with one call at a time.
- `start_background_processor` (`src/ledger.rs:159-172`) is left out. It only calls `process_transactions(1000)` every 10 ms.
- `Clone for DistributedLedger` is left out, because it only shares the same stores.
- `get_performance_stats` (`src/ledger.rs:155-157`) is left out. Because `record_batch` is never awaited, it would only report the monitor's initial zeros.
- SHA-256, serde_json, UUID v4 generation, `chrono` and hex formatting are left uninterpreted. No claim is made about collisions.
- `u64` overflow is modelled as wrap-around, as in a release build. The panic a debug build raises is not modelled.
- The floating-point and clock parts of the monitor are left out: `transactions_per_second`, `peak_tps`, `last_reset` and `Instant::elapsed`. Durations are whole nanoseconds, and the processing time is a parameter.
- `Blocks.Block.Mine`: does not prove that mining terminates, because the hash is opaque. The search stops after `fuel` increments and reports whether the target was found.
- `Ledger.DistributedLedger.ProcessTransactions`: when the nonce search runs out of fuel it returns `StillMining` with no new block. The real call keeps searching and never returns, so this outcome stands for that state.
- `Ledger.DistributedLedger.LatestBlock`: returns the ledger's own tip object, while `get_latest_block` returns a clone (`src/ledger.rs:141`). The ledger keeps no ownership set for its blocks. So the model does not rule out a caller changing the returned tip (with `Mine`, say) and breaking the ledger invariant. The source's clone cannot do that.
- `Errors.Message`, `Errors.TxFaultText` and `Errors.BlockFaultText` only record the `#[error]` display texts; no member uses them. `DuplicateBlock` and `Internal` are never produced by the modelled core.
- The demo, benchmark and re-export files (`src/main.rs`, `examples/basic_usage.rs`, `benches/transaction_throughput.rs`, `src/lib.rs`) are not part of this model.
