# VeilNetFL coordination and indexing core, in Dafny

This project models the coordination and indexing engine of VeilNetFL, a
federated-training network on NEAR. It has two halves.

- **The coordination contract** (`contracts/src/lib.rs`, `contracts/src/state.rs`).
  Clients submit training requests backed by a deposit. Workers ask to join by
  staking. Anyone can propose removing a worker or changing the base fee or the
  staking fee. The admin executes proposals by tally: a proposal is accepted
  when it has strictly more votes for than against.
- **The node's block indexer** (`node/src/indexer.rs`, `node/src/types.rs`).
  The indexer follows the chain block by block. It picks out successful
  `add_request` calls that name the local worker and queues their datasets in a
  deduplicating queue. It tracks its own liveness with a cursor, and a
  supervisor loop restarts the block stream with exponential backoff.

## Files

| file | module | contents |
|---|---|---|
| `primitives.dfy` | `Primitives` | machine integer widths; `Option`/`Result`/`Outcome`; NEAR account identifiers and their parser |
| `contract_state.dfy` | `ContractState` | the records the contract stores |
| `contract.dfy` | `CoordinationContract` | fees, account parsing, proposal enactment and the `Contract` class with one method per entrypoint |
| `node_types.dfy` | `NodeTypes` | `LatestBlockHeight` and `RequestQueue` as classes, `ModelData` and `RequestArguments` as values |
| `indexer.dfy` | `BlockIndexer` | the `Indexer` class, the health predicates, the per-block step, the backoff and the restart schedule |

## How the model is built

**Entrypoints.** Each contract entrypoint is a method on `Contract`. The calling
account and the attached deposit are parameters. Only `add_request` and
`add_worker` are `#[payable]`. Every other entrypoint goes through the NEAR
SDK's non-payable guard, so a non-zero deposit aborts it before its body runs.
The model returns `Fail(DepositNotAccepted)` for that case. A failed `require!`, a failed
`unwrap` and a checked arithmetic overflow all abort the call, and NEAR reverts
an aborted call. So a failed call returns `Fail(e)` and leaves every field
unchanged. Every entrypoint keeps the class invariant `Valid()`:
- request ids lie below the counter;
- proposal `k` carries id `k` as a `u32`;
- admitted workers are exactly the staked accounts;
- every stored request is well formed.

**Integer arithmetic.** The contract is assumed to be built with overflow
checks on, as NEAR's contract template does. The deposit product
`base_fee * epochs * workers.len()`, the `NearToken::from_near` scaling and the
request counter all abort on overflow. The model checks each step in the order
the source computes it. `proposals.len() as u32` is a truncating cast, modelled
as `% 2^32`.

**Account identifiers.** `AccountId` is a string that satisfies NEAR's account
rules:
- 2 to 64 characters;
- lower-case letters, digits and the separators `-`, `_` and `.`;
- no separator at either end, and no two separators in a row.

These rules belong to the NEAR SDK, not to this repository.

**Clocks.** The clocks are parameters, both in nanoseconds:
- `nowMonotonic` is the monotonic clock behind `Instant`. `Instant::elapsed`
  saturates at zero.
- `nowUtcNanos` is the wall clock behind `Utc::now()`.

**Blocks.** A block is reduced to the fields `handle_block` reads: its height,
its timestamp, and for each action the receiver, the status of its receipt (or
its absence) and the decoded function call. The per-block step works in two
layers:
- `StepAction` classifies one action.
- `Scan` is the specification of the action loop. The method `ScanActions`
  implements that loop and is proved against `Scan`. `HandleBlock` is then
  proved against `Scan` and `InsertedAll`.

**Backoff.** The supervisor loop of `run` is reduced to its counter logic. Each
attempt ends in one of three ways: the build fails, the run fails, or the run
returns. `Supervise` records the `backoff` calls it would make, and `Schedule`
is its specification.

### Behaviour kept as written

- **`state.rs` versus `lib.rs`.** `state.rs` declares `NetworkState` with only a
  worker `Vec`, `AddWorker(AccountId)`, and `u32` fees. `lib.rs` uses a stake map,
  `AddWorker(account, stake)`, and fees that it multiplies as `u128`. The model
  takes the shapes `lib.rs` uses: a worker set, a stake map, a candidate with an
  amount, and `u128` fees.
- **Deposit units.** The required deposit counts whole NEAR: the product goes
  through `NearToken::from_near`, which multiplies by 10^24 yoctoNEAR. The
  staking fee check in `add_worker` does the same.
- **Duplicate workers.** `add_request` charges for `workers.len()`, duplicate
  strings included, but stores the deduplicated set.
- **`add_worker`.** The candidate is always the caller, and the stake is the
  attached deposit. No entrypoint proposes admitting another account.
- **`complete_request`.** The call aborts when the caller IS one of the
  request's workers. This check looks inverted; it is kept as written.
- **Re-execution.** `execute_proposal` never looks at a proposal's status. An
  executed proposal can be executed again, and an accepted one is then enacted
  again.
- **Votes.** The contract has no vote entrypoint. Proposals are created with no
  votes and nothing ever records one, so in every reachable state no proposal
  is accepted and execution always rejects.
- **Whole seconds in `is_behind`.** `is_behind` cuts the block timestamp to whole
  seconds before comparing, and converts the threshold with
  `as_millis() as u64`, a truncating cast. A threshold of more than `i64::MAX`
  milliseconds makes chrono's `Duration` sum panic; the model returns `None`
  there.
- **Receipt status (modelled literally).** The indexer stages only actions whose
  receipt status is `SuccessReceiptId`. `add_request` returns `()`, and such a
  call would normally finish with `SuccessValue`, so the filter may never match.

## Model

| member | source | states |
|---|---|---|
| Primitives.ParseAccountId | contracts/src/lib.rs:150 | parsing a string yields an account exactly when it satisfies the NEAR account rules, and then the account is that string |
| CoordinationContract.FromNear | contracts/src/lib.rs:99 | `from_near(x)` is defined exactly when `x` times 10^24 fits in `u128`, and then it equals that product |
| CoordinationContract.RequiredDeposit | contracts/src/lib.rs:54-59 | the deposit check aborts when `base_fee * epochs` or the whole product in yoctoNEAR leaves `u128`; otherwise the demanded deposit is `base_fee * epochs * workers * 10^24` |
| CoordinationContract.DepositCheckIsExact | contracts/src/lib.rs:54-59 | unless `base_fee * epochs` alone overflows, the deposit check passes exactly when the deposit reaches the unbounded product |
| CoordinationContract.OverflowAbortsEvenWithoutWorkers | contracts/src/lib.rs:56 | an overflowing `base_fee * epochs` rejects the request even with no workers, although the demanded amount is zero |
| CoordinationContract.ParseAccountIds | contracts/src/lib.rs:68 | collecting the worker strings succeeds exactly when every string is an account, and the result holds exactly the listed accounts |
| CoordinationContract.DuplicateWorkersAreCharged | contracts/src/lib.rs:56-68 | for every worker list, repeating a listed worker leaves the stored set (or the abort) unchanged but, whenever the larger deposit is computable, demands one more share of `base_fee * epochs` whole NEAR |
| CoordinationContract.DefaultAdminDoesNotParse | contracts/src/lib.rs:34 | the admin `"0"` that `Default` writes is not an account identifier, so `Default` aborts |
| CoordinationContract.NewProposal | contracts/src/lib.rs:103-107 | a new proposal is pending with no votes, carries the given type and creator, and its id is the list length whenever that fits in `u32` |
| CoordinationContract.NoVotesMeansNoAcceptance | contracts/src/lib.rs:120-122 | a proposal with no votes is never accepted |
| CoordinationContract.EnactOnNetwork | contracts/src/lib.rs:123-132 | enacting `AddWorker` admits the candidate with its stake; `RemoveWorker` drops the worker from the set and the stake map; fee proposals leave the network alone; no other account changes |
| CoordinationContract.EnactKeepsWorkersStaked | contracts/src/lib.rs:124-131 | enactment keeps the admitted workers equal to the staked accounts |
| CoordinationContract.EnactIsIdempotent | contracts/src/lib.rs:112-143 | enacting the same proposal again changes the network no further |
| CoordinationContract.EnactOnBaseFee | contracts/src/lib.rs:133-135 | only a `ChangeBaseFee` proposal sets the base fee, to its amount |
| CoordinationContract.EnactOnStakingFee | contracts/src/lib.rs:136-138 | only a `ChangeStakeAmount` proposal sets the staking fee, to its amount |
| CoordinationContract.NewRequest | contracts/src/lib.rs:61-77 | a new request is pending with no results, is created by the caller, holds the caller's dataset as its only dataset, and keeps the given workers and epochs |
| CoordinationContract.Contract.constructor | contracts/src/lib.rs:22-39 | the initial state has no workers, stakes, requests or proposals, counter 0 and both fees 0; it satisfies the invariant, with the admin passed in |
| CoordinationContract.Contract.AddRequest | contracts/src/lib.rs:44-81 | the call aborts, naming the cause, on overflow of the deposit product, on an insufficient deposit, on an unparsable worker, or on overflow of the request counter; otherwise it stores the new request under the current id, which was free, and increments the counter, touching nothing else |
| CoordinationContract.Contract.CompleteRequest | contracts/src/lib.rs:83-92 | the call aborts if a deposit is attached (not payable), for an unknown id, or for a caller who is an assigned worker; otherwise it marks the request `Finished` and appends the result, touching nothing else |
| CoordinationContract.Contract.Submit | contracts/src/lib.rs:146-174 | appends a fresh pending proposal whose id is the old list length, and keeps the invariant |
| CoordinationContract.Contract.AddWorker | contracts/src/lib.rs:94-110 | the call aborts on overflow of `from_near(staking_fee)` or on a deposit below `staking_fee` whole NEAR, naming the cause; otherwise it appends an `AddWorker` proposal for the caller with the deposit as stake |
| CoordinationContract.Contract.ProposeRemoveWorker | contracts/src/lib.rs:146-154 | the call succeeds exactly when no deposit is attached and the worker string is an account, and then appends a `RemoveWorker` proposal; each abort names its error and changes nothing |
| CoordinationContract.Contract.ProposeChangeBaseFee | contracts/src/lib.rs:156-164 | the call fails, changing nothing, exactly when a deposit is attached; otherwise it appends a `ChangeBaseFee` proposal and changes nothing else |
| CoordinationContract.Contract.ProposeChangeStakeAmount | contracts/src/lib.rs:166-174 | the call fails, changing nothing, exactly when a deposit is attached; otherwise it appends a `ChangeStakeAmount` proposal and changes nothing else |
| CoordinationContract.Contract.ExecuteProposal | contracts/src/lib.rs:112-144 | the call aborts if a deposit is attached (not payable), then unless the caller is the admin, then unless the proposal exists; an accepted proposal is enacted and marked `Approved`, any other is marked `Rejected`; while no votes exist, execution changes neither the network nor the fees |
| NodeTypes.LatestBlockHeight.constructor | node/src/indexer.rs:206-209 | the cursor starts at the given account and height |
| NodeTypes.LatestBlockHeight.Set | node/src/types.rs:12-15 | `set` overwrites the height and keeps the account |
| NodeTypes.RequestQueue.constructor | node/src/types.rs:24-27 | the default queue is empty |
| NodeTypes.RequestQueue.AddRequest | node/src/types.rs:30-32 | `add_request` inserts the item into the set of queued items |
| NodeTypes.Inserted | node/src/types.rs:30-32 | after an insertion the item is queued, every earlier item stays, and nothing else appears |
| NodeTypes.InsertIsIdempotent | node/src/types.rs:26-32 | inserting an item that is already queued changes nothing, so a repeated insertion has no further effect |
| NodeTypes.InsertGrowsByAtMostOne | node/src/types.rs:30-32 | an insertion grows the queue by one exactly when the item is new, and by nothing otherwise |
| NodeTypes.DifferentEntriesAreBothKept | node/src/types.rs:18-22 | entries that differ in the dataset or the key are distinct, so the queue keeps both |
| NodeTypes.InsertedAllIsUnion | node/src/indexer.rs:175-177 | queueing a block's staged items one by one yields the old queue united with them, whatever their order and repetitions |
| BlockIndexer.IsRunningAt | node/src/indexer.rs:71-73 | the indexer counts as running exactly when its last update is no older than the running threshold |
| BlockIndexer.StalenessPersists | node/src/indexer.rs:71-73 | once not running, the indexer stays not running until the next update |
| BlockIndexer.IsElapsedLongerThanTimeout | node/src/indexer.rs:109-121 | panics exactly when the timeout exceeds `i64::MAX` milliseconds (the chrono `Duration` sum); otherwise true exactly when the wall-clock time since the given second strictly exceeds the timeout, to the nanosecond |
| BlockIndexer.IsBehindAt | node/src/indexer.rs:76-87 | with no block timestamp the indexer is behind; otherwise it panics exactly when the truncated threshold in milliseconds exceeds `i64::MAX`, and else is behind exactly when more than that many milliseconds have passed since the block's whole second |
| BlockIndexer.BehindInWholeSeconds | node/src/indexer.rs:76-87 | for a threshold whose milliseconds fit a chrono `Duration`, `is_behind` answers, and on a clock reading whole seconds it is a strict comparison of elapsed whole seconds with the threshold |
| BlockIndexer.HugeThresholdPanics | node/src/indexer.rs:80-83 | a threshold of 9223372036854776 seconds makes `is_behind` panic once a block has been seen |
| BlockIndexer.DefaultThresholdNeverPanics | node/src/indexer.rs:26-27 | with the default threshold of 200 seconds `is_behind` never panics |
| BlockIndexer.BehindPersists | node/src/indexer.rs:76-87 | without a new block, once behind the indexer stays behind |
| BlockIndexer.Indexer.constructor | node/src/indexer.rs:52-64 | a new indexer has no block timestamp, takes its thresholds from the options, counts as running, and counts as behind at every wall-clock reading |
| BlockIndexer.Indexer.UpdateBlockHeightAndTimestamp | node/src/indexer.rs:89-98 | the update stamps the time, records the block timestamp, moves the cursor to the block height and keeps the account; afterwards the indexer counts as running |
| BlockIndexer.NamesWorker | node/src/indexer.rs:155-159 | the `any` over the worker strings answers `true` only when the worker is listed and `false` only when it is not; `NamesWorkerFinds` and `NamesWorkerMisses` give both directions |
| BlockIndexer.NamesWorkerFinds | node/src/indexer.rs:155-159 | the `any` over the worker strings finds the local worker exactly when the worker occurs and every string before its first occurrence parses |
| BlockIndexer.NamesWorkerMisses | node/src/indexer.rs:155-159 | the `any` answers `false` exactly when the worker does not occur and every string parses; any other list panics |
| BlockIndexer.StepAction | node/src/indexer.rs:129-167 | an action fails the block with a missing receipt exactly when it targets the contract and its receipt is absent, and with a bad worker exactly when it is a successful `add_request` whose worker list panics; it stages the call's dataset and key exactly when it is a successful `add_request` naming the worker |
| BlockIndexer.ScanFailurePersists | node/src/indexer.rs:128-138 | once a prefix of the actions fails, the block fails with the same error |
| BlockIndexer.ScanErrorIsFirstAbort | node/src/indexer.rs:128-169 | the block fails exactly when some action aborts, and then with the error of the first such action |
| BlockIndexer.MissingReceiptFailsBlock | node/src/indexer.rs:131-138 | an action for the contract whose receipt is missing fails the whole block |
| BlockIndexer.ScanStagesMatchingActions | node/src/indexer.rs:128-169 | a block that does not fail stages exactly the items of the actions that stage one |
| BlockIndexer.ScanActions | node/src/indexer.rs:127-169 | the action loop stops at the first aborting action and otherwise returns the staged items in action order |
| BlockIndexer.HandleBlock | node/src/indexer.rs:122-190 | a failing block changes neither the queue nor the cursor; otherwise the cursor moves to the block and the queue gains exactly the staged items |
| BlockIndexer.BackoffDelay | node/src/indexer.rs:298-302 | the intended delay is the smaller of `2^i * multiplier` and the cap |
| BlockIndexer.BackoffIsMonotone | node/src/indexer.rs:300 | a later attempt never waits less |
| BlockIndexer.BackoffStaysCapped | node/src/indexer.rs:300 | once the delay reaches the cap, every later attempt waits the cap |
| BlockIndexer.BackoffDelayAsBuilt | node/src/indexer.rs:300 | the delay as built for release, with `u64` wrap-around, never exceeds the cap |
| BlockIndexer.BackoffWrapsToZero | node/src/indexer.rs:252-262 | as built, attempt 63 waits 0 seconds at the catch-up and build-failure sites, where the cap is intended |
| BlockIndexer.FailedRunBackoffWrapsToZero | node/src/indexer.rs:291 | as built, attempt 64 waits 0 seconds after a failed run, where 1200 s is intended |
| BlockIndexer.Supervise | node/src/indexer.rs:227-292 | the supervisor's backoff calls and final counter are the schedule of the attempt outcomes, with the counter starting at 1 and never reset |
| BlockIndexer.ScheduleAttemptsFrom | node/src/indexer.rs:227-232 | every backoff in a schedule uses a counter at least the first attempt's |
| BlockIndexer.ScheduleCountersNonDecreasing | node/src/indexer.rs:227-232 | counters along the schedule never decrease, and the first attempt already uses 1 |
| BlockIndexer.SameSiteDelaysNonDecreasing | node/src/indexer.rs:227-292 | over the process lifetime, the delays at one backoff site never shrink |
| BlockIndexer.FirstFailedRunDelays | node/src/indexer.rs:259-291 | a first run that fails waits 20 s to catch up and then 2 s before retrying |

## Left out

- I/O and external code are not modelled: the NEAR runtime (`env::predecessor_account_id`, `env::attached_deposit`), the lake framework's block stream, the S3 fetch, serde JSON decoding (its outcome is a field of the action), `tokio`, `RwLock` and `Arc`, and logging.
- BlockIndexer.HandleBlock: the step is modelled as atomic. In the source the cursor locks and the queue lock are taken at separate await points, and the supervisor's `join_handle.abort()` can cancel the task between the cursor update and the enqueue, leaving the cursor advanced and the staged items unqueued; that cancellation is not modelled.
- The monitor loop's polling (`is_running` every 60 s), `join_handle.is_finished`, the task abort and the sleeps. Only the attempt outcomes and the backoff calls are modelled.
- The `ChainId` choice in `run` and the lake builder are not modelled. `DefaultOptions` keeps the option defaults.
- `Indexer::latest_block_height` is not modelled. It is a read of the cursor used only in a log line.
- `verify_krum_and_slash` is not modelled, because its body is empty.
- `Proposal::new` is not part of the source. The model assumes it creates a pending proposal with no votes.
- The payloads of `ExecutionStatus` are not modelled; only the variant is.
- `IpfsMessage` and `IpfsResponse`, and the worker, IPFS, model and UI code, are not modelled. They are outside this core.
- The `u32` restart counter in `run` overflowing after 2^32 attempts is not modelled. The counter is a `nat`.
- BlockIndexer.IsElapsedLongerThanTimeout: requires the second to be at most `(2^64 - 1) / 10^9`, which is every value `is_behind` can pass. chrono's `false` branch for an out-of-range timestamp is not modelled.
- CoordinationContract.Contract.AddRequest and the other entrypoints assume overflow checks are on. A build without them would wrap instead of aborting.

## Findings

| source | as written | input that shows it | evidently intended | confidence | as-written member | corrected member |
|---|---|---|---|---|---|---|
| contracts/src/lib.rs:34 | `Default` sets the admin to `"0".parse().unwrap()`; `"0"` is one character, below NEAR's two-character minimum, so the parse fails and `Default` panics | any first call on a deployment that was not initialised with explicit state | an initial state whose admin is a valid account: no workers, requests or proposals, counter 0 and fees 0, satisfying the contract invariant | high (not executed) | CoordinationContract.DefaultAdminDoesNotParse | CoordinationContract.Contract.constructor |
| node/src/indexer.rs:300 | `2u64.pow(i).mul(multiplier as u64)` wraps modulo 2^64 in a release build, so the capped delay collapses to 0 | restart counter `i = 63` with multiplier 10 (catch-up and build-failure sites), or `i = 64` with multiplier 1 (after a failed run) | the delay is `min(2^i * multiplier, max)` and stays at the cap once it is reached (`BackoffStaysCapped`) | medium (not executed; a debug build panics instead) | BlockIndexer.BackoffWrapsToZero | BlockIndexer.BackoffDelay |
