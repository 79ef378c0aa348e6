/** The node's block indexer: its liveness cursor and health predicates, the
    per-block step that picks out `add_request` calls naming the local worker and
    queues their datasets, and the restart supervisor's backoff arithmetic.

    Clock readings are parameters: `nowMonotonic` is the monotonic clock behind
    `Instant` and `nowUtcNanos` the wall clock behind `Utc::now()`, both in
    nanoseconds. A block is abstracted to the fields the step reads. */
module BlockIndexer {
  import opened Primitives
  import opened NodeTypes

  const NANOS_PER_SEC: nat := 1_000_000_000
  const NANOS_PER_MILLI: nat := 1_000_000

  datatype ChainId = Mainnet | Testnet

  /** Command-line options; thresholds are in seconds. */
  datatype Options = Options(
    startBlockHeight: u64,
    behindThreshold: u64,
    runningThreshold: u64,
    chainId: ChainId)

  /** The options' defaults. */
  function DefaultOptions(chainId: ChainId): Options
  {
    Options(178930751, 200, 300, chainId)
  }

  // ---------------------------------------------------------------------------
  // Health predicates
  // ---------------------------------------------------------------------------

  /** `Instant::elapsed`: the time since `since`, saturating at zero. */
  function Elapsed(since: int, now: int): nat
  {
    if now >= since then now - since else 0
  }

  /** `is_running`: the last cursor update is no older than the threshold. */
  function IsRunningAt(lastUpdated: int, nowMonotonic: int, runningThreshold: u64): (r: bool)
    ensures r <==> nowMonotonic - lastUpdated <= runningThreshold * NANOS_PER_SEC
  {
    Elapsed(lastUpdated, nowMonotonic) <= runningThreshold * NANOS_PER_SEC
  }

  /** Once not running, the indexer stays not running until the next update. */
  lemma StalenessPersists(lastUpdated: int, now: int, later: int, runningThreshold: u64)
    requires now <= later && !IsRunningAt(lastUpdated, now, runningThreshold)
    ensures !IsRunningAt(lastUpdated, later, runningThreshold)
  {
  }

  /** The largest chrono `TimeDelta`, in milliseconds: `i64::MAX`. */
  const TIME_DELTA_MAX_MILLIS: nat := 0x7FFF_FFFF_FFFF_FFFF

  /** `is_elapsed_longer_than_timeout`: the wall-clock time since the whole second
      `timestampSec` exceeds a timeout given in milliseconds. The timeout is split
      into whole seconds and sub-second nanoseconds and rebuilt as a chrono
      `TimeDelta`; that sum panics (`None`) once the timeout exceeds the largest
      `TimeDelta`. Otherwise the comparison is strict and exact to the nanosecond. */
  function IsElapsedLongerThanTimeout(timestampSec: u64, timeoutMillis: u64, nowUtcNanos: int): (r: Option<bool>)
    requires timestampSec <= (U64_LIMIT - 1) / NANOS_PER_SEC
    ensures r.None? <==> timeoutMillis > TIME_DELTA_MAX_MILLIS
    ensures r.Some? ==>
      (r.value <==> nowUtcNanos - timestampSec * NANOS_PER_SEC > timeoutMillis * NANOS_PER_MILLI)
  {
    var timeoutSecs := timeoutMillis / 1000;
    var subsecNanos := (timeoutMillis % 1000) * NANOS_PER_MILLI;
    if timeoutMillis > TIME_DELTA_MAX_MILLIS then None
    else
      var elapsedNanos := nowUtcNanos - timestampSec * NANOS_PER_SEC;
      MillisSplit(timeoutMillis);
      Some(elapsedNanos > timeoutSecs * NANOS_PER_SEC + subsecNanos)
  }

  lemma MillisSplit(millis: nat)
    ensures (millis / 1000) * NANOS_PER_SEC + (millis % 1000) * NANOS_PER_MILLI == millis * NANOS_PER_MILLI
  {
    var q, r := millis / 1000, millis % 1000;
    assert millis == 1000 * q + r;
    calc {
      millis * NANOS_PER_MILLI;
      (1000 * q + r) * NANOS_PER_MILLI;
      { assert (1000 * q) * NANOS_PER_MILLI == q * NANOS_PER_SEC; }
      q * NANOS_PER_SEC + r * NANOS_PER_MILLI;
    }
  }

  /** `is_behind`: with no block timestamp recorded yet the indexer counts as
      behind; otherwise the block's timestamp is cut to whole seconds and the
      threshold is passed on as `as_millis() as u64`, a truncating cast. `None`
      is the chrono panic for a threshold above the largest `TimeDelta`. */
  function IsBehindAt(latestBlockTimestampNanos: Option<u64>, nowUtcNanos: int, behindThreshold: u64): (r: Option<bool>)
    ensures latestBlockTimestampNanos.None? ==> r == Some(true)
    ensures latestBlockTimestampNanos.Some? ==>
      (r.None? <==> (behindThreshold * 1000) % U64_LIMIT > TIME_DELTA_MAX_MILLIS)
    ensures latestBlockTimestampNanos.Some? && r.Some? ==>
      (r.value <==> nowUtcNanos - (latestBlockTimestampNanos.value / NANOS_PER_SEC) * NANOS_PER_SEC
                    > ((behindThreshold * 1000) % U64_LIMIT) * NANOS_PER_MILLI)
  {
    match latestBlockTimestampNanos
    case None => Some(true)
    case Some(timestampNanos) =>
      IsElapsedLongerThanTimeout(timestampNanos / NANOS_PER_SEC, (behindThreshold * 1000) % U64_LIMIT, nowUtcNanos)
  }

  /** With a threshold whose milliseconds fit a `TimeDelta`, `is_behind` answers,
      and read on a clock showing whole seconds it compares the seconds elapsed
      since the block's (truncated) second strictly with the threshold. */
  lemma {:induction false} BehindInWholeSeconds(timestampNanos: u64, nowSecs: int, behindThreshold: u64)
    requires behindThreshold * 1000 <= TIME_DELTA_MAX_MILLIS
    ensures IsBehindAt(Some(timestampNanos), nowSecs * NANOS_PER_SEC, behindThreshold).Some?
    ensures IsBehindAt(Some(timestampNanos), nowSecs * NANOS_PER_SEC, behindThreshold).value
            <==> nowSecs - timestampNanos / NANOS_PER_SEC > behindThreshold
  {
    var blockSecs := timestampNanos / NANOS_PER_SEC;
    var lhs := nowSecs * NANOS_PER_SEC - blockSecs * NANOS_PER_SEC;
    assert lhs == (nowSecs - blockSecs) * NANOS_PER_SEC;
    assert (behindThreshold * 1000) % U64_LIMIT == behindThreshold * 1000;
    assert (behindThreshold * 1000) * NANOS_PER_MILLI == behindThreshold * NANOS_PER_SEC;
    ScaledComparison(nowSecs - blockSecs, behindThreshold);
  }

  /** Thresholds from 9223372036854776 seconds up (as far as the truncating cast
      keeps them large) make `is_behind` panic once a block has been seen. */
  lemma HugeThresholdPanics(timestampNanos: u64, nowUtcNanos: int)
    ensures IsBehindAt(Some(timestampNanos), nowUtcNanos, 9223372036854776).None?
  {
  }

  /** With the default thresholds `is_behind` never panics. */
  lemma DefaultThresholdNeverPanics(chainId: ChainId, latest: Option<u64>, nowUtcNanos: int)
    ensures IsBehindAt(latest, nowUtcNanos, DefaultOptions(chainId).behindThreshold).Some?
  {
  }

  lemma ScaledComparison(x: int, y: int)
    ensures x * NANOS_PER_SEC > y * NANOS_PER_SEC <==> x > y
  {
    if x > y {
      assert x * NANOS_PER_SEC - y * NANOS_PER_SEC == (x - y) * NANOS_PER_SEC;
    } else {
      assert y * NANOS_PER_SEC - x * NANOS_PER_SEC == (y - x) * NANOS_PER_SEC;
    }
  }

  /** Without a new block, once behind the indexer stays behind. */
  lemma BehindPersists(latestBlockTimestampNanos: Option<u64>, now: int, later: int, behindThreshold: u64)
    requires now <= later && IsBehindAt(latestBlockTimestampNanos, now, behindThreshold) == Some(true)
    ensures IsBehindAt(latestBlockTimestampNanos, later, behindThreshold) == Some(true)
  {
  }

  // ---------------------------------------------------------------------------
  // The indexer's shared cursor
  // ---------------------------------------------------------------------------

  class Indexer {
    const latestBlockHeight: LatestBlockHeight
    var lastUpdatedTimestamp: int
    var latestBlockTimestampNanosec: Option<u64>
    const runningThreshold: u64
    const behindThreshold: u64

    /** `Indexer::new`: the cursor counts as updated now, with no block timestamp. */
    constructor (latestBlockHeight: LatestBlockHeight, options: Options, nowMonotonic: int)
      ensures this.latestBlockHeight == latestBlockHeight
      ensures lastUpdatedTimestamp == nowMonotonic && latestBlockTimestampNanosec == None
      ensures runningThreshold == options.runningThreshold && behindThreshold == options.behindThreshold
      ensures IsRunning(nowMonotonic)
      ensures forall nowUtcNanos :: IsBehind(nowUtcNanos) == Some(true)
    {
      this.latestBlockHeight := latestBlockHeight;
      lastUpdatedTimestamp := nowMonotonic;
      latestBlockTimestampNanosec := None;
      runningThreshold := options.runningThreshold;
      behindThreshold := options.behindThreshold;
    }

    predicate IsRunning(nowMonotonic: int)
      reads this
    {
      IsRunningAt(lastUpdatedTimestamp, nowMonotonic, runningThreshold)
    }

    /** `is_behind`; `None` is the chrono panic. */
    function IsBehind(nowUtcNanos: int): Option<bool>
      reads this
    {
      IsBehindAt(latestBlockTimestampNanosec, nowUtcNanos, behindThreshold)
    }

    /** `update_block_height_and_timestamp`: stamps the update time, records the
        block's timestamp and moves the cursor to the block's height. */
    method UpdateBlockHeightAndTimestamp(blockHeight: u64, blockTimestampNanosec: u64, nowMonotonic: int)
      modifies this, latestBlockHeight
      ensures lastUpdatedTimestamp == nowMonotonic
      ensures latestBlockTimestampNanosec == Some(blockTimestampNanosec)
      ensures latestBlockHeight.blockHeight == blockHeight
      ensures latestBlockHeight.accountId == old(latestBlockHeight.accountId)
      ensures IsRunning(nowMonotonic)
    {
      lastUpdatedTimestamp := nowMonotonic;
      latestBlockTimestampNanosec := Some(blockTimestampNanosec);
      latestBlockHeight.Set(blockHeight);
    }
  }

  // ---------------------------------------------------------------------------
  // Blocks and the per-block step
  // ---------------------------------------------------------------------------

  /** The execution outcome of a receipt. */
  datatype ExecutionStatus = SuccessValue | SuccessReceiptId | Failure | Postponed

  /** A function-call action: the method name and the result of decoding its JSON
      arguments as `RequestArguments` (`None` when decoding fails). */
  datatype FunctionCall = FunctionCall(methodName: string, arguments: Option<RequestArguments>)

  /** An action: its receiver, the status of its receipt if the block holds that
      receipt, and the function call if it is one. */
  datatype Action = Action(
    receiverId: AccountId,
    receiptStatus: Option<ExecutionStatus>,
    functionCall: Option<FunctionCall>)

  datatype Block = Block(blockHeight: u64, timestampNanosec: u64, actions: seq<Action>)

  /** Why a block fails: an action for the contract whose receipt the block lacks,
      or a worker string that does not parse (the `unwrap` panics). */
  datatype BlockError = ReceiptNotFound | InvalidWorkerAccount

  /** What one action contributes to the block's step. */
  datatype ActionStep = Skip | Stage(item: ModelData) | Abort(error: BlockError)

  /** `workers.iter().any(|w| worker == w.parse().unwrap())`: scans left to right and
      stops at the first string equal to the worker; a string before that point
      which is not an account identifier aborts (`None`). */
  function NamesWorker(workers: seq<string>, worker: AccountId): (r: Option<bool>)
    ensures r == Some(true) ==> worker in workers
    ensures r == Some(false) ==> worker !in workers
  {
    if workers == [] then Some(false)
    else if !ValidAccountId(workers[0]) then None
    else if workers[0] == worker then Some(true)
    else NamesWorker(workers[1..], worker)
  }

  /** The worker is found exactly when it occurs in the list and every string
      before that occurrence parses. */
  lemma {:induction false} NamesWorkerFinds(workers: seq<string>, worker: AccountId)
    ensures NamesWorker(workers, worker) == Some(true) <==>
      exists i :: 0 <= i < |workers| && workers[i] == worker && forall j :: 0 <= j < i ==> ValidAccountId(workers[j])
  {
    if workers == [] || !ValidAccountId(workers[0]) {
    } else if workers[0] == worker {
      assert workers[0] == worker;
    } else {
      var tail := workers[1..];
      NamesWorkerFinds(tail, worker);
      if NamesWorker(workers, worker) == Some(true) {
        var i :| 0 <= i < |tail| && tail[i] == worker && forall j :: 0 <= j < i ==> ValidAccountId(tail[j]);
        assert workers[i + 1] == worker;
        assert forall j :: 0 < j < i + 1 ==> workers[j] == tail[j - 1];
      }
      if exists i :: 0 <= i < |workers| && workers[i] == worker && forall j :: 0 <= j < i ==> ValidAccountId(workers[j]) {
        var i :| 0 <= i < |workers| && workers[i] == worker && forall j :: 0 <= j < i ==> ValidAccountId(workers[j]);
        assert tail[i - 1] == worker;
        assert forall j :: 0 <= j < i - 1 ==> tail[j] == workers[j + 1];
      }
    }
  }

  /** The answer is `false` exactly when the worker does not occur and every
      string parses; a list for which neither this nor `NamesWorkerFinds` holds
      aborts the block. */
  lemma {:induction false} NamesWorkerMisses(workers: seq<string>, worker: AccountId)
    ensures NamesWorker(workers, worker) == Some(false) <==>
      worker !in workers && forall j :: 0 <= j < |workers| ==> ValidAccountId(workers[j])
  {
    if workers != [] && ValidAccountId(workers[0]) && workers[0] != worker {
      var tail := workers[1..];
      NamesWorkerMisses(tail, worker);
      assert workers == [workers[0]] + tail;
      assert forall j :: 0 < j < |workers| ==> workers[j] == tail[j - 1];
    }
  }

  /** The action is a successful `add_request` call on the contract whose
      arguments decode. */
  predicate SubmitsRequest(a: Action, contract: AccountId)
  {
    && a.receiverId == contract
    && a.receiptStatus == Some(SuccessReceiptId)
    && a.functionCall.Some?
    && a.functionCall.value.methodName == "add_request"
    && a.functionCall.value.arguments.Some?
  }

  /** The body of the loop over a block's actions. */
  function StepAction(a: Action, contract: AccountId, worker: AccountId): (s: ActionStep)
    ensures s == Abort(ReceiptNotFound) <==> a.receiverId == contract && a.receiptStatus.None?
    ensures s.Stage? <==>
      SubmitsRequest(a, contract) && NamesWorker(a.functionCall.value.arguments.value.workers, worker) == Some(true)
    ensures s.Stage? ==>
      var args := a.functionCall.value.arguments.value;
      s.item == ModelData(args.datasetCid, args.compressedSk)
    ensures s == Abort(InvalidWorkerAccount) <==>
      SubmitsRequest(a, contract) && NamesWorker(a.functionCall.value.arguments.value.workers, worker).None?
  {
    if a.receiverId != contract then Skip
    else if a.receiptStatus.None? then Abort(ReceiptNotFound)
    else if a.receiptStatus.value != SuccessReceiptId then Skip
    else if a.functionCall.None? then Skip
    else if a.functionCall.value.methodName != "add_request" then Skip
    else if a.functionCall.value.arguments.None? then Skip
    else
      var args := a.functionCall.value.arguments.value;
      match NamesWorker(args.workers, worker)
      case None => Abort(InvalidWorkerAccount)
      case Some(true) => Stage(ModelData(args.datasetCid, args.compressedSk))
      case Some(false) => Skip
  }

  /** Scanning a block's actions in order: the first aborting action fails the
      block, otherwise the staged items in action order. */
  function Scan(actions: seq<Action>, contract: AccountId, worker: AccountId): Result<seq<ModelData>, BlockError>
  {
    if actions == [] then Ok([])
    else
      match Scan(actions[..|actions| - 1], contract, worker)
      case Err(e) => Err(e)
      case Ok(staged) =>
        match StepAction(actions[|actions| - 1], contract, worker)
        case Abort(e) => Err(e)
        case Stage(m) => Ok(staged + [m])
        case Skip => Ok(staged)
  }

  /** A failed prefix fails the whole block with the same error. */
  lemma {:induction false} ScanFailurePersists(actions: seq<Action>, n: nat, contract: AccountId, worker: AccountId)
    requires n <= |actions| && Scan(actions[..n], contract, worker).Err?
    ensures Scan(actions, contract, worker) == Scan(actions[..n], contract, worker)
  {
    if n < |actions| {
      var init := actions[..|actions| - 1];
      assert init[..n] == actions[..n];
      ScanFailurePersists(init, n, contract, worker);
    } else {
      assert actions[..n] == actions;
    }
  }

  /** The block fails exactly when some action aborts, and then with the error of
      the first such action. */
  lemma {:induction false} ScanErrorIsFirstAbort(actions: seq<Action>, contract: AccountId, worker: AccountId)
    ensures Scan(actions, contract, worker).Ok? <==>
      forall i :: 0 <= i < |actions| ==> !StepAction(actions[i], contract, worker).Abort?
    ensures Scan(actions, contract, worker).Err? ==>
      exists i :: 0 <= i < |actions|
        && StepAction(actions[i], contract, worker) == Abort(Scan(actions, contract, worker).error)
        && forall j :: 0 <= j < i ==> !StepAction(actions[j], contract, worker).Abort?
  {
    if actions != [] {
      var init := actions[..|actions| - 1];
      ScanErrorIsFirstAbort(init, contract, worker);
      assert forall i :: 0 <= i < |init| ==> init[i] == actions[i];
    }
  }

  /** An action for the contract whose receipt is missing fails the whole block. */
  lemma MissingReceiptFailsBlock(actions: seq<Action>, k: nat, contract: AccountId, worker: AccountId)
    requires k < |actions| && actions[k].receiverId == contract && actions[k].receiptStatus.None?
    ensures Scan(actions, contract, worker).Err?
  {
    ScanErrorIsFirstAbort(actions, contract, worker);
    assert StepAction(actions[k], contract, worker).Abort?;
  }

  /** A block that does not fail stages exactly the items of the actions that
      stage one. */
  lemma {:induction false} ScanStagesMatchingActions(actions: seq<Action>, contract: AccountId, worker: AccountId)
    requires Scan(actions, contract, worker).Ok?
    ensures forall m :: m in Scan(actions, contract, worker).value <==>
      exists i :: 0 <= i < |actions| && StepAction(actions[i], contract, worker) == Stage(m)
  {
    if actions != [] {
      var init := actions[..|actions| - 1];
      ScanStagesMatchingActions(init, contract, worker);
      assert forall i :: 0 <= i < |init| ==> init[i] == actions[i];
    }
  }

  /** The shared context of the per-block step. */
  class Context {
    const contract: AccountId
    const worker: AccountId
    const queue: RequestQueue
    const indexer: Indexer

    constructor (contract: AccountId, worker: AccountId, queue: RequestQueue, indexer: Indexer)
      ensures this.contract == contract && this.worker == worker
      ensures this.queue == queue && this.indexer == indexer
    {
      this.contract := contract;
      this.worker := worker;
      this.queue := queue;
      this.indexer := indexer;
    }
  }

  /** The loop of `handle_block` over the block's actions, with the staging
      vector as a local: it stops at the first aborting action and otherwise
      returns the staged items in action order. */
  method ScanActions(actions: seq<Action>, contract: AccountId, worker: AccountId)
    returns (r: Result<seq<ModelData>, BlockError>)
    ensures r == Scan(actions, contract, worker)
  {
    var pending: seq<ModelData> := [];
    var i := 0;
    while i < |actions|
      invariant 0 <= i <= |actions|
      invariant Scan(actions[..i], contract, worker) == Ok(pending)
    {
      assert actions[..i + 1][..i] == actions[..i];
      match StepAction(actions[i], contract, worker) {
        case Abort(e) =>
          ScanFailurePersists(actions, i + 1, contract, worker);
          return Err(e);
        case Stage(m) =>
          pending := pending + [m];
        case Skip =>
      }
      i := i + 1;
    }
    assert actions[..|actions|] == actions;
    return Ok(pending);
  }

  /** `handle_block`: scans the actions, staging the datasets of `add_request`
      calls naming the local worker; a failing action fails the block before
      anything is written. Otherwise the cursor is updated, whether or not
      anything was staged, and then the staged items are queued. */
  method HandleBlock(block: Block, ctx: Context, nowMonotonic: int) returns (r: Outcome<BlockError>)
    modifies ctx.queue, ctx.indexer, ctx.indexer.latestBlockHeight
    ensures r.Fail? <==> Scan(block.actions, ctx.contract, ctx.worker).Err?
    ensures r.Fail? ==>
      && r.error == Scan(block.actions, ctx.contract, ctx.worker).error
      && unchanged(ctx.queue) && unchanged(ctx.indexer) && unchanged(ctx.indexer.latestBlockHeight)
    ensures r.Pass? ==>
      && ctx.queue.requests == old(ctx.queue.requests) + Elements(Scan(block.actions, ctx.contract, ctx.worker).value)
      && ctx.indexer.lastUpdatedTimestamp == nowMonotonic
      && ctx.indexer.latestBlockTimestampNanosec == Some(block.timestampNanosec)
      && ctx.indexer.latestBlockHeight.blockHeight == block.blockHeight
      && ctx.indexer.latestBlockHeight.accountId == old(ctx.indexer.latestBlockHeight.accountId)
  {
    var scanned := ScanActions(block.actions, ctx.contract, ctx.worker);
    if scanned.Err? {
      return Fail(scanned.error);
    }
    var pending := scanned.value;

    ctx.indexer.UpdateBlockHeightAndTimestamp(block.blockHeight, block.timestampNanosec, nowMonotonic);

    ghost var before := ctx.queue.requests;
    label cursorUpdated:
    var j := 0;
    while j < |pending|
      invariant 0 <= j <= |pending|
      invariant ctx.queue.requests == InsertedAll(before, pending[..j])
      invariant unchanged@cursorUpdated(ctx.indexer) && unchanged@cursorUpdated(ctx.indexer.latestBlockHeight)
    {
      assert pending[..j + 1][..j] == pending[..j];
      ctx.queue.AddRequest(pending[j]);
      j := j + 1;
    }
    assert pending[..|pending|] == pending;
    InsertedAllIsUnion(before, pending);
    return Pass;
  }

  // ---------------------------------------------------------------------------
  // Restart supervisor: backoff delays and the restart counter
  // ---------------------------------------------------------------------------

  function Pow2(n: nat): (r: nat)
    ensures r >= 1
  {
    if n == 0 then 1 else 2 * Pow2(n - 1)
  }

  lemma {:induction false} Pow2IsMonotone(a: nat, b: nat)
    requires a <= b
    ensures Pow2(a) <= Pow2(b)
  {
    if a < b {
      Pow2IsMonotone(a, b - 1);
    }
  }

  /** The delay `backoff(i, multiplier, max)` sleeps, in seconds, intended as
      `min(2^i * multiplier, max)` without overflow. */
  function BackoffDelay(attempt: nat, multiplier: nat, max: nat): (d: nat)
    ensures d <= max
    ensures d == max || d == Pow2(attempt) * multiplier
    ensures d <= Pow2(attempt) * multiplier
  {
    if Pow2(attempt) * multiplier < max then Pow2(attempt) * multiplier else max
  }

  lemma MulIsMonotone(x: nat, y: nat, k: nat)
    requires x <= y
    ensures x * k <= y * k
  {
    assert y * k == x * k + (y - x) * k;
  }

  /** A later attempt never waits less. */
  lemma BackoffIsMonotone(a: nat, b: nat, multiplier: nat, max: nat)
    requires a <= b
    ensures BackoffDelay(a, multiplier, max) <= BackoffDelay(b, multiplier, max)
  {
    Pow2IsMonotone(a, b);
    MulIsMonotone(Pow2(a), Pow2(b), multiplier);
  }

  /** Once `2^i * multiplier` reaches the cap, every later attempt waits the cap. */
  lemma BackoffStaysCapped(a: nat, b: nat, multiplier: nat, max: nat)
    requires a <= b && Pow2(a) * multiplier >= max
    ensures BackoffDelay(b, multiplier, max) == max
  {
    Pow2IsMonotone(a, b);
    MulIsMonotone(Pow2(a), Pow2(b), multiplier);
  }

  /** `backoff` as built for release, where `u64` arithmetic wraps: `2u64.pow(i)`
      and the multiplication are both taken modulo 2^64 before the `min`. */
  function BackoffDelayAsBuilt(attempt: u32, multiplier: u32, max: u64): (d: u64)
    ensures d <= max
  {
    var product := ((Pow2(attempt) % U64_LIMIT) * multiplier) % U64_LIMIT;
    if product < max then product else max
  }

  lemma {:induction false} Pow2Add(a: nat, b: nat)
    ensures Pow2(a + b) == Pow2(a) * Pow2(b)
  {
    if b > 0 {
      Pow2Add(a, b - 1);
      assert Pow2(a + b) == 2 * Pow2(a + b - 1);
    }
  }

  lemma Pow2Of64()
    ensures Pow2(64) == U64_LIMIT && 2 * Pow2(63) == U64_LIMIT
  {
    assert Pow2(4) == 16;
    Pow2Add(4, 4);
    var p8 := Pow2(8);
    assert p8 == 256;
    Pow2Add(8, 8);
    var p16 := Pow2(16);
    assert p16 == 0x1_0000;
    Pow2Add(16, 16);
    var p32 := Pow2(32);
    assert p32 == 0x1_0000_0000;
    Pow2Add(32, 32);
  }

  /** From the 63rd attempt the catch-up and build-failure delays wrap to zero,
      where the intended delays are the caps. */
  lemma BackoffWrapsToZero()
    ensures BackoffDelayAsBuilt(63, 10, 300) == 0 && BackoffDelay(63, 10, 300) == 300
    ensures BackoffDelayAsBuilt(63, 10, 3000) == 0 && BackoffDelay(63, 10, 3000) == 3000
  {
    Pow2Of64();
    var p63 := Pow2(63);
    assert p63 % U64_LIMIT == p63 && (p63 * 10) % U64_LIMIT == 0;
  }

  /** From the 64th attempt the post-failure delay wraps to zero too, where the
      intended delay is its cap. */
  lemma FailedRunBackoffWrapsToZero()
    ensures BackoffDelayAsBuilt(64, 1, 1200) == 0 && BackoffDelay(64, 1, 1200) == 1200
  {
    Pow2Of64();
  }

  /** How one attempt of the supervisor loop ends. */
  datatype AttemptOutcome =
    | BuildFailed   // building the block stream failed
    | RunFailed     // the indexer task failed or panicked, or was aborted after going stale
    | RunReturned   // the indexer task returned `Ok`, which ends the loop

  /** One call `backoff(attempt, multiplier, max)`. */
  datatype BackoffCall = BackoffCall(attempt: nat, multiplier: nat, max: nat)
  {
    function Seconds(): nat
    {
      BackoffDelay(attempt, multiplier, max)
    }
  }

  /** The backoff calls of one attempt with counter value `attempt`. */
  function AttemptBackoffs(outcome: AttemptOutcome, attempt: nat): seq<BackoffCall>
  {
    match outcome
    case BuildFailed => [BackoffCall(attempt, 10, 3000)]
    case RunFailed => [BackoffCall(attempt, 10, 300), BackoffCall(attempt, 1, 1200)]
    case RunReturned => [BackoffCall(attempt, 10, 300)]
  }

  /** The backoff calls of the attempts ending as `outcomes`, the first of them
      made with counter value `first`. */
  function Schedule(outcomes: seq<AttemptOutcome>, first: nat): seq<BackoffCall>
  {
    if outcomes == [] then []
    else if outcomes[0] == RunReturned then AttemptBackoffs(RunReturned, first)
    else AttemptBackoffs(outcomes[0], first) + Schedule(outcomes[1..], first + 1)
  }

  /** How many attempts the loop makes: up to and including the first that returns. */
  function AttemptsMade(outcomes: seq<AttemptOutcome>): nat
  {
    if outcomes == [] then 0
    else if outcomes[0] == RunReturned then 1
    else 1 + AttemptsMade(outcomes[1..])
  }

  /** The schedule after `done` once attempt `k + 1` has made its backoff calls. */
  lemma ScheduleStep(outcomes: seq<AttemptOutcome>, k: nat, done: seq<BackoffCall>)
    requires k < |outcomes| && done + Schedule(outcomes[k..], k + 1) == Schedule(outcomes, 1)
    requires k + AttemptsMade(outcomes[k..]) == AttemptsMade(outcomes)
    ensures outcomes[k] == RunReturned ==>
      done + AttemptBackoffs(RunReturned, k + 1) == Schedule(outcomes, 1) && k + 1 == AttemptsMade(outcomes)
    ensures outcomes[k] != RunReturned ==>
      && (done + AttemptBackoffs(outcomes[k], k + 1)) + Schedule(outcomes[k + 1..], k + 2) == Schedule(outcomes, 1)
      && k + 1 + AttemptsMade(outcomes[k + 1..]) == AttemptsMade(outcomes)
  {
    assert outcomes[k..][0] == outcomes[k] && outcomes[k..][1..] == outcomes[k + 1..];
    if outcomes[k] != RunReturned {
      var head, rest := AttemptBackoffs(outcomes[k], k + 1), Schedule(outcomes[k + 1..], k + 2);
      assert Schedule(outcomes[k..], k + 1) == head + rest;
      assert (done + head) + rest == done + (head + rest);
    }
  }

  /** The counter logic of `run`'s supervisor loop: `i` starts at 0 and is
      incremented at the head of every attempt, never reset, and each attempt's
      backoffs use its value. Returns the backoff calls and the final counter. */
  method Supervise(outcomes: seq<AttemptOutcome>) returns (backoffs: seq<BackoffCall>, i: nat)
    ensures backoffs == Schedule(outcomes, 1)
    ensures i == AttemptsMade(outcomes)
  {
    backoffs := [];
    i := 0;
    var k := 0;
    while k < |outcomes|
      invariant 0 <= k <= |outcomes| && i == k
      invariant backoffs + Schedule(outcomes[k..], k + 1) == Schedule(outcomes, 1)
      invariant i + AttemptsMade(outcomes[k..]) == AttemptsMade(outcomes)
    {
      ScheduleStep(outcomes, k, backoffs);
      ghost var done := backoffs;
      i := i + 1;
      var outcome := outcomes[k];
      if outcome == BuildFailed {
        backoffs := backoffs + [BackoffCall(i, 10, 3000)];
      } else {
        backoffs := backoffs + [BackoffCall(i, 10, 300)];
        if outcome == RunReturned {
          assert backoffs == done + AttemptBackoffs(RunReturned, i);
          return;
        }
        backoffs := backoffs + [BackoffCall(i, 1, 1200)];
      }
      assert backoffs == done + AttemptBackoffs(outcome, i);
      k := k + 1;
    }
    assert outcomes[k..] == [];
  }

  /** Every backoff call of a schedule uses a counter value at least `first`. */
  lemma {:induction false} ScheduleAttemptsFrom(outcomes: seq<AttemptOutcome>, first: nat)
    ensures forall c :: c in Schedule(outcomes, first) ==> c.attempt >= first
  {
    if outcomes != [] && outcomes[0] != RunReturned {
      ScheduleAttemptsFrom(outcomes[1..], first + 1);
    }
  }

  /** Because the counter is never reset, the counter values along the schedule
      never decrease, and the very first attempt already uses 1. */
  lemma {:induction false} ScheduleCountersNonDecreasing(outcomes: seq<AttemptOutcome>, first: nat)
    ensures forall p, q :: 0 <= p < q < |Schedule(outcomes, first)| ==>
      Schedule(outcomes, first)[p].attempt <= Schedule(outcomes, first)[q].attempt
    ensures outcomes != [] ==> Schedule(outcomes, first)[0].attempt == first
  {
    if outcomes != [] && outcomes[0] != RunReturned {
      var head, tail := AttemptBackoffs(outcomes[0], first), Schedule(outcomes[1..], first + 1);
      ScheduleCountersNonDecreasing(outcomes[1..], first + 1);
      ScheduleAttemptsFrom(outcomes[1..], first + 1);
      assert forall c :: c in head ==> c.attempt == first;
      assert forall q :: 0 <= q < |tail| ==> tail[q] in tail;
    }
  }

  /** Delays at the same backoff site never shrink over the process lifetime. */
  lemma SameSiteDelaysNonDecreasing(outcomes: seq<AttemptOutcome>, p: nat, q: nat)
    requires p < q < |Schedule(outcomes, 1)|
    requires Schedule(outcomes, 1)[p].multiplier == Schedule(outcomes, 1)[q].multiplier
    requires Schedule(outcomes, 1)[p].max == Schedule(outcomes, 1)[q].max
    ensures Schedule(outcomes, 1)[p].Seconds() <= Schedule(outcomes, 1)[q].Seconds()
  {
    ScheduleCountersNonDecreasing(outcomes, 1);
    var s := Schedule(outcomes, 1);
    BackoffIsMonotone(s[p].attempt, s[q].attempt, s[p].multiplier, s[p].max);
  }

  /** A first run that fails waits 20 s to catch up and then 2 s before retrying. */
  lemma FirstFailedRunDelays(rest: seq<AttemptOutcome>)
    ensures Schedule([RunFailed] + rest, 1)[0].Seconds() == 20
    ensures Schedule([RunFailed] + rest, 1)[1].Seconds() == 2
  {
    assert ([RunFailed] + rest)[0] == RunFailed;
  }
}
