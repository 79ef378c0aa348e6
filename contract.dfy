/** The on-chain coordination contract: request submission and completion, worker
    admission proposals, fee proposals and admin-gated proposal execution.

    Every entrypoint is a method on `Contract` that takes the calling account and
    the attached deposit (in yoctoNEAR) as parameters. A failed `require!`, a failed
    `unwrap` and a checked arithmetic overflow all abort the call, and the runtime
    reverts it: such a call returns `Fail` and leaves every field unchanged. */
module CoordinationContract {
  import opened Primitives
  import opened ContractState

  /** yoctoNEAR per NEAR: `NearToken::from_near(x)` is `x * ONE_NEAR`. */
  const ONE_NEAR: nat := 1_000_000_000_000_000_000_000_000

  datatype Error =
    | InsufficientDeposit     // a `require!` on the attached deposit failed
    | ArithmeticOverflow      // a checked `u128` or `u32` operation overflowed
    | InvalidAccountId        // parsing an account identifier failed
    | RequestNotFound         // `requests.get_mut(..).unwrap()` found nothing
    | CallerIsAssignedWorker  // `complete_request` was called by an assigned worker
    | Unauthorized            // `execute_proposal` was called by someone other than the admin
    | ProposalNotFound        // `proposals.get_mut(..).unwrap()` found nothing
    | DepositNotAccepted      // a method not marked `#[payable]` was called with a deposit

  // ---------------------------------------------------------------------------
  // Fees
  // ---------------------------------------------------------------------------

  /** `NearToken::from_near(amount)` with its checked multiplication. */
  function FromNear(amount: nat): (r: Option<u128>)
    ensures r.Some? <==> amount * ONE_NEAR < U128_LIMIT
    ensures r.Some? ==> r.value == amount * ONE_NEAR
  {
    var yocto := amount * ONE_NEAR;
    if yocto < U128_LIMIT then Some(yocto) else None
  }

  /** The deposit `add_request` demands: `base_fee * epochs * workers.len()` whole
      NEAR, computed left to right in `u128` with every product checked. */
  function RequiredDeposit(baseFee: u128, epochs: u32, workerCount: nat): (r: Option<u128>)
    ensures r.None? <==> baseFee * epochs >= U128_LIMIT
                         || baseFee * epochs * workerCount * ONE_NEAR >= U128_LIMIT
    ensures r.Some? ==> r.value == baseFee * epochs * workerCount * ONE_NEAR
  {
    var perWorker := baseFee * epochs;
    if perWorker >= U128_LIMIT then None
    else
      var total := perWorker * workerCount;
      if total >= U128_LIMIT then
        ScaleUp(total, ONE_NEAR);
        assert total * ONE_NEAR >= U128_LIMIT;
        None
      else
        var r := FromNear(total);
        assert r.None? <==> total * ONE_NEAR >= U128_LIMIT;
        r
  }

  /** Scaling by a positive factor never shrinks a natural number. */
  lemma ScaleUp(x: nat, k: nat)
    requires k >= 1
    ensures x * k >= x
  {
  }

  /** Whether `add_request`'s deposit check passes. */
  predicate AdmitsRequest(baseFee: u128, epochs: u32, workerCount: nat, deposit: u128)
  {
    match RequiredDeposit(baseFee, epochs, workerCount)
    case Some(required) => deposit >= required
    case None => false
  }

  /** Unless `base_fee * epochs` alone overflows, the deposit check is exactly the
      comparison against the unbounded product: a larger product overflows only
      where it already exceeds every `u128` deposit. */
  lemma DepositCheckIsExact(baseFee: u128, epochs: u32, workerCount: nat, deposit: u128)
    requires baseFee * epochs < U128_LIMIT
    ensures AdmitsRequest(baseFee, epochs, workerCount, deposit)
            <==> deposit >= baseFee * epochs * workerCount * ONE_NEAR
  {
    if RequiredDeposit(baseFee, epochs, workerCount).None? {
      assert baseFee * epochs * workerCount * ONE_NEAR >= U128_LIMIT > deposit;
    }
  }

  /** With no workers the demanded deposit is zero, yet an overflowing
      `base_fee * epochs` still aborts the call. */
  lemma OverflowAbortsEvenWithoutWorkers(baseFee: u128, epochs: u32, deposit: u128)
    requires baseFee * epochs >= U128_LIMIT
    ensures !AdmitsRequest(baseFee, epochs, 0, deposit)
    ensures baseFee * epochs * 0 * ONE_NEAR == 0
  {
  }

  // ---------------------------------------------------------------------------
  // Accounts
  // ---------------------------------------------------------------------------

  /** `workers.iter().map(|w| w.parse().unwrap()).collect::<HashSet<_>>()`:
      `None` when some string is not an account identifier (the `unwrap` aborts),
      otherwise the set of the given accounts with duplicates merged. */
  function ParseAccountIds(ws: seq<string>): (r: Option<set<AccountId>>)
    ensures r.Some? <==> forall i :: 0 <= i < |ws| ==> ValidAccountId(ws[i])
    ensures r.Some? ==> forall a: AccountId :: a in r.value <==> a in ws
  {
    if ws == [] then Some({})
    else
      match ParseAccountId(ws[0])
      case None => None
      case Some(first) =>
        match ParseAccountIds(ws[1..])
        case None => None
        case Some(rest) => Some({first} + rest)
  }

  /** `add_request` charges for `workers.len()`, duplicates included, while the
      request stores the deduplicated set: listing a worker once more leaves the
      stored set (or the abort) as it was, yet, when `base_fee * epochs` is
      positive, raises the demanded deposit by `base_fee * epochs` whole NEAR. */
  lemma DuplicateWorkersAreCharged(ws: seq<string>, w: string, baseFee: u128, epochs: u32)
    requires w in ws
    ensures ParseAccountIds(ws + [w]) == ParseAccountIds(ws)
    ensures RequiredDeposit(baseFee, epochs, |ws + [w]|).Some? ==>
      && RequiredDeposit(baseFee, epochs, |ws|).Some?
      && RequiredDeposit(baseFee, epochs, |ws + [w]|).value
         == RequiredDeposit(baseFee, epochs, |ws|).value + baseFee * epochs * ONE_NEAR
  {
    RepeatedWorkerParsesAlike(ws, w);
    OneMoreWorkerCostsOneShare(baseFee, epochs, |ws|);
  }

  /** A repeated worker string changes neither the parsed set nor the abort. */
  lemma RepeatedWorkerParsesAlike(ws: seq<string>, w: string)
    requires w in ws
    ensures ParseAccountIds(ws + [w]) == ParseAccountIds(ws)
  {
    var longer := ws + [w];
    assert forall i :: 0 <= i < |ws| ==> longer[i] == ws[i];
    if forall i :: 0 <= i < |ws| ==> ValidAccountId(ws[i]) {
      var k :| 0 <= k < |ws| && ws[k] == w;
      assert forall i :: 0 <= i < |longer| ==> ValidAccountId(longer[i]);
      var short, long := ParseAccountIds(ws).value, ParseAccountIds(longer).value;
      assert forall a: AccountId :: a in longer <==> a in ws;
      assert short == long;
    } else {
      var k :| 0 <= k < |ws| && !ValidAccountId(ws[k]);
      assert !ValidAccountId(longer[k]);
    }
  }

  /** Each further worker adds one share of `base_fee * epochs` whole NEAR. */
  lemma OneMoreWorkerCostsOneShare(baseFee: u128, epochs: u32, n: nat)
    ensures RequiredDeposit(baseFee, epochs, n + 1).Some? ==>
      && RequiredDeposit(baseFee, epochs, n).Some?
      && RequiredDeposit(baseFee, epochs, n + 1).value
         == RequiredDeposit(baseFee, epochs, n).value + baseFee * epochs * ONE_NEAR
  {
    var perWorker := baseFee * epochs;
    var share, smaller := perWorker * ONE_NEAR, perWorker * n * ONE_NEAR;
    assert perWorker * (n + 1) * ONE_NEAR == smaller + share;
    assert share >= 0;
  }

  /** The admin account the contract's `Default` writes: `"0".parse().unwrap()`. */
  function DefaultAdmin(): Option<AccountId>
  {
    ParseAccountId("0")
  }

  /** "0" is one character long, below the two-character minimum of an account
      identifier, so the `unwrap` in `Default` aborts. */
  lemma DefaultAdminDoesNotParse()
    ensures DefaultAdmin() == None
  {
  }

  // ---------------------------------------------------------------------------
  // Proposals
  // ---------------------------------------------------------------------------

  /** `Proposal::new(id, kind, creator)`: pending, with no votes; the id is
      `proposals.len() as u32`, a truncating cast. */
  function NewProposal(index: nat, kind: ProposalType, creator: AccountId): (p: Proposal)
    ensures p.status == ProposalStatus.Pending && p.votes == map[]
    ensures p.forVotes == 0 && p.againstVotes == 0
    ensures p.proposalType == kind && p.creator == creator
    ensures index < U32_LIMIT ==> p.proposalId == index
  {
    Proposal(index % U32_LIMIT, kind, creator, ProposalStatus.Pending, map[], 0, 0)
  }

  /** The tally rule: strictly more votes for than against. */
  predicate Accepted(p: Proposal)
  {
    p.forVotes > p.againstVotes
  }

  /** No proposal carries a vote. The contract has no entrypoint that records a
      vote, so this holds in every state reachable from an empty proposal list. */
  predicate NoVotesCast(g: GovernanceState)
  {
    forall k :: 0 <= k < |g.proposals| ==>
      g.proposals[k].forVotes == 0 && g.proposals[k].againstVotes == 0 && g.proposals[k].votes == map[]
  }

  lemma NoVotesMeansNoAcceptance(g: GovernanceState, k: nat)
    requires NoVotesCast(g) && k < |g.proposals|
    ensures !Accepted(g.proposals[k])
  {
  }

  /** The account a membership proposal names. */
  function Subject(kind: ProposalType): Option<AccountId>
  {
    match kind
    case AddWorker(w, _) => Some(w)
    case RemoveWorker(w) => Some(w)
    case _ => None
  }

  /** The effect of an accepted proposal on the network: `AddWorker` inserts the
      candidate with its stake, `RemoveWorker` drops the worker from the set and
      from the stake map (absent or not), fee proposals leave the network alone. */
  function EnactOnNetwork(n: NetworkState, kind: ProposalType): (r: NetworkState)
    ensures kind.AddWorker? ==>
      kind.candidate in r.workers && kind.candidate in r.stake && r.stake[kind.candidate] == kind.amount
    ensures kind.RemoveWorker? ==> kind.worker !in r.workers && kind.worker !in r.stake
    ensures Subject(kind).None? ==> r == n
    ensures forall a: AccountId :: Subject(kind) != Some(a) ==>
      && (a in r.workers <==> a in n.workers)
      && (a in r.stake <==> a in n.stake)
      && (a in n.stake ==> r.stake[a] == n.stake[a])
  {
    match kind
    case AddWorker(w, amount) => NetworkState(n.workers + {w}, n.stake[w := amount])
    case RemoveWorker(w) => NetworkState(n.workers - {w}, n.stake - {w})
    case ChangeBaseFee(_) => n
    case ChangeStakeAmount(_) => n
  }

  /** Every admitted worker has a stake and every stake belongs to a worker. */
  predicate StakedWorkers(n: NetworkState)
  {
    n.workers == n.stake.Keys
  }

  lemma EnactKeepsWorkersStaked(n: NetworkState, kind: ProposalType)
    requires StakedWorkers(n)
    ensures StakedWorkers(EnactOnNetwork(n, kind))
  {
  }

  /** Executing the same proposal again, which the contract allows, changes the
      network no further. */
  lemma EnactIsIdempotent(n: NetworkState, kind: ProposalType)
    ensures EnactOnNetwork(EnactOnNetwork(n, kind), kind) == EnactOnNetwork(n, kind)
  {
  }

  /** The base fee after an accepted proposal. */
  function EnactOnBaseFee(fee: u128, kind: ProposalType): (r: u128)
    ensures kind.ChangeBaseFee? ==> r == kind.fee
    ensures !kind.ChangeBaseFee? ==> r == fee
  {
    if kind.ChangeBaseFee? then kind.fee else fee
  }

  /** The staking fee after an accepted proposal. */
  function EnactOnStakingFee(fee: u128, kind: ProposalType): (r: u128)
    ensures kind.ChangeStakeAmount? ==> r == kind.stake
    ensures !kind.ChangeStakeAmount? ==> r == fee
  {
    if kind.ChangeStakeAmount? then kind.stake else fee
  }

  // ---------------------------------------------------------------------------
  // Requests
  // ---------------------------------------------------------------------------

  /** The request `add_request` stores. */
  function NewRequest(caller: AccountId, epochs: u32, datasetCid: string, compressedSk: seq<u8>,
                      workers: set<AccountId>): (q: RequestsState)
    ensures q.status == ModelStatus.Pending && q.modelCid == [] && q.creator == caller
    ensures q.datasets == map[caller := ModelData(datasetCid, compressedSk)]
    ensures q.workers == workers && q.epochs == epochs
  {
    RequestsState(ModelStatus.Pending, workers, map[caller := ModelData(datasetCid, compressedSk)], [], caller, epochs)
  }

  /** What every stored request satisfies: nothing moves a request to `Training`,
      it is `Finished` exactly when it has a result, and its one dataset is the
      creator's. */
  predicate WellFormedRequest(q: RequestsState)
  {
    && q.status != ModelStatus.Training
    && (q.status == ModelStatus.Finished <==> |q.modelCid| > 0)
    && q.datasets.Keys == {q.creator}
  }

  class Contract {
    var network: NetworkState
    var requests: map<u32, RequestsState>
    var currentRequestId: u32
    var governance: GovernanceState

    /** The invariant every entrypoint keeps: request ids lie below the counter (so
        the next id is free), proposal `k` carries id `k` (as a `u32`), admitted
        workers are exactly the staked accounts, and requests are well formed. */
    ghost predicate Valid()
      reads this
    {
      && (forall id :: id in requests ==> id < currentRequestId)
      && (forall k :: 0 <= k < |governance.proposals| ==> governance.proposals[k].proposalId == k % U32_LIMIT)
      && StakedWorkers(network)
      && (forall id :: id in requests ==> WellFormedRequest(requests[id]))
    }

    /** The initial state. `Default` writes the admin `"0"`, which does not parse
        (see `DefaultAdminDoesNotParse`); this constructor takes the admin account
        instead and is otherwise `Default`: no workers, stakes, requests or
        proposals, request counter 0 and both fees 0. */
    constructor (admin: AccountId)
      ensures Valid() && NoVotesCast(governance)
      ensures network == NetworkState({}, map[]) && requests == map[] && currentRequestId == 0
      ensures governance == GovernanceState([], 0, admin, 0)
    {
      network := NetworkState({}, map[]);
      requests := map[];
      currentRequestId := 0;
      governance := GovernanceState([], 0, admin, 0);
    }

    /** `add_request`: with a sufficient deposit and parseable workers, stores a new
        pending request under the current id and increments the counter. */
    method AddRequest(caller: AccountId, deposit: u128, epochs: u32, datasetCid: string,
                      compressedSk: seq<u8>, workers: seq<string>) returns (r: Outcome<Error>)
      requires Valid()
      modifies this
      ensures Valid()
      ensures RequiredDeposit(old(governance.baseFee), epochs, |workers|).None? ==> r == Fail(ArithmeticOverflow)
      ensures RequiredDeposit(old(governance.baseFee), epochs, |workers|).Some?
              && deposit < RequiredDeposit(old(governance.baseFee), epochs, |workers|).value
              ==> r == Fail(InsufficientDeposit)
      ensures AdmitsRequest(old(governance.baseFee), epochs, |workers|, deposit) && ParseAccountIds(workers).None?
              ==> r == Fail(InvalidAccountId)
      ensures AdmitsRequest(old(governance.baseFee), epochs, |workers|, deposit) && ParseAccountIds(workers).Some?
              && old(currentRequestId) + 1 >= U32_LIMIT
              ==> r == Fail(ArithmeticOverflow)
      ensures r.Pass? <==> && AdmitsRequest(old(governance.baseFee), epochs, |workers|, deposit)
                           && ParseAccountIds(workers).Some?
                           && old(currentRequestId) + 1 < U32_LIMIT
      ensures r.Fail? ==> unchanged(this)
      ensures r.Pass? ==>
        && old(currentRequestId) !in old(requests)
        && requests == old(requests)[old(currentRequestId) :=
             NewRequest(caller, epochs, datasetCid, compressedSk, ParseAccountIds(workers).value)]
        && currentRequestId == old(currentRequestId) + 1
        && network == old(network) && governance == old(governance)
      ensures NoVotesCast(old(governance)) ==> NoVotesCast(governance)
    {
      var required := RequiredDeposit(governance.baseFee, epochs, |workers|);
      if required.None? {
        return Fail(ArithmeticOverflow);
      }
      if deposit < required.value {
        return Fail(InsufficientDeposit);
      }
      var parsedWorkers := ParseAccountIds(workers);
      if parsedWorkers.None? {
        return Fail(InvalidAccountId);
      }
      if currentRequestId + 1 >= U32_LIMIT {
        return Fail(ArithmeticOverflow);
      }
      requests := requests[currentRequestId := NewRequest(caller, epochs, datasetCid, compressedSk, parsedWorkers.value)];
      currentRequestId := currentRequestId + 1;
      return Pass;
    }

    /** `complete_request`, with its check as written: the call aborts when the
        caller IS one of the request's workers. Otherwise the request becomes
        `Finished` and `modelCid` is appended to its results. The method is not
        payable, so an attached deposit aborts the call first. */
    method CompleteRequest(caller: AccountId, deposit: u128, requestId: u32, modelCid: string) returns (r: Outcome<Error>)
      requires Valid()
      modifies this
      ensures Valid()
      ensures deposit != 0 ==> r == Fail(DepositNotAccepted)
      ensures deposit == 0 && requestId !in old(requests) ==> r == Fail(RequestNotFound)
      ensures deposit == 0 && requestId in old(requests) && caller in old(requests)[requestId].workers
              ==> r == Fail(CallerIsAssignedWorker)
      ensures r.Pass? <==> deposit == 0 && requestId in old(requests) && caller !in old(requests)[requestId].workers
      ensures r.Fail? ==> unchanged(this)
      ensures r.Pass? ==>
        && requests == old(requests)[requestId := old(requests)[requestId].(
             status := ModelStatus.Finished,
             modelCid := old(requests)[requestId].modelCid + [modelCid])]
        && currentRequestId == old(currentRequestId)
        && network == old(network) && governance == old(governance)
      ensures NoVotesCast(old(governance)) ==> NoVotesCast(governance)
    {
      if deposit != 0 {
        return Fail(DepositNotAccepted);
      }
      if requestId !in requests {
        return Fail(RequestNotFound);
      }
      var request := requests[requestId];
      if caller in request.workers {
        return Fail(CallerIsAssignedWorker);
      }
      requests := requests[requestId := request.(status := ModelStatus.Finished, modelCid := request.modelCid + [modelCid])];
      return Pass;
    }

    /** Appends `Proposal::new(proposals.len() as u32, kind, creator)`. */
    method Submit(kind: ProposalType, creator: AccountId)
      requires Valid()
      modifies this
      ensures Valid()
      ensures governance == old(governance).(proposals :=
                old(governance.proposals) + [NewProposal(|old(governance.proposals)|, kind, creator)])
      ensures network == old(network) && requests == old(requests) && currentRequestId == old(currentRequestId)
      ensures NoVotesCast(old(governance)) ==> NoVotesCast(governance)
    {
      governance := governance.(proposals := governance.proposals + [NewProposal(|governance.proposals|, kind, creator)]);
    }

    /** `add_worker`: the caller asks to join with the attached deposit as stake,
        which must be at least `staking_fee` whole NEAR. */
    method AddWorker(caller: AccountId, deposit: u128) returns (r: Outcome<Error>)
      requires Valid()
      modifies this
      ensures Valid()
      ensures FromNear(old(governance.stakingFee)).None? ==> r == Fail(ArithmeticOverflow)
      ensures FromNear(old(governance.stakingFee)).Some? && deposit < old(governance.stakingFee) * ONE_NEAR
              ==> r == Fail(InsufficientDeposit)
      ensures r.Pass? <==> deposit >= old(governance.stakingFee) * ONE_NEAR
      ensures r.Fail? ==> unchanged(this)
      ensures r.Pass? ==>
        && governance == old(governance).(proposals := old(governance.proposals)
             + [NewProposal(|old(governance.proposals)|, ProposalType.AddWorker(caller, deposit), caller)])
        && network == old(network) && requests == old(requests) && currentRequestId == old(currentRequestId)
      ensures NoVotesCast(old(governance)) ==> NoVotesCast(governance)
    {
      var required := FromNear(governance.stakingFee);
      if required.None? {
        return Fail(ArithmeticOverflow);
      }
      if deposit < required.value {
        return Fail(InsufficientDeposit);
      }
      Submit(ProposalType.AddWorker(caller, deposit), caller);
      return Pass;
    }

    /** `propose_remove_worker`: anyone may propose removing a (parseable) account.
        Not payable: an attached deposit aborts the call. */
    method ProposeRemoveWorker(caller: AccountId, deposit: u128, worker: string) returns (r: Outcome<Error>)
      requires Valid()
      modifies this
      ensures Valid()
      ensures deposit != 0 ==> r == Fail(DepositNotAccepted)
      ensures deposit == 0 && !ValidAccountId(worker) ==> r == Fail(InvalidAccountId)
      ensures r.Pass? <==> deposit == 0 && ValidAccountId(worker)
      ensures r.Fail? ==> unchanged(this)
      ensures r.Pass? ==>
        && governance == old(governance).(proposals := old(governance.proposals)
             + [NewProposal(|old(governance.proposals)|, RemoveWorker(worker), caller)])
        && network == old(network) && requests == old(requests) && currentRequestId == old(currentRequestId)
      ensures NoVotesCast(old(governance)) ==> NoVotesCast(governance)
    {
      if deposit != 0 {
        return Fail(DepositNotAccepted);
      }
      var parsed := ParseAccountId(worker);
      if parsed.None? {
        return Fail(InvalidAccountId);
      }
      Submit(RemoveWorker(parsed.value), caller);
      return Pass;
    }

    /** `propose_change_base_fee`: anyone may propose it. Not payable: an attached deposit
        aborts the call. */
    method ProposeChangeBaseFee(caller: AccountId, deposit: u128, fee: u128) returns (r: Outcome<Error>)
      requires Valid()
      modifies this
      ensures Valid()
      ensures r.Fail? <==> deposit != 0
      ensures r.Fail? ==> r == Fail(DepositNotAccepted) && unchanged(this)
      ensures r.Pass? ==>
        && governance == old(governance).(proposals := old(governance.proposals)
             + [NewProposal(|old(governance.proposals)|, ChangeBaseFee(fee), caller)])
        && network == old(network) && requests == old(requests) && currentRequestId == old(currentRequestId)
      ensures NoVotesCast(old(governance)) ==> NoVotesCast(governance)
    {
      if deposit != 0 {
        return Fail(DepositNotAccepted);
      }
      Submit(ChangeBaseFee(fee), caller);
      return Pass;
    }

    /** `propose_change_stake_amount`: anyone may propose it. Not payable: an attached deposit
        aborts the call. */
    method ProposeChangeStakeAmount(caller: AccountId, deposit: u128, stake: u128) returns (r: Outcome<Error>)
      requires Valid()
      modifies this
      ensures Valid()
      ensures r.Fail? <==> deposit != 0
      ensures r.Fail? ==> r == Fail(DepositNotAccepted) && unchanged(this)
      ensures r.Pass? ==>
        && governance == old(governance).(proposals := old(governance.proposals)
             + [NewProposal(|old(governance.proposals)|, ChangeStakeAmount(stake), caller)])
        && network == old(network) && requests == old(requests) && currentRequestId == old(currentRequestId)
      ensures NoVotesCast(old(governance)) ==> NoVotesCast(governance)
    {
      if deposit != 0 {
        return Fail(DepositNotAccepted);
      }
      Submit(ChangeStakeAmount(stake), caller);
      return Pass;
    }

    /** `execute_proposal`: admin only. An accepted proposal is enacted and marked
        `Approved`, any other is marked `Rejected`. The proposal's current status is
        never consulted, so executing it again enacts it again. Not payable: an
        attached deposit aborts the call first. */
    method ExecuteProposal(caller: AccountId, deposit: u128, proposalId: nat) returns (r: Outcome<Error>)
      requires Valid()
      modifies this
      ensures Valid()
      ensures deposit != 0 ==> r == Fail(DepositNotAccepted)
      ensures deposit == 0 && caller != old(governance.admin) ==> r == Fail(Unauthorized)
      ensures deposit == 0 && caller == old(governance.admin) && proposalId >= |old(governance.proposals)|
              ==> r == Fail(ProposalNotFound)
      ensures r.Pass? <==> deposit == 0 && caller == old(governance.admin) && proposalId < |old(governance.proposals)|
      ensures r.Fail? ==> unchanged(this)
      ensures r.Pass? ==>
        var p := old(governance.proposals)[proposalId];
        && governance.proposals == old(governance.proposals)[proposalId :=
             p.(status := if Accepted(p) then ProposalStatus.Approved else ProposalStatus.Rejected)]
        && governance.admin == old(governance.admin)
        && network == (if Accepted(p) then EnactOnNetwork(old(network), p.proposalType) else old(network))
        && governance.baseFee == (if Accepted(p) then EnactOnBaseFee(old(governance.baseFee), p.proposalType) else old(governance.baseFee))
        && governance.stakingFee == (if Accepted(p) then EnactOnStakingFee(old(governance.stakingFee), p.proposalType) else old(governance.stakingFee))
        && requests == old(requests) && currentRequestId == old(currentRequestId)
      ensures NoVotesCast(old(governance)) ==> NoVotesCast(governance)
      ensures NoVotesCast(old(governance)) ==>
        && network == old(network)
        && governance.baseFee == old(governance.baseFee) && governance.stakingFee == old(governance.stakingFee)
    {
      if deposit != 0 {
        return Fail(DepositNotAccepted);
      }
      if caller != governance.admin {
        return Fail(Unauthorized);
      }
      if proposalId >= |governance.proposals| {
        return Fail(ProposalNotFound);
      }
      var p := governance.proposals[proposalId];
      if Accepted(p) {
        EnactKeepsWorkersStaked(network, p.proposalType);
        network := EnactOnNetwork(network, p.proposalType);
        governance := governance.(
          baseFee := EnactOnBaseFee(governance.baseFee, p.proposalType),
          stakingFee := EnactOnStakingFee(governance.stakingFee, p.proposalType),
          proposals := governance.proposals[proposalId := p.(status := ProposalStatus.Approved)]);
      } else {
        governance := governance.(proposals := governance.proposals[proposalId := p.(status := ProposalStatus.Rejected)]);
      }
      return Pass;
    }
  }
}
