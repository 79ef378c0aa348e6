/** The records the coordination contract stores: network membership, training
    requests and governance proposals. The shapes follow the way the contract's
    entrypoints use them: a worker set with a stake map, an `AddWorker` proposal
    carrying the candidate and the attached stake, and 128-bit fees. */
module ContractState {
  import opened Primitives

  /** A training request is exactly one of these; `Pending` waits for workers to join. */
  datatype ModelStatus = Pending | Training | Finished

  /** A dataset's content identifier and the publisher's compressed secret key. */
  datatype ModelData = ModelData(dataset: string, compressedSecretKey: seq<u8>)

  /** One submitted training job. `datasets` is keyed by the publisher's account. */
  datatype RequestsState = RequestsState(
    status: ModelStatus,
    workers: set<AccountId>,
    datasets: map<AccountId, ModelData>,
    modelCid: seq<string>,
    creator: AccountId,
    epochs: u32)

  /** Admitted workers and what each of them staked, in yoctoNEAR. */
  datatype NetworkState = NetworkState(workers: set<AccountId>, stake: map<AccountId, u128>)

  /** The four kinds of governance change. */
  datatype ProposalType =
    | AddWorker(candidate: AccountId, amount: u128)
    | RemoveWorker(worker: AccountId)
    | ChangeBaseFee(fee: u128)
    | ChangeStakeAmount(stake: u128)

  datatype ProposalStatus = Pending | Approved | Rejected

  datatype Vote = For | Against

  /** A proposal with its per-voter votes and separate tallies
      (`againstVotes` is spelled `angaist_votes` in the contract). */
  datatype Proposal = Proposal(
    proposalId: u32,
    proposalType: ProposalType,
    creator: AccountId,
    status: ProposalStatus,
    votes: map<AccountId, Vote>,
    forVotes: u32,
    againstVotes: u32)

  /** The proposal list, the fees and the single account that executes proposals. */
  datatype GovernanceState = GovernanceState(
    proposals: seq<Proposal>,
    baseFee: u128,
    admin: AccountId,
    stakingFee: u128)
}
