/** What the pool program stores (its books), and what the chain holds for it
    (its ledger): the reserve, the stSOL mint and the numbered stake accounts. */
module State {
  import opened Bytes
  import opened Results
  import opened Token

  /** Rent-exempt minimum of an empty account and of a stake account. */
  const RESERVE_RENT: nat := 890_880
  const STAKE_RENT: nat := 2_282_880

  const MINIMUM_STAKE_ACCOUNT_BALANCE: nat := 1_002_282_880
  const MAXIMUM_UNSTAKE_ACCOUNTS: nat := 3

  // ---------------------------------------------------------------- ledger

  datatype StakeBalance = StakeBalance(inactive: nat, activating: nat, active: nat, deactivating: nat) {
    function Total(): nat {
      inactive + activating + active + deactivating
    }
  }

  /** When stake was activated, and how many credits of the vote account it was
      last rewarded for. */
  datatype Delegation = Delegation(activationEpoch: nat, creditsObserved: nat)

  /** An account at a stake address: a live stake account of the pool; an unused
      address that may hold lamports which somebody sent there; an address whose
      stake account was emptied, and which somebody who acts in the same
      transaction can take over; or one that was taken over. */
  datatype StakeAccount =
    | Unused(lamports: nat)
    | Closed
    | Taken(lamports: nat)
    | Live(balance: StakeBalance, delegation: Delegation)
  {
    function Lamports(): nat {
      match this
      case Unused(lamports) => lamports
      case Closed => 0
      case Taken(lamports) => lamports
      case Live(balance, _) => balance.Total()
    }

    /** There is no data at the address, so an account can be created there. */
    predicate IsFree() {
      Unused? || Closed?
    }

    /** Nothing activating, active or deactivating. */
    predicate FullyInactive() {
      Live? && balance.inactive == balance.Total()
    }

    predicate IsActive() {
      Live? && balance.active > 0 && balance.activating == 0 && balance.deactivating == 0
    }

    predicate IsInactive() {
      Live? && balance.active == 0 && balance.activating == 0 && balance.deactivating == 0
    }

    predicate IsActivating() {
      Live? && balance.activating > 0
    }

    /** Activating, and nothing of it active yet. */
    predicate InActivationEpoch() {
      IsActivating() && balance.active == 0 && balance.deactivating == 0
    }
  }

  /** Which stake accounts of one validator the stake program merges: two inactive
      ones; an inactive one and one in its activation epoch; and with the same
      credits, two active ones or two in the same activation epoch. */
  predicate Mergeable(into: StakeAccount, from: StakeAccount) {
    || (into.IsInactive() && from.IsInactive())
    || (into.IsInactive() && from.InActivationEpoch()) || (into.InActivationEpoch() && from.IsInactive())
    || (into.Live? && from.Live? && into.delegation.creditsObserved == from.delegation.creditsObserved
        && ((into.IsActive() && from.IsActive())
            || (into.InActivationEpoch() && from.InActivationEpoch()
                && into.delegation.activationEpoch == from.delegation.activationEpoch)))
  }

  /** Whether a maintainer should propose a merge. */
  function CanMerge(into: StakeAccount, from: StakeAccount): bool
    requires into.Live? && from.Live?
  {
    if into.IsInactive() && from.IsInactive() then true
    else if (from.IsInactive() && into.IsActivating()) || (into.IsInactive() && from.IsActivating()) then true
    else if into.delegation.creditsObserved == from.delegation.creditsObserved then
      if into.IsActive() && from.IsActive() then true
      else into.IsActivating() && from.IsActivating() && into.delegation.activationEpoch == from.delegation.activationEpoch
    else false
  }

  /** An account whose stake activates over more than one epoch. */
  predicate PartlyActivated(a: StakeAccount) {
    a.IsActivating() && !a.InActivationEpoch()
  }

  /** Everything that the stake program merges is proposed. What is proposed is
      merged, unless it involves partly activated stake: then it never is. */
  lemma CanMergeIff(into: StakeAccount, from: StakeAccount)
    requires into.Live? && from.Live?
    ensures Mergeable(into, from) <==> CanMerge(into, from) && !PartlyActivated(into) && !PartlyActivated(from)
    ensures Mergeable(into, from) <==> Mergeable(from, into)
  {
  }

  /** The division of a delegated account's lamports, from what the runtime says
      of its delegation; there, deactivating stake also counts as effective. */
  function FromDelegatedAccount(lamports: nat, effective: nat, activating: nat, deactivating: nat): (r: Result<StakeBalance>)
    requires deactivating <= effective
    ensures r.Ok? <==> effective + activating <= lamports
    ensures r.Ok? ==> r.value.Total() == lamports
    ensures r.Ok? ==> (r.value.inactive == r.value.Total() <==> effective == 0 && activating == 0)
  {
    var active: nat := effective - deactivating;
    :- Need(active <= lamports, Panicked(StakeExceedsAccount));
    :- Need(activating <= lamports - active, Panicked(StakeExceedsAccount));
    :- Need(deactivating <= lamports - active - activating, Panicked(StakeExceedsAccount));
    Ok(StakeBalance(lamports - active - activating - deactivating, activating, active, deactivating))
  }

  /** Every division is that of some delegation. */
  lemma EveryDivisionOccurs(b: StakeBalance)
    ensures FromDelegatedAccount(b.Total(), b.active + b.deactivating, b.activating, b.deactivating) == Ok(b)
  {
  }

  /** Such a merge is proposed again and again: of 5 inactive, 3 activating and 2
      active units with 10 inactive ones. */
  lemma ProposedButNeverMerged(unit: nat, delegation: Delegation)
    requires 0 < unit
    ensures var into := Live(StakeBalance(5 * unit, 3 * unit, 2 * unit, 0), delegation);
      var from := Live(StakeBalance(10 * unit, 0, 0, 0), delegation);
      CanMerge(into, from) && !Mergeable(into, from)
  {
  }

  /** The three families of addresses derived for a validator. Temporary
      addresses are tied to an epoch and only live inside a merging deposit. */
  datatype StakeKind = Stake | Unstake | Temporary(epoch: nat)

  datatype AccountId = AccountId(vote: Pubkey, kind: StakeKind, seed: nat)

  type Ledger = map<AccountId, StakeAccount>

  function At(l: Ledger, id: AccountId): StakeAccount {
    if id in l then l[id] else Unused(0)
  }

  function SumLamports(l: Ledger, vote: Pubkey, kind: StakeKind, lo: nat, hi: nat): nat
    decreases hi - lo
  {
    if hi <= lo then 0
    else SumLamports(l, vote, kind, lo, hi - 1) + At(l, AccountId(vote, kind, hi - 1)).Lamports()
  }

  // ---------------------------------------------------------------- books

  datatype SeedRange = SeedRange(begin: nat, end: nat) {
    predicate Contains(seed: nat) {
      begin <= seed < end
    }
  }

  datatype Status = AcceptingStakes | StakesSuspended | PendingRemoval

  datatype Validator = Validator(
    voteAccount: Pubkey,
    stakeSeeds: SeedRange,
    unstakeSeeds: SeedRange,
    stakeAccountsBalance: nat,
    unstakeAccountsBalance: nat,
    effectiveStakeBalance: nat,
    status: Status)
  {
    predicate IsActive() {
      status.AcceptingStakes?
    }

    /** The balance in the stake accounts only, recomputed. */
    function ComputeEffective(): Result<nat> {
      if unstakeAccountsBalance <= stakeAccountsBalance
      then Ok(stakeAccountsBalance - unstakeAccountsBalance)
      else Err(Panicked(UnstakeExceedsStake))
    }

    /** New tracked balances, with the cached effective balance refreshed. */
    function Track(stake: nat, unstake: nat): Result<Validator> {
      var v := this.(stakeAccountsBalance := stake, unstakeAccountsBalance := unstake);
      var effective :- v.ComputeEffective();
      Ok(v.(effectiveStakeBalance := effective))
    }

    function CheckCanBeRemoved(): Check {
      if !status.PendingRemoval? then Fail(ValidatorIsStillActive)
      else if stakeSeeds.begin != stakeSeeds.end then Fail(ValidatorShouldHaveNoStakeAccounts)
      else if unstakeSeeds.begin != unstakeSeeds.end then Fail(ValidatorShouldHaveNoUnstakeAccounts)
      else if stakeAccountsBalance != 0 then Fail(Panicked(RemovedWithBalance))
      else Pass
    }
  }

  function NewValidator(vote: Pubkey): Validator {
    Validator(vote, SeedRange(0, 0), SeedRange(0, 0), 0, 0, 0, AcceptingStakes)
  }

  /** Upper bounds of the deposit histogram's buckets. */
  const BUCKET_UPPER_BOUNDS: seq<nat> := [
    100_000, 1_000_000, 10_000_000, 100_000_000, 1_000_000_000, 10_000_000_000, 100_000_000_000,
    1_000_000_000_000, 10_000_000_000_000, 100_000_000_000_000, 1_000_000_000_000_000, MAX_U64]

  type Counts = c: seq<nat> | |c| == 12 witness seq(12, _ => 0)

  datatype Histogram = Histogram(counts: Counts, total: nat)

  function Bucketed(c: Counts, amount: nat): Counts {
    seq(12, i requires 0 <= i < 12 => c[i] + if amount <= BUCKET_UPPER_BOUNDS[i] then 1 else 0)
  }

  datatype Metrics = Metrics(
    feeTreasurySol: nat,
    feeDeveloperSol: nat,
    appreciationSol: nat,
    feeTreasuryStSol: nat,
    feeDeveloperStSol: nat,
    deposits: Histogram,
    withdrawnStSol: nat,
    withdrawnSol: nat,
    withdrawCount: nat)

  const NEW_METRICS := Metrics(0, 0, 0, 0, 0, Histogram([0, 0, 0, 0, 0, 0, 0, 0, 0, 0, 0, 0], 0), 0, 0, 0)

  /** What outsiders gave to the pool's accounts so far, and what the reserve
      held when the pool was set up. History only: no instruction reads it. */
  datatype Gifts = Gifts(initial: nat, reserve: nat, accounts: map<AccountId, nat>) {
    function To(id: AccountId): nat {
      if id in accounts then accounts[id] else 0
    }
  }

  datatype State = State(
    epoch: nat,
    reserve: nat,
    supply: nat,
    accounts: Ledger,
    rate: ExchangeRate,
    distribution: RewardDistribution,
    metrics: Metrics,
    validators: seq<Validator>,
    maxValidators: nat,
    gifts: Gifts)

  // ---------------------------------------------------------------- totals

  function SumStake(vs: seq<Validator>): nat {
    if vs == [] then 0 else SumStake(vs[..|vs| - 1]) + vs[|vs| - 1].stakeAccountsBalance
  }

  /** The reserve without the rent that can never be transferred. */
  function ReserveAvailable(reserve: nat): Result<nat> {
    if RESERVE_RENT <= reserve then Ok(reserve - RESERVE_RENT) else Err(ReserveIsNotRentExempt)
  }

  /** All SOL that the pool manages according to its books. */
  function PoolSol(s: State): int {
    s.reserve - RESERVE_RENT + SumStake(s.validators)
  }

  /** The checked sum over the validators, as an iterator computes it. */
  function CheckedSumStake(vs: seq<Validator>): Result<nat> {
    if vs == [] then Ok(0)
    else
      var front :- CheckedSumStake(vs[..|vs| - 1]);
      Add(front, vs[|vs| - 1].stakeAccountsBalance)
  }

  function GetSolBalance(s: State): Result<nat> {
    var available :- ReserveAvailable(s.reserve);
    var staked :- CheckedSumStake(s.validators);
    Add(staked, available)
  }

  // ---------------------------------------------------------------- list operations

  predicate HasKey(vs: seq<Validator>, vote: Pubkey) {
    exists i :: 0 <= i < |vs| && vs[i].voteAccount == vote
  }

  /** The element at an index, if it is the one with the expected key. */
  function GetAt(vs: seq<Validator>, index: nat, vote: Pubkey): (r: Result<Validator>)
    ensures r.Ok? ==> index < |vs| && r.value == vs[index] && vs[index].voteAccount == vote
  {
    if index >= |vs| then Err(AccountListIndexOutOfBounds)
    else if vs[index].voteAccount != vote then Err(PubkeyIndexMismatch)
    else Ok(vs[index])
  }

  /** Removal that moves the last element into the gap. */
  function SwapRemove<T>(xs: seq<T>, i: nat): seq<T>
    requires i < |xs|
  {
    xs[i := xs[|xs| - 1]][..|xs| - 1]
  }

  /** The least effective balance among active validators. */
  function MinimumActive(vs: seq<Validator>): Result<nat> {
    if vs == [] then Err(NoActiveValidators)
    else
      var v, front := vs[|vs| - 1], MinimumActive(vs[..|vs| - 1]);
      if v.IsActive() && (front.Err? || v.effectiveStakeBalance < front.value)
      then Ok(v.effectiveStakeBalance) else front
  }

  /** The greatest effective balance among all validators. */
  function MaximumEffective(vs: seq<Validator>): Result<nat> {
    if vs == [] then Err(NoActiveValidators)
    else
      var v, front := vs[|vs| - 1], MaximumEffective(vs[..|vs| - 1]);
      if front.Err? || v.effectiveStakeBalance >= front.value
      then Ok(v.effectiveStakeBalance) else front
  }
}
