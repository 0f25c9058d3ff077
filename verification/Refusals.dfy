/** When an instruction is refused in a reachable state, what its error says is true. */
module Refusals {
  import opened Bytes
  import opened Results
  import opened Token
  import opened State
  import opened Instructions
  import opened LedgerFacts
  import opened Books
  import opened Solvency
  import opened Updates
  import opened Imbalance
  import opened Panics
  import opened Acceptance
  import opened Effects

  /** The caller named no listed validator. */
  predicate BadName(vs: seq<Validator>, index: nat, vote: Pubkey, e: Error) {
    match e
    case AccountListIndexOutOfBounds => |vs| <= index
    case PubkeyIndexMismatch => index < |vs| && vs[index].voteAccount != vote
    case _ => false
  }

  predicate NoneActive(vs: seq<Validator>) {
    forall i :: 0 <= i < |vs| ==> !vs[i].status.AcceptingStakes?
  }

  predicate StakeDepositCause(s: State, amount: nat, index: nat, vote: Pubkey, approach: Approach, e: Error) {
    match e
    case InvalidAmount => amount < MINIMUM_STAKE_ACCOUNT_BALANCE
    case AmountExceedsReserve => s.reserve < RESERVE_RENT + amount
    case NoActiveValidators => NoneActive(s.validators)
    case StakeToInactiveValidator => Names(s.validators, index, vote) && !s.validators[index].status.AcceptingStakes?
    case ValidatorWithLessStakeExists => Names(s.validators, index, vote) && !Lowest(s.validators, index)
    case WrongStakeState =>
      && Names(s.validators, index, vote)
      && !FreeAt(s, vote, if approach.Append? then Stake else Temporary(s.epoch), s.validators[index].stakeSeeds.end)
    case CalculationFailure => Names(s.validators, index, vote) && MAX_U64 < s.validators[index].stakeAccountsBalance + amount
    case InvalidStakeAccount => approach.Merge? && Names(s.validators, index, vote) && Accounts(s.validators[index].stakeSeeds) == 0
    case RuntimeRejected =>
      && approach.Merge? && Names(s.validators, index, vote) && 0 < Accounts(s.validators[index].stakeSeeds)
      && var seeds := s.validators[index].stakeSeeds;
      var into := At(s.accounts, AccountId(vote, Stake, seeds.end - 1));
      || !(into.IsInactive() || into.InActivationEpoch())
      || approach.balance.Total() != into.Lamports() + Lamports(s, vote, Temporary(s.epoch), seeds.end) + amount
    case _ => BadName(s.validators, index, vote, e)
  }

  function Accounts(seeds: SeedRange): nat {
    if seeds.begin <= seeds.end then seeds.end - seeds.begin else 0
  }

  /** Once amount and validator are right, what remains is up to the accounts. */
  predicate RightTarget(s: State, amount: nat, index: nat, vote: Pubkey) {
    && MINIMUM_STAKE_ACCOUNT_BALANCE <= amount && RESERVE_RENT + amount <= s.reserve
    && Names(s.validators, index, vote) && s.validators[index].IsActive() && Lowest(s.validators, index)
  }

  lemma AppendRefused(s: State, amount: nat, index: nat, vote: Pubkey, credits: nat)
    requires Inv(s) && RightTarget(s, amount, index, vote) && StakeDeposit(s, amount, index, vote, Append(credits)).Err?
    ensures StakeDepositCause(s, amount, index, vote, Append(credits), StakeDeposit(s, amount, index, vote, Append(credits)).error)
  {
    MinimumActiveIsLeast(s.validators);
    AccountsOf(s, index);
  }

  lemma MergeRefused(s: State, amount: nat, index: nat, vote: Pubkey, balance: StakeBalance)
    requires Inv(s) && RightTarget(s, amount, index, vote) && StakeDeposit(s, amount, index, vote, Merge(balance)).Err?
    ensures StakeDepositCause(s, amount, index, vote, Merge(balance), StakeDeposit(s, amount, index, vote, Merge(balance)).error)
  {
    MinimumActiveIsLeast(s.validators);
    AccountsOf(s, index);
  }

  lemma TargetRefused(s: State, amount: nat, index: nat, vote: Pubkey, approach: Approach)
    requires Inv(s) && !RightTarget(s, amount, index, vote) && StakeDeposit(s, amount, index, vote, approach).Err?
    ensures StakeDepositCause(s, amount, index, vote, approach, StakeDeposit(s, amount, index, vote, approach).error)
  {
    MinimumActiveIsLeast(s.validators);
    MinimumErrors(s.validators);
  }

  lemma StakeDepositRefused(s: State, amount: nat, index: nat, vote: Pubkey, approach: Approach)
    requires Inv(s) && StakeDeposit(s, amount, index, vote, approach).Err?
    ensures StakeDepositCause(s, amount, index, vote, approach, StakeDeposit(s, amount, index, vote, approach).error)
  {
    if RightTarget(s, amount, index, vote) {
      match approach
      case Append(credits) => AppendRefused(s, amount, index, vote, credits);
      case Merge(balance) => MergeRefused(s, amount, index, vote, balance);
    } else {
      TargetRefused(s, amount, index, vote, approach);
    }
  }

  predicate UnstakeCause(s: State, amount: nat, index: nat, vote: Pubkey, remainder: StakeBalance, balance: StakeBalance, e: Error) {
    if !Names(s.validators, index, vote) then BadName(s.validators, index, vote, e)
    else
      var v := s.validators[index];
      var source := Lamports(s, vote, Stake, v.stakeSeeds.begin);
      match e
      case InvalidStakeAccount => Accounts(v.stakeSeeds) == 0
      case MaxUnstakeAccountsReached => Accounts(v.unstakeSeeds) == MAXIMUM_UNSTAKE_ACCOUNTS
      case InvalidAmount => if v.status.AcceptingStakes? then source < amount + MINIMUM_STAKE_ACCOUNT_BALANCE else amount != source
      case CalculationFailure => MAX_U64 < v.unstakeAccountsBalance + amount
      case Panicked(cause) => cause == UnstakeExceedsStake && v.effectiveStakeBalance < amount
      case RuntimeRejected =>
        || source < amount || (amount < source && source <= amount + STAKE_RENT) || !SplitAllowed(s, amount, v, remainder, balance)
      case _ => false
  }

  /** Once the entry allows it, what remains is up to the split and the tracked balances. */
  lemma SplitRefused(s: State, amount: nat, index: nat, vote: Pubkey, remainder: StakeBalance, balance: StakeBalance)
    requires Inv(s) && Unstaking(s, amount, index, vote, remainder, balance).Err?
    requires Names(s.validators, index, vote) && 0 < Accounts(s.validators[index].stakeSeeds)
    requires Accounts(s.validators[index].unstakeSeeds) < MAXIMUM_UNSTAKE_ACCOUNTS
    ensures UnstakeCause(s, amount, index, vote, remainder, balance, Unstaking(s, amount, index, vote, remainder, balance).error)
  {
    AccountsOf(s, index);
  }

  lemma UnstakeRefused(s: State, amount: nat, index: nat, vote: Pubkey, remainder: StakeBalance, balance: StakeBalance)
    requires Inv(s) && Unstaking(s, amount, index, vote, remainder, balance).Err?
    ensures UnstakeCause(s, amount, index, vote, remainder, balance, Unstaking(s, amount, index, vote, remainder, balance).error)
  {
    if Names(s.validators, index, vote) {
      var v := s.validators[index];
      assert Accounted(s.accounts, v);
      if 0 < Accounts(v.stakeSeeds) && Accounts(v.unstakeSeeds) < MAXIMUM_UNSTAKE_ACCOUNTS {
        SplitRefused(s, amount, index, vote, remainder, balance);
      }
    }
  }

  predicate MergeStakeCause(s: State, index: nat, vote: Pubkey, balance: StakeBalance, e: Error) {
    if !Names(s.validators, index, vote) then BadName(s.validators, index, vote, e)
    else
      var seeds := s.validators[index].stakeSeeds;
      match e
      case InvalidStakeAccount => Accounts(seeds) < 2
      case RuntimeRejected =>
        || !Mergeable(At(s.accounts, AccountId(vote, Stake, seeds.begin + 1)), At(s.accounts, AccountId(vote, Stake, seeds.begin)))
        || balance.Total() != Lamports(s, vote, Stake, seeds.begin) + Lamports(s, vote, Stake, seeds.begin + 1)
      case _ => false
  }

  lemma MergeStakeRefused(s: State, index: nat, vote: Pubkey, balance: StakeBalance)
    requires Inv(s) && MergeStake(s, index, vote, balance).Err?
    ensures MergeStakeCause(s, index, vote, balance, MergeStake(s, index, vote, balance).error)
  {
    if index < |s.validators| {
      AccountsOf(s, index);
    }
  }

  predicate WithdrawCause(s: State, amount: nat, index: nat, vote: Pubkey, payout: Payout, e: Error) {
    if s.rate.computedInEpoch < s.epoch then e.ExchangeRateNotUpdatedInThisEpoch?
    else if s.validators == [] then e.NoActiveValidators?
    else if !Names(s.validators, index, vote) then BadName(s.validators, index, vote, e)
    else
      var v := s.validators[index];
      var source := Lamports(s, vote, Stake, v.stakeSeeds.begin);
      var sol := ExchangeStSol(s.rate, amount);
      match e
      case ValidatorHasNoStake => v.effectiveStakeBalance == 0
      case ValidatorWithMoreStakeExists => !Highest(s.validators, index)
      case InvalidAmount => s.rate.stSolSupply == 0 || (sol.Ok? && (source / 10 + 10 * LAMPORTS_PER_SOL < sol.value || source < sol.value + MINIMUM_STAKE_ACCOUNT_BALANCE))
      case CalculationFailure =>
        || (0 < s.rate.stSolSupply && (MAX_U64 + 1) * s.rate.stSolSupply <= amount * s.rate.solBalance)
        || MAX_U64 < source / 10 + 10 * LAMPORTS_PER_SOL
        || (sol.Ok? && (source < sol.value || v.stakeAccountsBalance < sol.value
                        || MAX_U64 < s.metrics.withdrawnStSol + amount || MAX_U64 < s.metrics.withdrawnSol + sol.value))
      case Panicked(cause) =>
        || (cause == UnstakeExceedsStake && sol.Ok? && v.effectiveStakeBalance < sol.value)
        || (cause == SourceBelowMinimum && source < MINIMUM_STAKE_ACCOUNT_BALANCE)
        || (cause == LimitOverflow && MAX_U64 < source)
      case RuntimeRejected =>
        s.supply < amount || (sol.Ok? && (payout.remainder.Total() + sol.value != source || !CanReceive(payout.destination, sol.value)))
      case _ => false
  }

  /** Why the amount is not within the limits of its source. */
  predicate LimitCause(source: nat, sol: nat, e: Error) {
    match e
    case InvalidAmount => source / 10 + 10 * LAMPORTS_PER_SOL < sol || source < sol + MINIMUM_STAKE_ACCOUNT_BALANCE
    case CalculationFailure => MAX_U64 < source / 10 + 10 * LAMPORTS_PER_SOL || source < sol
    case Panicked(cause) =>
      (cause == SourceBelowMinimum && source < MINIMUM_STAKE_ACCOUNT_BALANCE) || (cause == LimitOverflow && MAX_U64 < source)
    case _ => false
  }

  lemma LimitRefused(source: nat, sol: nat)
    requires CheckWithdrawAmount(source, sol).Err?
    ensures LimitCause(source, sol, CheckWithdrawAmount(source, sol).error)
  {
  }

  lemma ExchangeRefused(rate: ExchangeRate, amount: nat)
    requires ExchangeStSol(rate, amount).Err?
    ensures match ExchangeStSol(rate, amount).error
      case InvalidAmount => rate.stSolSupply == 0
      case CalculationFailure => 0 < rate.stSolSupply && (MAX_U64 + 1) * rate.stSolSupply <= amount * rate.solBalance
      case _ => false
  {
  }

  /** Without the checks that compare validators, what remains. */
  lemma PayoutRefused(s: State, amount: nat, index: nat, vote: Pubkey, payout: Payout, sol: nat)
    requires Inv(s) && Withdraw(s, amount, index, vote, payout).Err?
    requires s.epoch <= s.rate.computedInEpoch && Names(s.validators, index, vote) && Highest(s.validators, index)
    requires 0 < s.validators[index].effectiveStakeBalance && ExchangeStSol(s.rate, amount) == Ok(sol)
    requires CheckWithdrawAmount(Oldest(s, index).Lamports(), sol).Ok?
    ensures WithdrawCause(s, amount, index, vote, payout, Withdraw(s, amount, index, vote, payout).error)
  {
    MaximumEffectiveIsGreatest(s.validators);
    AccountsOf(s, index);
    StakedHasAccount(s.accounts, s.validators[index]);
  }

  lemma WithdrawRefused(s: State, amount: nat, index: nat, vote: Pubkey, payout: Payout)
    requires Inv(s) && Withdraw(s, amount, index, vote, payout).Err?
    ensures WithdrawCause(s, amount, index, vote, payout, Withdraw(s, amount, index, vote, payout).error)
  {
    MinimumErrors(s.validators);
    MaximumEffectiveIsGreatest(s.validators);
    var sol := ExchangeStSol(s.rate, amount);
    if sol.Err? {
      ExchangeRefused(s.rate, amount);
    } else if Names(s.validators, index, vote) {
      var source := Oldest(s, index).Lamports();
      if CheckWithdrawAmount(source, sol.value).Err? {
        LimitRefused(source, sol.value);
      } else if s.epoch <= s.rate.computedInEpoch && Highest(s.validators, index) && 0 < s.validators[index].effectiveStakeBalance {
        PayoutRefused(s, amount, index, vote, payout, sol.value);
      }
    }
  }

  // ---------------------------------------------------------------- the other instructions

  lemma DepositRefused(s: State, amount: nat)
    requires Inv(s) && amount <= MAX_U64 && Deposit(s, amount).Err?
    ensures match Deposit(s, amount).error
      case InvalidArgument => amount == 0
      case RuntimeRejected => MAX_U64 < s.supply + InStSol(s.rate, amount)
      case CalculationFailure => MAX_U64 < s.metrics.deposits.total + amount
      case _ => false
  {
    InStSolIsExchange(s.rate, amount);
  }

  lemma RateUpdateRefused(s: State)
    requires Inv(s) && UpdateExchangeRate(s).Err?
    ensures match UpdateExchangeRate(s).error
      case ExchangeRateAlreadyUpToDate => s.epoch <= s.rate.computedInEpoch
      case CalculationFailure => s.rate.computedInEpoch < s.epoch && MAX_U64 < PoolSol(s)
      case _ => false
  {
    GetSolBalanceIsPoolSol(s);
    CheckedSumError(s.validators);
  }

  predicate FeesCause(s: State, rewards: nat, e: Error) {
    match e
    case ExchangeRateNotUpdatedInThisEpoch => s.rate.computedInEpoch < s.epoch
    case CalculationFailure => !FeesFit(s, rewards)
    case RuntimeRejected =>
      var d := s.distribution;
      0 < d.Sum() && MAX_U64 < s.supply + InStSol(s.rate, ShareOf(d.treasuryFee, d, rewards)) + InStSol(s.rate, ShareOf(d.developerFee, d, rewards))
    case _ => false
  }

  lemma FeesRefused(s: State, rewards: nat)
    requires s.rate.stSolSupply <= s.rate.solBalance && 0 < rewards <= MAX_U64 && DistributeFees(s, rewards).Err?
    ensures FeesCause(s, rewards, DistributeFees(s, rewards).error)
  {
    FeesOf(s, rewards);
    FeesAccepted(s, rewards);
    RewardSplit(s.distribution, rewards);
  }

  /** Refused are an unknown validator, an account without its rent, lamports that do not
      fit, and fees that cannot be paid. */
  lemma UpdateRefused(s: State, index: nat, vote: Pubkey)
    requires Inv(s) && UpdateStakeAccountBalance(s, index, vote).Err?
    ensures var e := UpdateStakeAccountBalance(s, index, vote).error;
      if !Names(s.validators, index, vote) then BadName(s.validators, index, vote, e)
      else
        var v := s.validators[index];
        var lamports := StakeLamports(s.accounts, v) + UnstakeLamports(s.accounts, v);
        || (e == Panicked(LessThanRent) && !AllKeepRent(s.accounts, vote, v.stakeSeeds.begin, v.stakeSeeds.end))
        || (e == CalculationFailure && MAX_U64 < lamports)
        || (v.stakeAccountsBalance < lamports && FeesCause(s, lamports - v.stakeAccountsBalance, e))
  {
    if Names(s.validators, index, vote) {
      UpdateFailsOnlyOutside(s, index);
      var v := s.validators[index];
      if Examine(s.accounts, v).Ok? {
        UpdateFeesRefused(s, index, vote);
      } else {
        WalkErrors(s, index);
      }
    }
  }

  lemma {:induction false} StakeDoesNotFit(l: Ledger, vote: Pubkey, lo: nat, hi: nat)
    ensures WalkStake(l, vote, lo, hi) == Err(CalculationFailure) ==> MAX_U64 < SumLamports(l, vote, Stake, lo, hi)
    decreases hi - lo
  {
    if lo < hi {
      StakeDoesNotFit(l, vote, lo, hi - 1);
    }
  }

  lemma {:induction false} UnstakeDoesNotFit(l: Ledger, vote: Pubkey, lo: nat, hi: nat)
    ensures WalkUnstake(l, vote, lo, hi) == Err(CalculationFailure) ==> MAX_U64 < SumLamports(l, vote, Unstake, lo, hi)
    decreases hi - lo
  {
    if lo < hi {
      UnstakeDoesNotFit(l, vote, lo, hi - 1);
    }
  }

  lemma WalkErrors(s: State, index: nat)
    requires Inv(s) && index < |s.validators| && Examine(s.accounts, s.validators[index]).Err?
    ensures var e, v := Examine(s.accounts, s.validators[index]).error, s.validators[index];
      || (e == Panicked(LessThanRent) && !AllKeepRent(s.accounts, v.voteAccount, v.stakeSeeds.begin, v.stakeSeeds.end))
      || (e == CalculationFailure && MAX_U64 < StakeLamports(s.accounts, v) + UnstakeLamports(s.accounts, v))
  {
    UpdateFailsOnlyOutside(s, index);
    var v := s.validators[index];
    WalkUnstakeErrors(s.accounts, v.voteAccount, v.unstakeSeeds.begin, v.unstakeSeeds.end);
    if WalkStake(s.accounts, v.voteAccount, v.stakeSeeds.begin, v.stakeSeeds.end) == Err(Panicked(LessThanRent)) {
      RentErrorIsTrue(s.accounts, v.voteAccount, v.stakeSeeds.begin, v.stakeSeeds.end);
    }
    StakeDoesNotFit(s.accounts, v.voteAccount, v.stakeSeeds.begin, v.stakeSeeds.end);
    UnstakeDoesNotFit(s.accounts, v.voteAccount, v.unstakeSeeds.begin, v.unstakeSeeds.end);
  }

  lemma UpdateFeesRefused(s: State, index: nat, vote: Pubkey)
    requires Inv(s) && Names(s.validators, index, vote) && UpdateStakeAccountBalance(s, index, vote).Err?
    requires Examine(s.accounts, s.validators[index]).Ok?
    ensures var e, v := UpdateStakeAccountBalance(s, index, vote).error, s.validators[index];
      var rewards := StakeLamports(s.accounts, v) + UnstakeLamports(s.accounts, v) - v.stakeAccountsBalance;
      0 < rewards && FeesCause(s, rewards, e)
  {
    var f := Examine(s.accounts, s.validators[index]).value;
    ExaminedRewards(s.accounts, s.validators[index]);
    FeesRefused(AfterCollecting(s, index, f), f.rewards);
  }

  lemma AddRefused(s: State, vote: Pubkey)
    requires AddValidator(s, vote).Err?
    ensures match AddValidator(s, vote).error
      case MaximumNumberOfAccountsExceeded => |s.validators| == s.maxValidators
      case DuplicatedEntry => exists i :: 0 <= i < |s.validators| && s.validators[i].voteAccount == vote
      case _ => false
  {
  }

  lemma RemoveRefused(s: State, index: nat, vote: Pubkey)
    requires Inv(s) && RemoveValidator(s, index, vote).Err?
    ensures var e := RemoveValidator(s, index, vote).error;
      if !Names(s.validators, index, vote) then BadName(s.validators, index, vote, e)
      else
        var v := s.validators[index];
        match e
        case ValidatorIsStillActive => !v.status.PendingRemoval?
        case ValidatorShouldHaveNoStakeAccounts => 0 < Accounts(v.stakeSeeds)
        case ValidatorShouldHaveNoUnstakeAccounts => 0 < Accounts(v.unstakeSeeds)
        case _ => false
  {
    RemovalFindsNoBalance(s, index, vote);
    if index < |s.validators| {
      assert Accounted(s.accounts, s.validators[index]);
    }
  }

  lemma ChangeStatusRefused(s: State, index: nat, vote: Pubkey, change: StatusChange)
    requires ChangeStatus(s, index, vote, change).Err?
    ensures BadName(s.validators, index, vote, ChangeStatus(s, index, vote, change).error)
  {
  }
}
