/** Which of the program's own expectations can fail on a sound state, exactly
    when they do, and what that means for a validator whose stake accounts hold
    lamports that the books do not know yet. */
module Panics {
  import opened Bytes
  import opened Results
  import opened Token
  import opened State
  import opened Instructions
  import opened LedgerFacts
  import opened Books
  import opened Placement
  import opened Solvency
  import opened Updates
  import opened Imbalance

  /** The oldest stake account of a validator. */
  function Oldest(s: State, index: nat): StakeAccount
    requires index < |s.validators|
  {
    var v := s.validators[index];
    At(s.accounts, AccountId(v.voteAccount, Stake, v.stakeSeeds.begin))
  }

  /** The step would take more out of a validator than its tracked balance. */
  predicate BeyondTracked(s: State, step: Step) {
    match step
    case UnstakeStep(amount, index, _, _, _) =>
      index < |s.validators| && amount > s.validators[index].effectiveStakeBalance
    case WithdrawStep(_, index, _, _) =>
      index < |s.validators| && Amount(s.rate, step) > s.validators[index].effectiveStakeBalance
    case _ => false
  }

  /** The step updates a validator with a stake account that lost its rent. */
  predicate LacksRent(s: State, step: Step) {
    step.UpdateBalanceStep? && step.index < |s.validators| &&
    var v := s.validators[step.index];
    !AllKeepRent(s.accounts, v.voteAccount, v.stakeSeeds.begin, v.stakeSeeds.end)
  }

  /** The step withdraws from a stake account whose balance is out of bounds. */
  predicate OddSource(s: State, step: Step) {
    step.WithdrawStep? && step.index < |s.validators| &&
    var lamports := Oldest(s, step.index).Lamports();
    lamports < MINIMUM_STAKE_ACCOUNT_BALANCE || lamports > MAX_U64
  }

  lemma {:induction false} MinimumErrors(vs: seq<Validator>)
    ensures MinimumActive(vs).Err? ==> MinimumActive(vs).error == NoActiveValidators
    ensures MaximumEffective(vs).Err? ==> MaximumEffective(vs).error == NoActiveValidators
  {
    if vs != [] {
      MinimumErrors(vs[..|vs| - 1]);
      MaximumEffectiveIsGreatest(vs);
    }
  }

  lemma UnstakePanics(s: State, amount: nat, index: nat, vote: Pubkey, remainder: StakeBalance, balance: StakeBalance)
    requires BooksInv(s) && Unstaking(s, amount, index, vote, remainder, balance).Err?
    requires Unstaking(s, amount, index, vote, remainder, balance).error.Panicked?
    ensures Unstaking(s, amount, index, vote, remainder, balance).error == Panicked(UnstakeExceedsStake)
    ensures index < |s.validators| && amount > s.validators[index].effectiveStakeBalance
  {
    assert Accounted(s.accounts, s.validators[index]);
  }

  lemma WithdrawPanics(s: State, amount: nat, index: nat, vote: Pubkey, payout: Payout)
    requires BooksInv(s) && Withdraw(s, amount, index, vote, payout).Err?
    requires Withdraw(s, amount, index, vote, payout).error.Panicked?
    ensures var step, cause := WithdrawStep(amount, index, vote, payout), Withdraw(s, amount, index, vote, payout).error.cause;
      || (cause == UnstakeExceedsStake && BeyondTracked(s, step))
      || (cause in {SourceBelowMinimum, LimitOverflow} && OddSource(s, step))
  {
    MinimumErrors(s.validators);
    assert Accounted(s.accounts, s.validators[index]);
    var sol, source := ExchangeStSol(s.rate, amount).value, Oldest(s, index).Lamports();
    assert CheckWithdrawAmount(source, sol).Err? || sol > s.validators[index].effectiveStakeBalance;
  }

  lemma FeesNeverPanic(s: State, rewards: nat)
    requires rewards <= MAX_U64 && DistributeFees(s, rewards).Err?
    ensures !DistributeFees(s, rewards).error.Panicked?
  {
    RewardSplit(s.distribution, rewards);
  }

  lemma {:induction false} RentErrorIsTrue(l: Ledger, vote: Pubkey, lo: nat, hi: nat)
    requires WalkStake(l, vote, lo, hi) == Err(Panicked(LessThanRent))
    ensures !AllKeepRent(l, vote, lo, hi)
    decreases hi - lo
  {
    if WalkStake(l, vote, lo, hi - 1).Err? {
      RentErrorIsTrue(l, vote, lo, hi - 1);
    } else {
      assert !KeepsRent(At(l, AccountId(vote, Stake, hi - 1)));
    }
  }

  lemma UpdatePanics(s: State, index: nat, vote: Pubkey)
    requires Inv(s) && UpdateStakeAccountBalance(s, index, vote).Err?
    requires UpdateStakeAccountBalance(s, index, vote).error.Panicked?
    ensures UpdateStakeAccountBalance(s, index, vote).error == Panicked(LessThanRent)
    ensures LacksRent(s, UpdateBalanceStep(index, vote))
  {
    UpdateFailsOnlyOutside(s, index);
    if Examine(s.accounts, s.validators[index]).Ok? {
      var f := Examine(s.accounts, s.validators[index]).value;
      FeesNeverPanic(AfterCollecting(s, index, f), f.rewards);
    } else {
      var v := s.validators[index];
      WalkUnstakeErrors(s.accounts, vote, v.unstakeSeeds.begin, v.unstakeSeeds.end);
      RentErrorIsTrue(s.accounts, vote, v.stakeSeeds.begin, v.stakeSeeds.end);
    }
  }

  lemma StakeDepositNeverPanics(s: State, amount: nat, index: nat, vote: Pubkey, approach: Approach)
    requires BooksInv(s) && StakeDeposit(s, amount, index, vote, approach).Err?
    ensures !StakeDeposit(s, amount, index, vote, approach).error.Panicked?
  {
    MinimumErrors(s.validators);
    if index < |s.validators| {
      assert Accounted(s.accounts, s.validators[index]);
    }
  }

  /** Of the expectations about the program's own books, only these can ever fail in a
      reachable state, and only for these reasons. That a delegation fits its account
      is left to the runtime, which the model takes at its word. */
  lemma PanicCauses(s: State, step: Step)
    requires Inv(s) && Apply(s, step).Err? && Apply(s, step).error.Panicked?
    ensures var cause := Apply(s, step).error.cause;
      || (cause == UnstakeExceedsStake && BeyondTracked(s, step))
      || (cause == LessThanRent && LacksRent(s, step))
      || (cause in {SourceBelowMinimum, LimitOverflow} && OddSource(s, step))
  {
    match step
    case StakeDepositStep(amount, index, vote, approach) => StakeDepositNeverPanics(s, amount, index, vote, approach);
    case UnstakeStep(amount, index, vote, remainder, balance) => UnstakePanics(s, amount, index, vote, remainder, balance);
    case UpdateBalanceStep(index, vote) => UpdatePanics(s, index, vote);
    case UpdateRateStep => CheckedSumError(s.validators);
    case WithdrawStep(amount, index, vote, payout) => WithdrawPanics(s, amount, index, vote, payout);
    case RemoveValidatorStep(index, vote) => RemovalFindsNoBalance(s, index, vote);
    case _ =>
  }

  /** Right after its balance was updated, a validator is safe: nothing that the
      runtime lets through takes out more than is tracked. */
  lemma ExactIsSafe(s: State, step: Step, index: nat)
    requires Inv(s) && index < |s.validators| && Exact(s.accounts, s.validators[index])
    requires (step.UnstakeStep? || step.WithdrawStep?) && step.index == index
    ensures Apply(s, step) != Err(Panicked(UnstakeExceedsStake))
  {
    var v := s.validators[index];
    if v.stakeSeeds.begin < v.stakeSeeds.end {
      SumBounds(s.accounts, v.voteAccount, Stake, v.stakeSeeds.begin, v.stakeSeeds.end, v.stakeSeeds.begin);
    }
    if Apply(s, step) == Err(Panicked(UnstakeExceedsStake)) {
      match step
      case UnstakeStep(amount, _, vote, remainder, balance) => UnstakePanics(s, amount, index, vote, remainder, balance);
      case WithdrawStep(amount, _, vote, payout) => WithdrawTakesFromOldest(s, amount, index, vote, payout);
    }
  }

  lemma WithdrawTakesFromOldest(s: State, amount: nat, index: nat, vote: Pubkey, payout: Payout)
    requires BooksInv(s) && index < |s.validators|
    requires Withdraw(s, amount, index, vote, payout) == Err(Panicked(UnstakeExceedsStake))
    ensures s.validators[index].effectiveStakeBalance > 0
    ensures s.validators[index].effectiveStakeBalance < Amount(s.rate, WithdrawStep(amount, index, vote, payout)) <= Oldest(s, index).Lamports()
    ensures s.validators[index].stakeSeeds.begin < s.validators[index].stakeSeeds.end
  {
    MinimumErrors(s.validators);
    WithdrawPanics(s, amount, index, vote, payout);
    assert Accounted(s.accounts, s.validators[index]);
    StakedHasAccount(s.accounts, s.validators[index]);
  }

  /** An inactive validator must have its oldest stake account unstaked as a
      whole. If that account alone holds more than the validator's tracked
      balance, because of rewards or gifts that no update has found yet, then
      every attempt fails until there is an update; otherwise the attempt
      succeeds. */
  lemma InactiveUnstakeIff(s: State, index: nat, remainder: StakeBalance, balance: StakeBalance)
    requires Inv(s) && index < |s.validators| && !s.validators[index].IsActive()
    requires var v := s.validators[index];
      && v.stakeSeeds.begin < v.stakeSeeds.end && v.unstakeSeeds.end < v.unstakeSeeds.begin + MAXIMUM_UNSTAKE_ACCOUNTS
      && CanReceive(At(s.accounts, AccountId(v.voteAccount, Unstake, v.unstakeSeeds.end)), Oldest(s, index).Lamports())
      && balance.Total() == At(s.accounts, AccountId(v.voteAccount, Unstake, v.unstakeSeeds.end)).Lamports() + Oldest(s, index).Lamports()
      && v.unstakeAccountsBalance + Oldest(s, index).Lamports() <= MAX_U64
    ensures var v := s.validators[index];
      Unstaking(s, Oldest(s, index).Lamports(), index, v.voteAccount, remainder, balance).Ok?
      <==> Oldest(s, index).Lamports() <= v.effectiveStakeBalance
    ensures var v := s.validators[index];
      forall amount :: Unstaking(s, amount, index, v.voteAccount, remainder, balance).Ok? ==> amount == Oldest(s, index).Lamports()
  {
    var v := s.validators[index];
    assert Accounted(s.accounts, v);
    assert PlacedAt(s.accounts, s.gifts, v, AccountId(v.voteAccount, Stake, v.stakeSeeds.begin));
    assert PlacedAt(s.accounts, s.gifts, v, AccountId(v.voteAccount, Unstake, v.unstakeSeeds.end));
  }
}
