/** Runs that lead to the cases in which an expectation of the program fails: a
    validator whose stake account was sent a lamport cannot be emptied, and a
    validator that is added again can find its first address taken. */
module Examples {
  import opened Bytes
  import opened Results
  import opened Token
  import opened State
  import opened Instructions
  import opened LedgerFacts
  import opened Panics
  import opened Acceptance

  // ---------------------------------------------------------------- staking with one validator

  function First(vote: Pubkey): AccountId {
    AccountId(vote, Stake, 0)
  }

  function FirstUnstake(vote: Pubkey): AccountId {
    AccountId(vote, Unstake, 0)
  }

  /** A validator with one stake account. */
  function Staked(vote: Pubkey, amount: nat): Validator {
    NewValidator(vote).(stakeSeeds := SeedRange(0, 1), stakeAccountsBalance := amount, effectiveStakeBalance := amount)
  }

  function Staking(vote: Pubkey, amount: nat, credits: nat): seq<Step> {
    [DepositStep(amount)] + [AddValidatorStep(vote)] + [StakeDepositStep(amount, 0, vote, Append(credits))]
  }

  /** A pool that has not been used, with room for a validator. */
  predicate Fresh(s: State) {
    && RESERVE_RENT <= s.reserve && s.validators == [] && 1 <= s.maxValidators
    && s.supply == 0 && s.rate.stSolSupply == 0 && s.metrics.deposits.total == 0
  }

  function AfterDeposit(s: State, amount: nat): State {
    var d := s.metrics.deposits;
    s.(reserve := s.reserve + amount, supply := amount,
       metrics := s.metrics.(deposits := Histogram(Bucketed(d.counts, amount), amount)))
  }

  lemma DepositFirst(s: State, amount: nat)
    requires Fresh(s) && 0 < amount <= MAX_U64
    ensures Next(s, DepositStep(amount)) == AfterDeposit(s, amount)
  {
    assert Deposit(s, amount) == Ok(AfterDeposit(s, amount));
  }

  lemma AddFirst(s: State, vote: Pubkey)
    requires s.validators == [] && 1 <= s.maxValidators
    ensures Next(s, AddValidatorStep(vote)) == s.(validators := [NewValidator(vote)])
  {
    assert s.validators + [NewValidator(vote)] == [NewValidator(vote)];
  }

  function AfterStake(s: State, vote: Pubkey, amount: nat, credits: nat): State
    requires MINIMUM_STAKE_ACCOUNT_BALANCE <= amount
  {
    var funded := At(s.accounts, First(vote)).Lamports() + amount;
    AfterDeposit(s, amount).(
      reserve := s.reserve,
      accounts := s.accounts[First(vote) := Delegated(funded, Delegation(s.epoch, credits))],
      validators := [Staked(vote, amount)])
  }

  lemma StakeFirst(s: State, vote: Pubkey, amount: nat, credits: nat)
    requires Fresh(s) && MINIMUM_STAKE_ACCOUNT_BALANCE <= amount <= MAX_U64 && At(s.accounts, First(vote)).IsFree()
    ensures var t := AfterDeposit(s, amount).(validators := [NewValidator(vote)]);
      Next(t, StakeDepositStep(amount, 0, vote, Append(credits))) == AfterStake(s, vote, amount, credits)
  {
    var v := NewValidator(vote);
    assert [v][..0] == [];
    assert MinimumActive([]) == Err(NoActiveValidators);
    assert MinimumActive([v]) == Ok(0);
    assert [v][0 := Staked(vote, amount)] == [Staked(vote, amount)];
  }

  lemma AfterStaking(s: State, vote: Pubkey, amount: nat, credits: nat)
    requires Fresh(s) && MINIMUM_STAKE_ACCOUNT_BALANCE <= amount <= MAX_U64 && At(s.accounts, First(vote)).IsFree()
    ensures Run(s, Staking(vote, amount, credits)) == AfterStake(s, vote, amount, credits)
  {
    var deposit, add := DepositStep(amount), AddValidatorStep(vote);
    assert Run(s, []) == s && [] + [deposit] == [deposit];
    RunSnoc(s, [], deposit);
    DepositFirst(s, amount);
    RunSnoc(s, [deposit], add);
    AddFirst(AfterDeposit(s, amount), vote);
    RunSnoc(s, [deposit] + [add], StakeDepositStep(amount, 0, vote, Append(credits)));
    StakeFirst(s, vote, amount, credits);
  }

  // ---------------------------------------------------------------- a validator that cannot be emptied

  /** One lamport is sent to the stake account, and the validator is deactivated. */
  function Stuck(vote: Pubkey, amount: nat, credits: nat): seq<Step> {
    Staking(vote, amount, credits) + [DonateToAccountStep(First(vote), 1)] + [ChangeStatusStep(0, vote, Deactivate)]
  }

  function AfterGift(s: State, vote: Pubkey, amount: nat, credits: nat): State
    requires MINIMUM_STAKE_ACCOUNT_BALANCE <= amount
  {
    DonateToAccount(AfterStake(s, vote, amount, credits), First(vote), 1)
  }

  lemma Given(s: State, id: AccountId, amount: nat)
    ensures Next(s, DonateToAccountStep(id, amount)) == DonateToAccount(s, id, amount)
  {
  }

  /** The only validator gets another status. */
  lemma StatusChanged(s: State, vote: Pubkey, v: Validator, change: StatusChange)
    requires s.validators == [v] && v.voteAccount == vote
    ensures Next(s, ChangeStatusStep(0, vote, change)) == s.(validators := [v.(status := change.Apply(v.status))])
  {
    assert [v][0 := v.(status := change.Apply(v.status))] == [v.(status := change.Apply(v.status))];
  }

  lemma AfterStuck(s: State, vote: Pubkey, amount: nat, credits: nat)
    requires Fresh(s) && MINIMUM_STAKE_ACCOUNT_BALANCE <= amount <= MAX_U64 && At(s.accounts, First(vote)).IsFree()
    ensures Run(s, Stuck(vote, amount, credits))
         == AfterGift(s, vote, amount, credits).(validators := [Staked(vote, amount).(status := StakesSuspended)])
  {
    var donate, deactivate := DonateToAccountStep(First(vote), 1), ChangeStatusStep(0, vote, Deactivate);
    AfterStaking(s, vote, amount, credits);
    RunSnoc(s, Staking(vote, amount, credits), donate);
    RunSnoc(s, Staking(vote, amount, credits) + [donate], deactivate);
    Given(AfterStake(s, vote, amount, credits), First(vote), 1);
    StatusChanged(AfterGift(s, vote, amount, credits), vote, Staked(vote, amount), Deactivate);
  }

  /** From every set-up, and with every amount: after that run the only amount that an
      inactive validator may unstake aborts. */
  lemma UnstakeAbortsExample(setup: Setup, vote: Pubkey, amount: nat, credits: nat, remainder: StakeBalance, balance: StakeBalance)
    requires Initialize(setup).Ok? && 1 <= setup.maxValidators && MINIMUM_STAKE_ACCOUNT_BALANCE <= amount
    requires var init := Initialize(setup).value;
      var source := At(init.accounts, First(vote)).Lamports() + amount + 1;
      source <= MAX_U64 && balance.Total() == At(init.accounts, FirstUnstake(vote)).Lamports() + source
    ensures var s := Run(Initialize(setup).value, Stuck(vote, amount, credits));
      && |s.validators| == 1
      && Unstaking(s, Oldest(s, 0).Lamports(), 0, vote, remainder, balance) == Err(Panicked(UnstakeExceedsStake))
  {
    var init := Initialize(setup).value;
    assert At(init.accounts, First(vote)).IsFree() && At(init.accounts, FirstUnstake(vote)).IsFree();
    AfterStuck(init, vote, amount, credits);
    var s := Run(init, Stuck(vote, amount, credits));
    assert Oldest(s, 0) == s.accounts[First(vote)];
  }

  // ---------------------------------------------------------------- an address that is taken

  /** The validator is emptied before its stake is active, somebody takes its address
      over, and it is removed and added again. */
  function Returning(vote: Pubkey, amount: nat, credits: nat, remainder: StakeBalance): seq<Step> {
    Staking(vote, amount, credits)
    + [ChangeStatusStep(0, vote, EnqueueForRemoval)]
    + [UnstakeStep(amount, 0, vote, remainder, StakeBalance(amount, 0, 0, 0))]
    + [TakeOverStep(First(vote), STAKE_RENT)]
    + [UpdateBalanceStep(0, vote)]
    + [RemoveValidatorStep(0, vote)]
    + [AddValidatorStep(vote)]
  }

  /** The validator's one stake account was unstaked, and nothing withdrawn yet. */
  function Emptied(vote: Pubkey, amount: nat): Validator {
    NewValidator(vote).(stakeSeeds := SeedRange(1, 1), unstakeSeeds := SeedRange(0, 1), status := PendingRemoval,
                        stakeAccountsBalance := amount, unstakeAccountsBalance := amount, effectiveStakeBalance := 0)
  }

  lemma UnstakeAll(s: State, vote: Pubkey, amount: nat, remainder: StakeBalance)
    requires s.validators == [Staked(vote, amount).(status := PendingRemoval)] && STAKE_RENT < amount <= MAX_U64
    requires At(s.accounts, First(vote)).Live? && At(s.accounts, First(vote)).Lamports() == amount
    requires At(s.accounts, FirstUnstake(vote)) == Unused(0)
    ensures var delegation := At(s.accounts, First(vote)).delegation;
      Unstaking(s, amount, 0, vote, remainder, StakeBalance(amount, 0, 0, 0))
      == Ok(s.(accounts := s.accounts[First(vote) := Closed][FirstUnstake(vote) := Live(StakeBalance(amount, 0, 0, 0), delegation)],
               validators := [Emptied(vote, amount)]))
  {
    assert s.validators[0 := Emptied(vote, amount)] == [Emptied(vote, amount)];
  }

  /** The update withdraws what was unstaked, and finds no rewards. */
  lemma WithdrawAll(s: State, vote: Pubkey, amount: nat)
    requires s.validators == [Emptied(vote, amount)] && amount <= MAX_U64
    requires At(s.accounts, FirstUnstake(vote)).FullyInactive() && At(s.accounts, FirstUnstake(vote)).Lamports() == amount
    requires At(s.accounts, First(vote)).Taken?
    ensures UpdateStakeAccountBalance(s, 0, vote).Ok?
    ensures var t := UpdateStakeAccountBalance(s, 0, vote).value;
      && t.reserve == s.reserve + amount && t.maxValidators == s.maxValidators && At(t.accounts, First(vote)).Taken?
      && t.validators == [Emptied(vote, 0).(unstakeSeeds := SeedRange(1, 1))]
  {
    var v := s.validators[0];
    assert WalkStake(s.accounts, vote, 1, 1) == Ok(StakeWalk(0, 0));
    assert WalkUnstake(s.accounts, vote, 0, 0) == Ok(UnstakeWalk(0, 0, 0));
    assert WalkUnstake(s.accounts, vote, 0, 1) == Ok(UnstakeWalk(amount, amount, 1));
    assert Examine(s.accounts, v).Ok? && Examine(s.accounts, v).value.rewards == 0;
    assert s.validators[0 := Examine(s.accounts, v).value.after] == [Examine(s.accounts, v).value.after];
  }

  lemma AddedAgain(s: State, vote: Pubkey, v: Validator)
    requires s.validators == [v] && v.voteAccount == vote && v.CheckCanBeRemoved().Pass? && 1 <= s.maxValidators
    ensures Next(Next(s, RemoveValidatorStep(0, vote)), AddValidatorStep(vote)) == s.(validators := [NewValidator(vote)])
  {
    assert SwapRemove([v], 0) == [];
    var removed := s.(validators := []);
    assert Next(s, RemoveValidatorStep(0, vote)) == removed;
    AddFirst(removed, vote);
  }

  lemma AfterReturning(s: State, vote: Pubkey, amount: nat, credits: nat, remainder: StakeBalance)
    requires Fresh(s) && s.accounts == map[] && MINIMUM_STAKE_ACCOUNT_BALANCE <= amount <= MAX_U64
    ensures var t := Run(s, Returning(vote, amount, credits, remainder));
      && t.validators == [NewValidator(vote)] && t.reserve == s.reserve + amount && At(t.accounts, First(vote)).Taken?
  {
    var enqueue, unstake := ChangeStatusStep(0, vote, EnqueueForRemoval), UnstakeStep(amount, 0, vote, remainder, StakeBalance(amount, 0, 0, 0));
    var take, update := TakeOverStep(First(vote), STAKE_RENT), UpdateBalanceStep(0, vote);
    var remove, add := RemoveValidatorStep(0, vote), AddValidatorStep(vote);
    var steps := Staking(vote, amount, credits);
    AfterStaking(s, vote, amount, credits);
    RunSnoc(s, steps, enqueue);
    RunSnoc(s, steps + [enqueue], unstake);
    RunSnoc(s, steps + [enqueue] + [unstake], take);
    RunSnoc(s, steps + [enqueue] + [unstake] + [take], update);
    RunSnoc(s, steps + [enqueue] + [unstake] + [take] + [update], remove);
    RunSnoc(s, steps + [enqueue] + [unstake] + [take] + [update] + [remove], add);
    FromStakedToReturned(AfterStake(s, vote, amount, credits), vote, amount, remainder);
  }

  lemma FromStakedToReturned(s: State, vote: Pubkey, amount: nat, remainder: StakeBalance)
    requires s.validators == [Staked(vote, amount)] && STAKE_RENT < amount <= MAX_U64 && 1 <= s.maxValidators
    requires At(s.accounts, First(vote)).Live? && At(s.accounts, First(vote)).Lamports() == amount
    requires At(s.accounts, FirstUnstake(vote)) == Unused(0)
    ensures var enqueued := Next(s, ChangeStatusStep(0, vote, EnqueueForRemoval));
      var unstaked := Next(enqueued, UnstakeStep(amount, 0, vote, remainder, StakeBalance(amount, 0, 0, 0)));
      var taken := Next(unstaked, TakeOverStep(First(vote), STAKE_RENT));
      var updated := Next(taken, UpdateBalanceStep(0, vote));
      var t := Next(Next(updated, RemoveValidatorStep(0, vote)), AddValidatorStep(vote));
      && t.validators == [NewValidator(vote)] && t.reserve == s.reserve + amount && At(t.accounts, First(vote)).Taken?
  {
    StatusChanged(s, vote, Staked(vote, amount), EnqueueForRemoval);
    var enqueued := Next(s, ChangeStatusStep(0, vote, EnqueueForRemoval));
    UnstakeAll(enqueued, vote, amount, remainder);
    var unstaked := Next(enqueued, UnstakeStep(amount, 0, vote, remainder, StakeBalance(amount, 0, 0, 0)));
    TakenOver(unstaked, vote);
    var taken := Next(unstaked, TakeOverStep(First(vote), STAKE_RENT));
    WithdrawAll(taken, vote, amount);
    var updated := Next(taken, UpdateBalanceStep(0, vote));
    AddedAgain(updated, vote, updated.validators[0]);
  }

  lemma TakenOver(s: State, vote: Pubkey)
    requires At(s.accounts, First(vote)).Closed?
    ensures var t := Next(s, TakeOverStep(First(vote), STAKE_RENT));
      && t == s.(accounts := s.accounts[First(vote) := Taken(STAKE_RENT)], gifts := t.gifts)
  {
    assert TakeOver(s, First(vote), STAKE_RENT).Ok?;
  }

  /** After that run an appending deposit that would otherwise be allowed fails. */
  lemma AppendBlockedExample(setup: Setup, vote: Pubkey, amount: nat, credits: nat, remainder: StakeBalance)
    requires Initialize(setup).Ok? && 1 <= setup.maxValidators && setup.prefunded == map[]
    requires MINIMUM_STAKE_ACCOUNT_BALANCE <= amount <= MAX_U64
    ensures var s := Run(Initialize(setup).value, Returning(vote, amount, credits, remainder));
      StakeAllowed(s, amount, 0, vote) && StakeDeposit(s, amount, 0, vote, Append(credits)) == Err(WrongStakeState)
  {
    AfterReturning(Initialize(setup).value, vote, amount, credits, remainder);
    assert [NewValidator(vote)][..0] == [];
    assert MinimumActive([]) == Err(NoActiveValidators);
    assert MinimumActive([NewValidator(vote)]) == Ok(0);
  }
}
