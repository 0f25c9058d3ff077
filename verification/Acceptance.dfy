/** Exactly when an instruction is accepted in a reachable state, by the checks of the
    program and by those of the runtime that the model has. Checks of the program
    that are not listed cannot fail there. */
module Acceptance {
  import opened Bytes
  import opened Results
  import opened Token
  import opened State
  import opened Instructions
  import opened LedgerFacts
  import opened Books
  import opened Placement
  import opened Solvency
  import opened Imbalance
  import opened Updates
  import opened Order

  /** The caller names a listed validator by its index and key. */
  predicate Names(vs: seq<Validator>, index: nat, vote: Pubkey) {
    index < |vs| && vs[index].voteAccount == vote
  }

  function Lamports(s: State, vote: Pubkey, kind: StakeKind, seed: nat): nat {
    At(s.accounts, AccountId(vote, kind, seed)).Lamports()
  }

  /** The accounts of a listed validator, as the invariant has them. */
  lemma AccountsOf(s: State, index: nat)
    requires Inv(s) && index < |s.validators|
    ensures var v := s.validators[index];
      && Accounted(s.accounts, v)
      && (forall seed :: v.stakeSeeds.Contains(seed) ==>
        At(s.accounts, AccountId(v.voteAccount, Stake, seed)).Live? && STAKE_RENT <= Lamports(s, v.voteAccount, Stake, seed))
  {
    var v := s.validators[index];
    forall seed | v.stakeSeeds.Contains(seed)
      ensures At(s.accounts, AccountId(v.voteAccount, Stake, seed)).Live? && STAKE_RENT <= Lamports(s, v.voteAccount, Stake, seed)
    {
      assert PlacedAt(s.accounts, s.gifts, v, AccountId(v.voteAccount, Stake, seed));
    }
  }

  predicate FreeAt(s: State, vote: Pubkey, kind: StakeKind, seed: nat) {
    At(s.accounts, AccountId(vote, kind, seed)).IsFree()
  }

  /** The conversion of a deposit never fails: it only gets smaller. */
  lemma DepositAccepted(s: State, amount: nat)
    requires Inv(s) && amount <= MAX_U64
    ensures ExchangeSol(s.rate, amount).Ok?
    ensures Deposit(s, amount).Ok? <==>
      && amount > 0
      && s.supply + ExchangeSol(s.rate, amount).value <= MAX_U64
      && s.metrics.deposits.total + amount <= MAX_U64
  {
    ConversionFits(s.rate, amount);
  }

  lemma ConversionFits(rate: ExchangeRate, amount: nat)
    requires rate.stSolSupply <= rate.solBalance && amount <= MAX_U64
    ensures ExchangeSol(rate, amount).Ok?
  {
    if Proper(rate) {
      MulMonotone(rate.stSolSupply, rate.solBalance, amount);
      MulMonotone(amount, MAX_U64, rate.solBalance);
    }
  }

  lemma RateUpdateAccepted(s: State)
    requires Inv(s)
    ensures UpdateExchangeRate(s).Ok? <==> s.rate.computedInEpoch < s.epoch && PoolSol(s) <= MAX_U64
  {
    GetSolBalanceIsPoolSol(s);
  }

  /** Nobody active has less stake. */
  predicate Lowest(vs: seq<Validator>, index: nat)
    requires index < |vs|
  {
    forall j :: 0 <= j < |vs| && vs[j].IsActive() ==> vs[index].effectiveStakeBalance <= vs[j].effectiveStakeBalance
  }

  /** Nobody has more stake. */
  predicate Highest(vs: seq<Validator>, index: nat)
    requires index < |vs|
  {
    forall j :: 0 <= j < |vs| ==> vs[j].effectiveStakeBalance <= vs[index].effectiveStakeBalance
  }

  predicate StakeAllowed(s: State, amount: nat, index: nat, vote: Pubkey) {
    && MINIMUM_STAKE_ACCOUNT_BALANCE <= amount && RESERVE_RENT + amount <= s.reserve
    && Names(s.validators, index, vote) && s.validators[index].IsActive() && Lowest(s.validators, index)
    && s.validators[index].stakeAccountsBalance + amount <= MAX_U64
  }

  /** Besides, nobody may have taken over the address at the end seed; what it was
      sent does not matter. */
  lemma AppendAccepted(s: State, amount: nat, index: nat, vote: Pubkey, credits: nat)
    requires Inv(s)
    ensures StakeDeposit(s, amount, index, vote, Append(credits)).Ok? <==>
      StakeAllowed(s, amount, index, vote) && FreeAt(s, vote, Stake, s.validators[index].stakeSeeds.end)
  {
    MinimumActiveIsLeast(s.validators);
    if index < |s.validators| {
      AccountsOf(s, index);
    }
  }

  /** Besides, this epoch's temporary address must be free, there must be an account
      to merge into that is inactive or in its activation epoch, and the division of
      the merged account must be one of its lamports. */
  lemma MergeDepositAccepted(s: State, amount: nat, index: nat, vote: Pubkey, balance: StakeBalance)
    requires Inv(s)
    ensures StakeDeposit(s, amount, index, vote, Merge(balance)).Ok? <==>
      && StakeAllowed(s, amount, index, vote)
      && var seeds := s.validators[index].stakeSeeds;
      && FreeAt(s, vote, Temporary(s.epoch), seeds.end) && seeds.begin < seeds.end
      && var into := At(s.accounts, AccountId(vote, Stake, seeds.end - 1));
      && (into.IsInactive() || into.InActivationEpoch())
      && balance.Total() == into.Lamports() + Lamports(s, vote, Temporary(s.epoch), seeds.end) + amount
  {
    MinimumActiveIsLeast(s.validators);
    if index < |s.validators| {
      AccountsOf(s, index);
    }
  }

  predicate UnstakeAllowed(s: State, amount: nat, index: nat, vote: Pubkey) {
    && Names(s.validators, index, vote)
    && var v := s.validators[index];
    && v.stakeSeeds.begin < v.stakeSeeds.end
    && v.unstakeSeeds.end - v.unstakeSeeds.begin < MAXIMUM_UNSTAKE_ACCOUNTS
    && amount <= v.effectiveStakeBalance && v.unstakeAccountsBalance + amount <= MAX_U64
    && var source := Lamports(s, vote, Stake, v.stakeSeeds.begin);
      if v.IsActive() then amount + MINIMUM_STAKE_ACCOUNT_BALANCE <= source else amount == source
  }

  /** The divisions of the two accounts after a split are ones of their lamports,
      the address for the new account is free, and it gets more than its rent. */
  predicate SplitAllowed(s: State, amount: nat, v: Validator, remainder: StakeBalance, balance: StakeBalance) {
    && Divided(s, amount, v, remainder, balance)
    && CanReceive(At(s.accounts, AccountId(v.voteAccount, Unstake, v.unstakeSeeds.end)), amount)
  }

  predicate Divided(s: State, amount: nat, v: Validator, remainder: StakeBalance, balance: StakeBalance) {
    var source := Lamports(s, v.voteAccount, Stake, v.stakeSeeds.begin);
    && (amount < source ==> remainder.Total() + amount == source)
    && balance.Total() == Lamports(s, v.voteAccount, Unstake, v.unstakeSeeds.end) + amount
  }

  lemma UnstakeAccepted(s: State, amount: nat, index: nat, vote: Pubkey, remainder: StakeBalance, balance: StakeBalance)
    requires Inv(s)
    ensures Unstaking(s, amount, index, vote, remainder, balance).Ok? <==>
      UnstakeAllowed(s, amount, index, vote) && SplitAllowed(s, amount, s.validators[index], remainder, balance)
  {
    if index < |s.validators| {
      AccountsOf(s, index);
    }
  }

  predicate WithdrawalAllowed(s: State, amount: nat, sol: nat, index: nat, vote: Pubkey) {
    && s.epoch <= s.rate.computedInEpoch
    && Names(s.validators, index, vote) && Highest(s.validators, index)
    && var v := s.validators[index];
    && 0 < v.effectiveStakeBalance && sol <= v.effectiveStakeBalance
    && amount <= s.supply
    && s.metrics.withdrawnStSol + amount <= MAX_U64 && s.metrics.withdrawnSol + sol <= MAX_U64
  }

  /** The oldest stake account has enough above its minimum, and gives up at most
      a tenth and 10 SOL; the user's account gets more than its rent. */
  predicate SourceAllows(source: nat, sol: nat, payout: Payout) {
    && MINIMUM_STAKE_ACCOUNT_BALANCE <= source && sol <= LargestWithdrawal(source)
    && payout.remainder.Total() + sol == source
    && CanReceive(payout.destination, sol)
  }

  lemma WithdrawAccepted(s: State, amount: nat, index: nat, vote: Pubkey, payout: Payout)
    requires Inv(s)
    requires index < |s.validators| ==> Lamports(s, vote, Stake, s.validators[index].stakeSeeds.begin) <= MAX_U64
    ensures Withdraw(s, amount, index, vote, payout).Ok? <==>
      && ExchangeStSol(s.rate, amount).Ok?
      && var sol := ExchangeStSol(s.rate, amount).value;
      && WithdrawalAllowed(s, amount, sol, index, vote)
      && SourceAllows(Lamports(s, vote, Stake, s.validators[index].stakeSeeds.begin), sol, payout)
  {
    MaximumEffectiveIsGreatest(s.validators);
    if index < |s.validators| && s.validators[index].voteAccount == vote && ExchangeStSol(s.rate, amount).Ok? {
      var v := s.validators[index];
      AccountsOf(s, index);
      var source, sol := Lamports(s, vote, Stake, v.stakeSeeds.begin), ExchangeStSol(s.rate, amount).value;
      SourceCheck(source, sol);
      if v.effectiveStakeBalance > 0 {
        StakedHasAccount(s.accounts, v);
      }
    }
  }

  lemma SourceCheck(source: nat, sol: nat)
    requires source <= MAX_U64
    ensures CheckWithdrawAmount(source, sol).Ok? <==> MINIMUM_STAKE_ACCOUNT_BALANCE <= source && sol <= LargestWithdrawal(source)
  {
    if MINIMUM_STAKE_ACCOUNT_BALANCE <= source {
      WithdrawalLimit(source, sol);
    }
  }

  lemma MergeStakeAccepted(s: State, index: nat, vote: Pubkey, balance: StakeBalance)
    requires Inv(s)
    ensures MergeStake(s, index, vote, balance).Ok? <==>
      && Names(s.validators, index, vote)
      && var seeds := s.validators[index].stakeSeeds;
      && seeds.begin + 2 <= seeds.end
      && Mergeable(At(s.accounts, AccountId(vote, Stake, seeds.begin + 1)), At(s.accounts, AccountId(vote, Stake, seeds.begin)))
      && balance.Total() == Lamports(s, vote, Stake, seeds.begin) + Lamports(s, vote, Stake, seeds.begin + 1)
  {
    if index < |s.validators| {
      AccountsOf(s, index);
    }
  }

  /** Without stake and unstake accounts there is no balance to lose. */
  lemma RemoveAccepted(s: State, index: nat, vote: Pubkey)
    requires Inv(s)
    ensures RemoveValidator(s, index, vote).Ok? <==>
      && Names(s.validators, index, vote)
      && var v := s.validators[index];
      && v.status.PendingRemoval? && v.stakeSeeds.begin == v.stakeSeeds.end && v.unstakeSeeds.begin == v.unstakeSeeds.end
  {
    if index < |s.validators| {
      AccountsOf(s, index);
    }
  }

  // ---------------------------------------------------------------- updating balances

  /** A share of an amount, rounded down, and its value in stSOL. */
  function ShareOf(part: nat, d: RewardDistribution, amount: nat): nat {
    if d.Sum() == 0 then 0 else amount * part / d.Sum()
  }

  function InStSol(rate: ExchangeRate, amount: nat): nat {
    if Proper(rate) then amount * rate.stSolSupply / rate.solBalance else amount
  }

  /** Fees on rewards can be minted and recorded. */
  predicate FeesFit(s: State, rewards: nat) {
    var d, m := s.distribution, s.metrics;
    var t, e := ShareOf(d.treasuryFee, d, rewards), ShareOf(d.developerFee, d, rewards);
    var tSt, eSt := InStSol(s.rate, t), InStSol(s.rate, e);
    && s.epoch <= s.rate.computedInEpoch && 0 < d.Sum()
    && s.supply + tSt + eSt <= MAX_U64
    && m.feeTreasurySol + t <= MAX_U64 && m.feeTreasuryStSol + tSt <= MAX_U64
    && m.feeDeveloperSol + e <= MAX_U64 && m.feeDeveloperStSol + eSt <= MAX_U64
    && m.appreciationSol + rewards - t - e <= MAX_U64
  }

  lemma ShareOfIsMul(part: nat, d: RewardDistribution, amount: nat)
    requires 0 < d.Sum() && part <= d.Sum() && amount <= MAX_U64
    ensures Mul(amount, Rational(part, d.Sum())) == Ok(ShareOf(part, d, amount))
  {
    ShareFits(amount, part, d.Sum());
  }

  lemma InStSolIsExchange(rate: ExchangeRate, amount: nat)
    requires rate.stSolSupply <= rate.solBalance && amount <= MAX_U64
    ensures ExchangeSol(rate, amount) == Ok(InStSol(rate, amount))
  {
    ConversionFits(rate, amount);
  }

  /** What is minted for a reward. */
  lemma FeesOf(s: State, rewards: nat)
    requires s.rate.stSolSupply <= s.rate.solBalance && rewards <= MAX_U64
    ensures FeePayment(s, rewards).Ok? <==> s.epoch <= s.rate.computedInEpoch && 0 < s.distribution.Sum()
    ensures FeePayment(s, rewards).Ok? ==>
      var d := s.distribution;
      var t, e := ShareOf(d.treasuryFee, d, rewards), ShareOf(d.developerFee, d, rewards);
      t + e <= rewards && FeePayment(s, rewards).value == Payment(Fees(t, e, rewards - t - e), InStSol(s.rate, t), InStSol(s.rate, e))
  {
    var d := s.distribution;
    RewardSplit(d, rewards);
    if 0 < d.Sum() {
      ShareOfIsMul(d.treasuryFee, d, rewards);
      ShareOfIsMul(d.developerFee, d, rewards);
      var f := SplitReward(d, rewards).value;
      InStSolIsExchange(s.rate, f.treasury);
      InStSolIsExchange(s.rate, f.developer);
    }
  }

  lemma FeesAccepted(s: State, rewards: nat)
    requires s.rate.stSolSupply <= s.rate.solBalance && rewards <= MAX_U64
    ensures DistributeFees(s, rewards).Ok? <==> rewards == 0 || FeesFit(s, rewards)
  {
    FeesOf(s, rewards);
    if rewards > 0 && FeePayment(s, rewards).Ok? {
      FeePostFits(TotalsOf(s), FeePayment(s, rewards).value);
    }
  }

  /** An update of a listed validator succeeds exactly if its stake accounts have their
      rent, its lamports fit, and the fees on what is not tracked yet fit, if there is
      anything: only for that does the rate have to be up to date. */
  lemma UpdateAccepted(s: State, index: nat, vote: Pubkey)
    requires Inv(s)
    ensures UpdateStakeAccountBalance(s, index, vote).Ok? <==>
      && Names(s.validators, index, vote)
      && var v := s.validators[index];
      && AllKeepRent(s.accounts, vote, v.stakeSeeds.begin, v.stakeSeeds.end)
      && var lamports := StakeLamports(s.accounts, v) + UnstakeLamports(s.accounts, v);
      && lamports <= MAX_U64
      && (lamports == v.stakeAccountsBalance || FeesFit(s, lamports - v.stakeAccountsBalance))
  {
    if Names(s.validators, index, vote) {
      UpdateFailsOnlyOutside(s, index);
      if Examine(s.accounts, s.validators[index]).Ok? {
        CollectedFeesAccepted(s, index);
      }
    }
  }

  lemma CollectedFeesAccepted(s: State, index: nat)
    requires Inv(s) && index < |s.validators| && Examine(s.accounts, s.validators[index]).Ok?
    ensures var v := s.validators[index];
      var f := Examine(s.accounts, v).value;
      var untracked := StakeLamports(s.accounts, v) + UnstakeLamports(s.accounts, v) - v.stakeAccountsBalance;
      && 0 <= untracked <= MAX_U64
      && (DistributeFees(AfterCollecting(s, index, f), f.rewards).Ok? <==> untracked == 0 || FeesFit(s, untracked))
  {
    var f := Examine(s.accounts, s.validators[index]).value;
    assert Accounted(s.accounts, s.validators[index]);
    FeesAccepted(s, f.rewards);
    FeesFrame(s, AfterCollecting(s, index, f), f.rewards);
  }
}
