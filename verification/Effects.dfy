/** What each instruction and each outside event does to the whole state: to the
    accounts it touches, with the division of their lamports and their delegation, to
    the entry of the validator, and to nothing else. */
module Effects {
  import opened Bytes
  import opened Results
  import opened Token
  import opened State
  import opened Instructions
  import opened LedgerFacts
  import opened Books
  import opened Placement
  import opened Solvency
  import opened Updates

  /** Only the entry at an index changed. */
  predicate OnlyEntry(vs: seq<Validator>, vs': seq<Validator>, index: nat) {
    index < |vs| == |vs'| && forall j :: 0 <= j < |vs| && j != index ==> vs'[j] == vs[j]
  }

  // ---------------------------------------------------------------- set-up and deposits

  /** A pool can be set up exactly with a rent-exempt reserve, an unused mint, and a
      commission of at most 100 percent; it starts empty, under the given terms. */
  lemma InitializeEffect(setup: Setup)
    ensures Initialize(setup).Ok? <==> RESERVE_RENT <= setup.reserve && setup.mintSupply == 0 && setup.maxCommission <= 100
    ensures Initialize(setup).Ok? ==>
      var s := Initialize(setup).value;
      && s.epoch == setup.epoch && s.reserve == setup.reserve && s.maxValidators == setup.maxValidators
      && s.distribution.treasuryFee == setup.distribution.treasuryFee
      && s.distribution.developerFee == setup.distribution.developerFee
      && s.distribution.stSolAppreciation == setup.distribution.stSolAppreciation
      && s.supply == 0 && s.validators == [] && s.rate.stSolSupply == 0 && s.rate.solBalance == 0 && s.rate.computedInEpoch == 0
  {
  }

  /** Nothing is recorded yet. */
  lemma InitializeRecordsNothing(setup: Setup)
    requires Initialize(setup).Ok?
    ensures var m := Initialize(setup).value.metrics;
      && m.feeTreasurySol == 0 && m.feeDeveloperSol == 0 && m.appreciationSol == 0
      && m.feeTreasuryStSol == 0 && m.feeDeveloperStSol == 0
      && m.deposits.total == 0 && (forall i :: 0 <= i < 12 ==> m.deposits.counts[i] == 0)
      && m.withdrawnStSol == 0 && m.withdrawnSol == 0 && m.withdrawCount == 0
  {
    assert Initialize(setup).value.metrics == NEW_METRICS;
  }

  /** No address has a live account, and each holds what it was sent before. */
  lemma InitializeLeavesAddresses(setup: Setup, id: AccountId)
    requires Initialize(setup).Ok?
    ensures var a := At(Initialize(setup).value.accounts, id);
      a.IsFree() && a.Lamports() == if id in setup.prefunded then setup.prefunded[id] else 0
  {
  }

  /** A deposit goes to the reserve, and mints at the recorded rate, rounded down, or
      one to one without a rate. */
  lemma DepositEffect(s: State, amount: nat)
    requires Deposit(s, amount).Ok?
    ensures var t := Deposit(s, amount).value;
      && t == s.(reserve := s.reserve + amount, supply := t.supply, metrics := t.metrics)
      && t.metrics == s.metrics.(deposits := t.metrics.deposits)
      && t.metrics.deposits.total == s.metrics.deposits.total + amount
      && s.supply <= t.supply
      && if s.rate.stSolSupply == 0 || s.rate.solBalance == 0 then t.supply - s.supply == amount
         else IsFloor(t.supply - s.supply, amount * s.rate.stSolSupply, s.rate.solBalance)
  {
  }

  // ---------------------------------------------------------------- the deposit histogram

  function CountAtMost(amounts: seq<nat>, bound: nat): nat {
    if amounts == [] then 0
    else CountAtMost(amounts[..|amounts| - 1], bound) + if amounts[|amounts| - 1] <= bound then 1 else 0
  }

  function TotalOf(amounts: seq<nat>): nat {
    if amounts == [] then 0 else TotalOf(amounts[..|amounts| - 1]) + amounts[|amounts| - 1]
  }

  function ObserveAll(h: Histogram, amounts: seq<nat>): Result<Histogram> {
    if amounts == [] then Ok(h)
    else
      var before :- ObserveAll(h, amounts[..|amounts| - 1]);
      Observed(before, amounts[|amounts| - 1])
  }

  /** Each bucket counts exactly the observations up to its bound, the total is their
      sum, and observing fails exactly if that does not fit. */
  lemma {:induction false} HistogramCounts(h: Histogram, amounts: seq<nat>)
    requires h.total <= MAX_U64
    ensures ObserveAll(h, amounts).Ok? <==> h.total + TotalOf(amounts) <= MAX_U64
    ensures ObserveAll(h, amounts).Ok? ==>
      var g := ObserveAll(h, amounts).value;
      && g.total == h.total + TotalOf(amounts)
      && forall i :: 0 <= i < 12 ==> g.counts[i] == h.counts[i] + CountAtMost(amounts, BUCKET_UPPER_BOUNDS[i])
  {
    if amounts != [] {
      HistogramCounts(h, amounts[..|amounts| - 1]);
    }
  }

  /** Every amount falls into the last bucket, so that it counts all observations. */
  lemma {:induction false} LastBucketCountsAll(amounts: seq<nat>)
    requires forall i :: 0 <= i < |amounts| ==> amounts[i] <= MAX_U64
    ensures CountAtMost(amounts, BUCKET_UPPER_BOUNDS[11]) == |amounts|
  {
    if amounts != [] {
      LastBucketCountsAll(amounts[..|amounts| - 1]);
    }
  }

  /** The buckets increment by a factor of ten, from a ten-thousandth of a SOL. */
  lemma BucketsGrowTenfold(i: nat)
    requires i < 10
    ensures BUCKET_UPPER_BOUNDS[i + 1] == 10 * BUCKET_UPPER_BOUNDS[i]
    ensures 10_000 * BUCKET_UPPER_BOUNDS[0] == LAMPORTS_PER_SOL && BUCKET_UPPER_BOUNDS[11] == MAX_U64
  {
    assert i == 0 || i == 1 || i == 2 || i == 3 || i == 4 || i == 5 || i == 6 || i == 7 || i == 8 || i == 9;
  }

  // ---------------------------------------------------------------- staking

  /** An appending deposit moves the amount to the address at the end seed, where
      everything but the rent is then activating, also what was there before. */
  lemma AppendEffect(s: State, amount: nat, index: nat, vote: Pubkey, credits: nat)
    requires BooksInv(s) && StakeDeposit(s, amount, index, vote, Append(credits)).Ok?
    ensures var t := StakeDeposit(s, amount, index, vote, Append(credits)).value;
      var v := s.validators[index];
      var id := AccountId(vote, Stake, v.stakeSeeds.end);
      var a := At(t.accounts, id);
      && t.reserve + amount == s.reserve
      && t == s.(reserve := t.reserve, accounts := t.accounts, validators := t.validators)
      && a.Live? && a.balance.inactive == STAKE_RENT && a.balance.active == 0 && a.balance.deactivating == 0
      && STAKE_RENT + a.balance.activating == At(s.accounts, id).Lamports() + amount
      && a.delegation.activationEpoch == s.epoch && a.delegation.creditsObserved == credits
      && ChangedAt(s.accounts, t.accounts, {id}) && OnlyEntry(s.validators, t.validators, index)
      && t.validators[index] == v.(stakeSeeds := SeedRange(v.stakeSeeds.begin, v.stakeSeeds.end + 1),
                                   stakeAccountsBalance := v.stakeAccountsBalance + amount,
                                   effectiveStakeBalance := v.effectiveStakeBalance + amount)
  {
  }

  /** A merging deposit moves the amount, and what was at the temporary address, to the
      newest stake account, which keeps its delegation. */
  lemma MergeDepositEffect(s: State, amount: nat, index: nat, vote: Pubkey, balance: StakeBalance)
    requires BooksInv(s) && StakeDeposit(s, amount, index, vote, Merge(balance)).Ok?
    ensures var t := StakeDeposit(s, amount, index, vote, Merge(balance)).value;
      var v := s.validators[index];
      && v.stakeSeeds.begin < v.stakeSeeds.end
      && var temporary, into := AccountId(vote, Temporary(s.epoch), v.stakeSeeds.end), AccountId(vote, Stake, v.stakeSeeds.end - 1);
      && t.reserve + amount == s.reserve
      && t == s.(reserve := t.reserve, accounts := t.accounts, validators := t.validators)
      && At(s.accounts, into).Live? && At(t.accounts, into) == Live(balance, At(s.accounts, into).delegation)
      && balance.Total() == At(s.accounts, into).Lamports() + At(s.accounts, temporary).Lamports() + amount
      && At(t.accounts, temporary).Closed?
      && ChangedAt(s.accounts, t.accounts, {temporary, into}) && OnlyEntry(s.validators, t.validators, index)
      && t.validators[index] == v.(stakeAccountsBalance := v.stakeAccountsBalance + amount,
                                   effectiveStakeBalance := v.effectiveStakeBalance + amount)
  {
  }

  // ---------------------------------------------------------------- unstaking and merging

  /** Unstaking splits the amount off the oldest stake account to the next unstake
      address. Both parts keep the delegation, and their lamports are divided as the
      runtime divides them; an emptied account is closed. */
  lemma UnstakeEffect(s: State, amount: nat, index: nat, vote: Pubkey, remainder: StakeBalance, balance: StakeBalance)
    requires BooksInv(s) && Unstaking(s, amount, index, vote, remainder, balance).Ok?
    ensures var t := Unstaking(s, amount, index, vote, remainder, balance).value;
      var v := s.validators[index];
      var from, to := AccountId(vote, Stake, v.stakeSeeds.begin), AccountId(vote, Unstake, v.unstakeSeeds.end);
      var source := At(s.accounts, from);
      && t == s.(accounts := t.accounts, validators := t.validators)
      && source.Live?
      && At(t.accounts, from) == (if amount == source.Lamports() then Closed else Live(remainder, source.delegation))
      && At(t.accounts, to) == Live(balance, source.delegation)
      && (amount < source.Lamports() ==> remainder.Total() + amount == source.Lamports())
      && balance.Total() == At(s.accounts, to).Lamports() + amount
      && ChangedAt(s.accounts, t.accounts, {from, to}) && OnlyEntry(s.validators, t.validators, index)
      && t.validators[index] == v.(
           stakeSeeds := SeedRange(if v.status.AcceptingStakes? then v.stakeSeeds.begin else v.stakeSeeds.begin + 1, v.stakeSeeds.end),
           unstakeSeeds := SeedRange(v.unstakeSeeds.begin, v.unstakeSeeds.end + 1),
           unstakeAccountsBalance := v.unstakeAccountsBalance + amount,
           effectiveStakeBalance := t.validators[index].effectiveStakeBalance)
      && t.validators[index].effectiveStakeBalance + amount == v.effectiveStakeBalance
  {
  }

  /** A merge moves everything to the second oldest stake account. The delegation that is
      kept is that of stake in effect, if there is any. */
  lemma MergeStakeEffect(s: State, index: nat, vote: Pubkey, balance: StakeBalance)
    requires MergeStake(s, index, vote, balance).Ok?
    ensures var t := MergeStake(s, index, vote, balance).value;
      var v := s.validators[index];
      var from, to := AccountId(vote, Stake, v.stakeSeeds.begin), AccountId(vote, Stake, v.stakeSeeds.begin + 1);
      var source, target, merged := At(s.accounts, from), At(s.accounts, to), At(t.accounts, to);
      && t == s.(accounts := t.accounts, validators := t.validators)
      && source.Live? && target.Live? && At(t.accounts, from).Closed?
      && merged.Live? && merged.balance == balance && balance.Total() == source.Lamports() + target.Lamports()
      && (!target.IsInactive() ==> merged.delegation == target.delegation)
      && (target.IsInactive() && !source.IsInactive() ==> merged.delegation == source.delegation)
      && (target.IsInactive() && source.IsInactive() ==> merged.delegation == target.delegation)
      && ChangedAt(s.accounts, t.accounts, {from, to}) && OnlyEntry(s.validators, t.validators, index)
      && t.validators[index] == v.(stakeSeeds := SeedRange(v.stakeSeeds.begin + 1, v.stakeSeeds.end))
  {
  }

  // ---------------------------------------------------------------- withdrawing

  /** A withdrawal burns the stSOL, records both amounts, and splits the SOL off the
      oldest stake account; the rest of it stays delegated as it was. */
  lemma WithdrawEffect(s: State, amount: nat, index: nat, vote: Pubkey, payout: Payout)
    requires BooksInv(s) && Withdraw(s, amount, index, vote, payout).Ok?
    ensures ExchangeStSol(s.rate, amount).Ok?
    ensures var t := Withdraw(s, amount, index, vote, payout).value;
      var v, sol := s.validators[index], ExchangeStSol(s.rate, amount).value;
      var from := AccountId(vote, Stake, v.stakeSeeds.begin);
      var source := At(s.accounts, from);
      && t.supply + amount == s.supply
      && t == s.(supply := t.supply, metrics := t.metrics, accounts := t.accounts, validators := t.validators)
      && t.metrics == s.metrics.(withdrawnStSol := s.metrics.withdrawnStSol + amount,
                                 withdrawnSol := s.metrics.withdrawnSol + sol,
                                 withdrawCount := s.metrics.withdrawCount + 1)
      && source.Live? && At(t.accounts, from) == Live(payout.remainder, source.delegation)
      && payout.remainder.Total() + sol == source.Lamports()
      && IsFloor(sol, amount * s.rate.solBalance, s.rate.stSolSupply)
      && ChangedAt(s.accounts, t.accounts, {from}) && OnlyEntry(s.validators, t.validators, index)
      && t.validators[index] == v.(stakeAccountsBalance := t.validators[index].stakeAccountsBalance,
                                   effectiveStakeBalance := t.validators[index].effectiveStakeBalance)
      && t.validators[index].stakeAccountsBalance + sol == v.stakeAccountsBalance
      && t.validators[index].effectiveStakeBalance + sol == v.effectiveStakeBalance
  {
  }

  // ---------------------------------------------------------------- updating balances

  /** Only inactive lamports were taken out, down to the rent. */
  predicate OnlyInactiveTaken(a: StakeAccount, a': StakeAccount) {
    && a.Live? && a'.Live? && a'.delegation == a.delegation
    && a'.balance.activating == a.balance.activating && a'.balance.active == a.balance.active
    && a'.balance.deactivating == a.balance.deactivating
    && a'.balance.inactive == STAKE_RENT <= a.balance.inactive
  }

  /** An update leaves all stake that is activating, active or deactivating where it is,
      and its delegation; it closes the unstake accounts before the new begin, and
      touches no other address. */
  lemma UpdateKeepsStake(s: State, index: nat, vote: Pubkey, id: AccountId)
    requires BooksInv(s) && UpdateStakeAccountBalance(s, index, vote).Ok?
    ensures var t := UpdateStakeAccountBalance(s, index, vote).value;
      var v := s.validators[index];
      && index < |t.validators|
      && var begin := t.validators[index].unstakeSeeds.begin;
      if id.vote == vote && id.kind == Stake && v.stakeSeeds.begin <= id.seed < v.stakeSeeds.end then
        OnlyInactiveTaken(At(s.accounts, id), At(t.accounts, id))
      else if id.vote == vote && id.kind == Unstake && v.unstakeSeeds.begin <= id.seed < begin then
        At(s.accounts, id).FullyInactive() && At(t.accounts, id).Closed?
      else
        At(t.accounts, id) == At(s.accounts, id)
  {
    var v := s.validators[index];
    var f := Examine(s.accounts, v).value;
    var t := UpdateStakeAccountBalance(s, index, vote).value;
    FeesKeepRest(AfterCollecting(s, index, f), f.rewards);
    assert t.accounts == Collected(s.accounts, vote, v.stakeSeeds, SeedRange(v.unstakeSeeds.begin, f.unstake.begin));
    ExaminedEntry(s.accounts, v);
    WalkUnstakeFinds(s.accounts, vote, v.unstakeSeeds.begin, v.unstakeSeeds.end);
    WalkStakeFinds(s.accounts, t.accounts, vote, v.stakeSeeds.begin, v.stakeSeeds.end);
    if id.vote == vote && id.kind == Stake && v.stakeSeeds.Contains(id.seed) {
      assert id == AccountId(vote, Stake, id.seed);
      assert KeepsRent(At(s.accounts, AccountId(vote, Stake, id.seed)));
    } else if id.vote == vote && id.kind == Unstake && v.unstakeSeeds.begin <= id.seed < f.unstake.begin {
      assert id == AccountId(vote, Unstake, id.seed);
    }
  }

  /** Of the state, an update changes the reserve, the accounts, the entry of the
      validator, the supply and the fee totals only; of the entry, the tracked balances
      and the begin of the unstake range. */
  lemma UpdateKeepsTheRest(s: State, index: nat, vote: Pubkey)
    requires BooksInv(s) && UpdateStakeAccountBalance(s, index, vote).Ok?
    ensures var t := UpdateStakeAccountBalance(s, index, vote).value;
      && t == s.(reserve := t.reserve, accounts := t.accounts, validators := t.validators, supply := t.supply, metrics := t.metrics)
      && s.reserve <= t.reserve && OnlyEntry(s.validators, t.validators, index)
      && var v, v' := s.validators[index], t.validators[index];
      v' == v.(unstakeSeeds := SeedRange(v'.unstakeSeeds.begin, v.unstakeSeeds.end), stakeAccountsBalance := v'.stakeAccountsBalance,
               unstakeAccountsBalance := v'.unstakeAccountsBalance, effectiveStakeBalance := v'.effectiveStakeBalance)
  {
    var f := Examine(s.accounts, s.validators[index]).value;
    FeesKeepRest(AfterCollecting(s, index, f), f.rewards);
    ExaminedEntry(s.accounts, s.validators[index]);
  }

  /** An amount of stSOL is what a SOL amount converts to, rounded down. */
  predicate Minted(rate: ExchangeRate, sol: int, stSol: int) {
    if rate.stSolSupply == 0 || rate.solBalance == 0 then stSol == sol
    else 0 <= sol && 0 <= stSol && IsFloor(stSol, sol * rate.stSolSupply, rate.solBalance)
  }

  /** The two fees on rewards are their shares, rounded down, in both totals each; the
      rest is appreciation, and the supply grows by the two fees in stSOL. */
  predicate FeesRecorded(s: State, t: State, rewards: nat) {
    var m, m', d := s.metrics, t.metrics, s.distribution;
    var treasury, developer := m'.feeTreasurySol - m.feeTreasurySol, m'.feeDeveloperSol - m.feeDeveloperSol;
    && 0 < d.Sum() && s.epoch <= s.rate.computedInEpoch
    && 0 <= treasury && IsFloor(treasury, rewards * d.treasuryFee, d.Sum())
    && 0 <= developer && IsFloor(developer, rewards * d.developerFee, d.Sum())
    && m'.appreciationSol - m.appreciationSol == rewards - treasury - developer
    && Minted(s.rate, treasury, m'.feeTreasuryStSol - m.feeTreasuryStSol)
    && Minted(s.rate, developer, m'.feeDeveloperStSol - m.feeDeveloperStSol)
    && t.supply - s.supply == (m'.feeTreasuryStSol - m.feeTreasuryStSol) + (m'.feeDeveloperStSol - m.feeDeveloperStSol)
    && m'.deposits == m.deposits && m'.withdrawnStSol == m.withdrawnStSol && m'.withdrawnSol == m.withdrawnSol
    && m'.withdrawCount == m.withdrawCount
  }

  /** What a payment records and mints. */
  lemma PaymentRecorded(s: State, rewards: nat)
    requires 0 < rewards && DistributeFees(s, rewards).Ok?
    ensures FeePayment(s, rewards).Ok?
    ensures var t, p := DistributeFees(s, rewards).value, FeePayment(s, rewards).value;
      && t.supply == s.supply + p.treasury + p.developer
      && t.metrics == s.metrics.(
           feeTreasurySol := s.metrics.feeTreasurySol + p.fees.treasury, feeTreasuryStSol := s.metrics.feeTreasuryStSol + p.treasury,
           feeDeveloperSol := s.metrics.feeDeveloperSol + p.fees.developer, feeDeveloperStSol := s.metrics.feeDeveloperStSol + p.developer,
           appreciationSol := s.metrics.appreciationSol + p.fees.appreciation)
  {
  }

  /** The parts of a payment. */
  lemma PaymentParts(s: State, rewards: nat)
    requires rewards <= MAX_U64 && FeePayment(s, rewards).Ok?
    ensures var p, d := FeePayment(s, rewards).value, s.distribution;
      && 0 < d.Sum() && s.epoch <= s.rate.computedInEpoch
      && p.fees.treasury + p.fees.developer + p.fees.appreciation == rewards
      && IsFloor(p.fees.treasury, rewards * d.treasuryFee, d.Sum()) && IsFloor(p.fees.developer, rewards * d.developerFee, d.Sum())
      && Minted(s.rate, p.fees.treasury, p.treasury) && Minted(s.rate, p.fees.developer, p.developer)
  {
    RewardSplit(s.distribution, rewards);
  }

  lemma FeesEffect(s: State, rewards: nat)
    requires rewards <= MAX_U64 && DistributeFees(s, rewards).Ok?
    ensures rewards > 0 ==> FeesRecorded(s, DistributeFees(s, rewards).value, rewards)
    ensures rewards == 0 ==> DistributeFees(s, rewards).value == s
  {
    if rewards > 0 {
      PaymentRecorded(s, rewards);
      PaymentParts(s, rewards);
    }
  }

  /** The fees of an update are those on what its accounts held beyond the tracked
      balance; without any, supply and metrics stay. */
  lemma UpdatePaysFees(s: State, index: nat, vote: Pubkey)
    requires BooksInv(s) && UpdateStakeAccountBalance(s, index, vote).Ok?
    ensures var t, v := UpdateStakeAccountBalance(s, index, vote).value, s.validators[index];
      var rewards := StakeLamports(s.accounts, v) + UnstakeLamports(s.accounts, v) - v.stakeAccountsBalance;
      && 0 <= rewards
      && if rewards == 0 then t.supply == s.supply && t.metrics == s.metrics else FeesRecorded(s, t, rewards)
  {
    var f := Examine(s.accounts, s.validators[index]).value;
    ExaminedRewards(s.accounts, s.validators[index]);
    FeesEffect(AfterCollecting(s, index, f), f.rewards);
    if f.rewards > 0 {
      RecordedBefore(s, AfterCollecting(s, index, f), UpdateStakeAccountBalance(s, index, vote).value, f.rewards);
    }
  }

  /** Fees depend on terms, supply and totals alone. */
  lemma RecordedBefore(s: State, c: State, t: State, rewards: nat)
    requires FeesRecorded(c, t, rewards) && c.metrics == s.metrics && c.supply == s.supply
    requires c.rate == s.rate && c.distribution == s.distribution && c.epoch == s.epoch
    ensures FeesRecorded(s, t, rewards)
  {
  }

  lemma ExaminedRewards(l: Ledger, v: Validator)
    requires Examine(l, v).Ok?
    ensures var rewards := Examine(l, v).value.rewards;
      rewards <= MAX_U64 && rewards == StakeLamports(l, v) + UnstakeLamports(l, v) - v.stakeAccountsBalance
  {
  }

  // ---------------------------------------------------------------- managing validators

  /** A new validator comes last, accepts stakes and has nothing. */
  lemma AddEffect(s: State, vote: Pubkey)
    requires AddValidator(s, vote).Ok?
    ensures var t := AddValidator(s, vote).value;
      && t == s.(validators := t.validators) && |t.validators| == |s.validators| + 1
      && (forall i :: 0 <= i < |s.validators| ==> t.validators[i] == s.validators[i])
      && var v := t.validators[|s.validators|];
      && v.voteAccount == vote && v.status.AcceptingStakes?
      && v.stakeSeeds == v.unstakeSeeds == SeedRange(0, 0)
      && v.stakeAccountsBalance == v.unstakeAccountsBalance == v.effectiveStakeBalance == 0
  {
  }

  /** Removal drops one entry, moves the last one to its place, and nothing else. */
  lemma RemoveEffect(s: State, index: nat, vote: Pubkey)
    requires RemoveValidator(s, index, vote).Ok?
    ensures var t, n := RemoveValidator(s, index, vote).value, |s.validators| - 1;
      && t == s.(validators := t.validators) && |t.validators| == n && index <= n
      && s.validators[index].voteAccount == vote
      && (forall i :: 0 <= i < n ==> t.validators[i] == if i == index then s.validators[n] else s.validators[i])
  {
  }

  /** Deactivation and activation exchange two statuses, and enqueueing is final. */
  lemma ChangeStatusEffect(s: State, index: nat, vote: Pubkey, change: StatusChange)
    requires ChangeStatus(s, index, vote, change).Ok?
    ensures var t := ChangeStatus(s, index, vote, change).value;
      && t == s.(validators := t.validators) && OnlyEntry(s.validators, t.validators, index)
      && var v, v' := s.validators[index], t.validators[index];
      && v' == v.(status := v'.status)
      && (v'.status.AcceptingStakes? <==>
            || (v.status.AcceptingStakes? && change.Activate?) || (v.status.StakesSuspended? && change.Activate?))
      && (v'.status.StakesSuspended? <==>
            || (v.status.AcceptingStakes? && change.Deactivate?) || (v.status.StakesSuspended? && change.Deactivate?))
      && (v'.status.PendingRemoval? <==> v.status.PendingRemoval? || change.EnqueueForRemoval?)
  {
  }

  lemma ChangeDistributionEffect(s: State, d: RewardDistribution)
    ensures Apply(s, ChangeDistributionStep(d)).Ok?
    ensures var t := Apply(s, ChangeDistributionStep(d)).value;
      t.distribution == d && t == s.(distribution := t.distribution)
  {
  }

  // ---------------------------------------------------------------- outside events

  /** A new epoch moves no lamports; a live account gets the given division if there is
      one that adds up, and everything else stays. */
  lemma EpochEffect(s: State, balances: map<AccountId, StakeBalance>, id: AccountId)
    ensures Apply(s, EpochStep(balances)).Ok?
    ensures var t := Apply(s, EpochStep(balances)).value;
      var a, a' := At(s.accounts, id), At(t.accounts, id);
      && t == s.(epoch := s.epoch + 1, accounts := t.accounts)
      && a'.Lamports() == a.Lamports()
      && if a.Live? && id in balances && balances[id].Total() == a.Lamports()
         then a' == Live(balances[id], a.delegation) else a' == a
  {
  }

  /** A reward is active stake of a live account, and updates its credits. */
  lemma RewardEffect(s: State, id: AccountId, amount: nat, credits: nat)
    ensures Reward(s, id, amount, credits).Ok? <==> At(s.accounts, id).Live?
    ensures Reward(s, id, amount, credits).Ok? ==>
      var t, a := Reward(s, id, amount, credits).value, At(s.accounts, id);
      && t == s.(accounts := t.accounts) && ChangedAt(s.accounts, t.accounts, {id})
      && At(t.accounts, id) == Live(StakeBalance(a.balance.inactive, a.balance.activating, a.balance.active + amount, a.balance.deactivating),
                                    Delegation(a.delegation.activationEpoch, credits))
  {
  }

  /** A gift to an address is inactive in a live account, and otherwise just there. */
  lemma GiftEffect(s: State, id: AccountId, amount: nat)
    ensures var t, a := DonateToAccount(s, id, amount), At(s.accounts, id);
      var a' := At(t.accounts, id);
      && t == s.(accounts := t.accounts, gifts := t.gifts) && ChangedAt(s.accounts, t.accounts, {id})
      && t.gifts.To(id) == s.gifts.To(id) + amount && (forall x :: x != id ==> t.gifts.To(x) == s.gifts.To(x))
      && t.gifts.initial == s.gifts.initial && t.gifts.reserve == s.gifts.reserve
      && a'.Lamports() == a.Lamports() + amount
      && (a.Live? ==> a' == Live(StakeBalance(a.balance.inactive + amount, a.balance.activating, a.balance.active, a.balance.deactivating), a.delegation))
      && (a.IsFree() ==> a'.Unused?) && (a.Taken? ==> a'.Taken?)
  {
  }

  lemma GiftToReserveEffect(s: State, amount: nat)
    ensures Apply(s, DonateToReserveStep(amount)).Ok?
    ensures var t := Apply(s, DonateToReserveStep(amount)).value;
      && t.reserve == s.reserve + amount && t.gifts.reserve == s.gifts.reserve + amount
      && t == s.(reserve := t.reserve, gifts := s.gifts.(reserve := t.gifts.reserve))
  {
  }

  /** An emptied address can be taken over, with its rent and by outside lamports. */
  lemma TakeOverEffect(s: State, id: AccountId, amount: nat)
    ensures TakeOver(s, id, amount).Ok? <==> At(s.accounts, id).Closed? && STAKE_RENT <= amount
    ensures TakeOver(s, id, amount).Ok? ==>
      var t := TakeOver(s, id, amount).value;
      && t == s.(accounts := t.accounts, gifts := t.gifts) && ChangedAt(s.accounts, t.accounts, {id})
      && At(t.accounts, id) == Taken(amount) && t.gifts.To(id) == s.gifts.To(id) + amount
  {
  }

  lemma BurnEffect(s: State, amount: nat)
    ensures Apply(s, BurnStep(amount)).Ok? <==> amount <= s.supply
    ensures Apply(s, BurnStep(amount)).Ok? ==>
      var t := Apply(s, BurnStep(amount)).value;
      t.supply + amount == s.supply && t == s.(supply := t.supply)
  {
  }
}
