/** The books never claim more than the ledger holds. */
module Books {
  import opened Bytes
  import opened Results
  import opened Token
  import opened State
  import opened Instructions
  import opened LedgerFacts

  ghost predicate UniqueKeys(vs: seq<Validator>) {
    forall i, j :: 0 <= i < j < |vs| ==> vs[i].voteAccount != vs[j].voteAccount
  }

  predicate Ordered(v: Validator) {
    && v.stakeSeeds.begin <= v.stakeSeeds.end
    && v.unstakeSeeds.begin <= v.unstakeSeeds.end <= v.unstakeSeeds.begin + MAXIMUM_UNSTAKE_ACCOUNTS
  }

  /** The cached effective balance is what recomputing it gives. */
  predicate Cached(v: Validator) {
    v.ComputeEffective() == Ok(v.effectiveStakeBalance)
  }

  function StakeLamports(l: Ledger, v: Validator): nat {
    SumLamports(l, v.voteAccount, Stake, v.stakeSeeds.begin, v.stakeSeeds.end)
  }

  function UnstakeLamports(l: Ledger, v: Validator): nat {
    SumLamports(l, v.voteAccount, Unstake, v.unstakeSeeds.begin, v.unstakeSeeds.end)
  }

  predicate Backed(l: Ledger, v: Validator) {
    && v.effectiveStakeBalance <= StakeLamports(l, v)
    && v.unstakeAccountsBalance <= UnstakeLamports(l, v)
  }

  predicate Accounted(l: Ledger, v: Validator) {
    Ordered(v) && Cached(v) && Backed(l, v)
  }

  ghost predicate BooksInv(s: State) {
    && RESERVE_RENT <= s.reserve
    && UniqueKeys(s.validators)
    && |s.validators| <= s.maxValidators
    && (forall i :: 0 <= i < |s.validators| ==> Accounted(s.accounts, s.validators[i]))
  }

  // ---------------------------------------------------------------- framing

  /** The accounts agree outside a set. */
  ghost predicate ChangedAt(l: Ledger, l': Ledger, ids: set<AccountId>) {
    forall x: AccountId {:trigger At(l', x)} :: x !in ids ==> At(l, x) == At(l', x)
  }

  /** Only the entry at one index may differ, and it keeps its key. */
  predicate Replaced(vs: seq<Validator>, vs': seq<Validator>, index: nat) {
    index < |vs| == |vs'| && vs' == vs[index := vs'[index]] && vs'[index].voteAccount == vs[index].voteAccount
  }

  lemma AccountedFrame(l: Ledger, l': Ledger, v: Validator)
    requires Accounted(l, v)
    requires forall x: AccountId {:trigger At(l', x)} :: x.vote == v.voteAccount ==> At(l, x) == At(l', x)
    ensures Accounted(l', v)
  {
    SumFrame(l, l', v.voteAccount, Stake, v.stakeSeeds.begin, v.stakeSeeds.end);
    SumFrame(l, l', v.voteAccount, Unstake, v.unstakeSeeds.begin, v.unstakeSeeds.end);
  }

  ghost predicate OfVote(ids: set<AccountId>, vote: Pubkey) {
    forall x :: x in ids ==> x.vote == vote
  }

  /** Replacing one validator's entry and touching only its accounts. */
  lemma ReplaceKeepsBooks(s: State, s': State, i: nat, ids: set<AccountId>)
    requires BooksInv(s) && Replaced(s.validators, s'.validators, i)
    requires s'.maxValidators == s.maxValidators && RESERVE_RENT <= s'.reserve
    requires ChangedAt(s.accounts, s'.accounts, ids) && OfVote(ids, s.validators[i].voteAccount)
    requires Accounted(s'.accounts, s'.validators[i])
    ensures BooksInv(s')
  {
    forall j | 0 <= j < |s'.validators|
      ensures Accounted(s'.accounts, s'.validators[j])
    {
      if j != i {
        assert s'.validators[j] == s.validators[j];
        assert s.validators[j].voteAccount != s.validators[i].voteAccount;
        AccountedFrame(s.accounts, s'.accounts, s.validators[j]);
      }
    }
  }

  // ---------------------------------------------------------------- effects on one validator

  /** The tracked amounts of a validator after a change of its balances. */
  predicate Moved(v: Validator, v': Validator, stake: int, unstake: int) {
    && v'.voteAccount == v.voteAccount
    && v'.stakeAccountsBalance == v.stakeAccountsBalance + stake
    && v'.unstakeAccountsBalance == v.unstakeAccountsBalance + unstake
    && Cached(v')
  }

  lemma AppendAccounted(l: Ledger, l': Ledger, v: Validator, v': Validator, amount: nat)
    requires Accounted(l, v) && Moved(v, v', amount, 0)
    requires v'.unstakeSeeds == v.unstakeSeeds && v'.stakeSeeds == SeedRange(v.stakeSeeds.begin, v.stakeSeeds.end + 1)
    requires var id := AccountId(v.voteAccount, Stake, v.stakeSeeds.end);
      ChangedAt(l, l', {id}) && amount <= At(l', id).Lamports()
    ensures Accounted(l', v')
  {
    SumFrame(l, l', v.voteAccount, Stake, v.stakeSeeds.begin, v.stakeSeeds.end);
    SumFrame(l, l', v.voteAccount, Unstake, v.unstakeSeeds.begin, v.unstakeSeeds.end);
  }

  /** A stake deposit that merges a temporary account into the newest one. */
  lemma MergeDepositAccounted(l: Ledger, l': Ledger, v: Validator, v': Validator, amount: nat, epoch: nat)
    requires Accounted(l, v) && Moved(v, v', amount, 0)
    requires v'.unstakeSeeds == v.unstakeSeeds && v'.stakeSeeds == v.stakeSeeds && v.stakeSeeds.begin < v.stakeSeeds.end
    requires var into := AccountId(v.voteAccount, Stake, v.stakeSeeds.end - 1);
      && ChangedAt(l, l', {AccountId(v.voteAccount, Temporary(epoch), v.stakeSeeds.end), into})
      && At(l, into).Lamports() + amount <= At(l', into).Lamports()
    ensures Accounted(l', v')
  {
    SumChange(l, l', v.voteAccount, Stake, v.stakeSeeds.begin, v.stakeSeeds.end, v.stakeSeeds.end - 1);
    SumFrame(l, l', v.voteAccount, Unstake, v.unstakeSeeds.begin, v.unstakeSeeds.end);
  }

  /** Taking lamports out of the oldest stake account; the seed is bumped only
      when nothing is left in it. */
  lemma TakeFromOldest(l: Ledger, l': Ledger, v: Validator, v': Validator, amount: nat, ids: set<AccountId>)
    requires v.stakeSeeds.begin < v.stakeSeeds.end && v'.voteAccount == v.voteAccount
    requires ChangedAt(l, l', ids)
    requires forall x :: x in ids && x.kind == Stake ==> x.seed == v.stakeSeeds.begin
    requires var from := AccountId(v.voteAccount, Stake, v.stakeSeeds.begin);
      && At(l', from).Lamports() == At(l, from).Lamports() - amount
      && (v'.stakeSeeds == v.stakeSeeds
          || (v'.stakeSeeds == SeedRange(v.stakeSeeds.begin + 1, v.stakeSeeds.end) && At(l', from).Lamports() == 0))
    ensures StakeLamports(l', v') == StakeLamports(l, v) - amount
  {
    var vote, lo, hi := v.voteAccount, v.stakeSeeds.begin, v.stakeSeeds.end;
    SumChange(l, l', vote, Stake, lo, hi, lo);
    if v'.stakeSeeds.begin == lo + 1 {
      SumSplit(l', vote, Stake, lo, lo + 1, hi);
      SumOne(l', vote, Stake, lo);
    }
  }

  lemma UnstakeAccounted(l: Ledger, l': Ledger, v: Validator, v': Validator, amount: nat)
    requires Accounted(l, v) && Moved(v, v', 0, amount)
    requires v.stakeSeeds.begin < v.stakeSeeds.end && v.unstakeSeeds.end < v.unstakeSeeds.begin + MAXIMUM_UNSTAKE_ACCOUNTS
    requires v'.unstakeSeeds == SeedRange(v.unstakeSeeds.begin, v.unstakeSeeds.end + 1)
    requires var from := AccountId(v.voteAccount, Stake, v.stakeSeeds.begin);
      var to := AccountId(v.voteAccount, Unstake, v.unstakeSeeds.end);
      && ChangedAt(l, l', {from, to})
      && At(l', from).Lamports() == At(l, from).Lamports() - amount
      && amount <= At(l', to).Lamports()
      && (v'.stakeSeeds == v.stakeSeeds
          || (v'.stakeSeeds == SeedRange(v.stakeSeeds.begin + 1, v.stakeSeeds.end) && At(l', from).Lamports() == 0))
    ensures Accounted(l', v')
  {
    var from := AccountId(v.voteAccount, Stake, v.stakeSeeds.begin);
    var to := AccountId(v.voteAccount, Unstake, v.unstakeSeeds.end);
    TakeFromOldest(l, l', v, v', amount, {from, to});
    SumFrame(l, l', v.voteAccount, Unstake, v.unstakeSeeds.begin, v.unstakeSeeds.end);
  }

  lemma WithdrawAccounted(l: Ledger, l': Ledger, v: Validator, v': Validator, sol: int)
    requires 0 <= sol && Accounted(l, v) && Moved(v, v', -sol, 0)
    requires v.stakeSeeds.begin < v.stakeSeeds.end && v'.stakeSeeds == v.stakeSeeds && v'.unstakeSeeds == v.unstakeSeeds
    requires var from := AccountId(v.voteAccount, Stake, v.stakeSeeds.begin);
      ChangedAt(l, l', {from}) && At(l', from).Lamports() == At(l, from).Lamports() - sol
    ensures Accounted(l', v')
  {
    var from := AccountId(v.voteAccount, Stake, v.stakeSeeds.begin);
    TakeFromOldest(l, l', v, v', sol, {from});
    SumFrame(l, l', v.voteAccount, Unstake, v.unstakeSeeds.begin, v.unstakeSeeds.end);
  }

  lemma MergeStakeAccounted(l: Ledger, l': Ledger, v: Validator, v': Validator)
    requires Accounted(l, v) && v.stakeSeeds.begin + 1 < v.stakeSeeds.end
    requires v' == v.(stakeSeeds := SeedRange(v.stakeSeeds.begin + 1, v.stakeSeeds.end))
    requires var from := AccountId(v.voteAccount, Stake, v.stakeSeeds.begin);
      var to := AccountId(v.voteAccount, Stake, v.stakeSeeds.begin + 1);
      && ChangedAt(l, l', {from, to})
      && At(l', to).Lamports() == At(l, to).Lamports() + At(l, from).Lamports()
    ensures Accounted(l', v')
  {
    var vote, lo, hi := v.voteAccount, v.stakeSeeds.begin, v.stakeSeeds.end;
    SumSplit(l, vote, Stake, lo, lo + 1, hi);
    SumOne(l, vote, Stake, lo);
    SumChange(l, l', vote, Stake, lo + 1, hi, lo + 1);
    SumFrame(l, l', vote, Unstake, v.unstakeSeeds.begin, v.unstakeSeeds.end);
  }

  /** The entry that an update arrives at, by what its walks found. */
  lemma ExaminedEntry(l: Ledger, v: Validator)
    requires Examine(l, v).Ok?
    ensures var f := Examine(l, v).value;
      && WalkStake(l, v.voteAccount, v.stakeSeeds.begin, v.stakeSeeds.end) == Ok(f.stake)
      && WalkUnstake(l, v.voteAccount, v.unstakeSeeds.begin, v.unstakeSeeds.end) == Ok(f.unstake)
      && f.after.voteAccount == v.voteAccount && f.after.stakeSeeds == v.stakeSeeds
      && f.after.unstakeSeeds == SeedRange(f.unstake.begin, v.unstakeSeeds.end)
      && f.after.effectiveStakeBalance == f.stake.observed - f.stake.excess
      && f.after.unstakeAccountsBalance == f.unstake.observed - f.unstake.removed
      && Cached(f.after) && f.after.stakeAccountsBalance <= MAX_U64
  {
  }

  /** What collecting leaves in the stake accounts, and in the unstake accounts. */
  lemma CollectedStake(l: Ledger, vote: Pubkey, stake: SeedRange, unstake: SeedRange)
    requires WalkStake(l, vote, stake.begin, stake.end).Ok?
    ensures var w := WalkStake(l, vote, stake.begin, stake.end).value;
      SumLamports(Collected(l, vote, stake, unstake), vote, Stake, stake.begin, stake.end) == w.observed - w.excess
  {
    WalkStakeFinds(l, Collected(l, vote, stake, unstake), vote, stake.begin, stake.end);
  }

  lemma CollectedUnstake(l: Ledger, vote: Pubkey, stake: SeedRange, unstake: SeedRange)
    requires unstake.begin <= unstake.end && WalkUnstake(l, vote, unstake.begin, unstake.end).Ok?
    ensures var w := WalkUnstake(l, vote, unstake.begin, unstake.end).value;
      && unstake.begin <= w.begin <= unstake.end
      && SumLamports(Collected(l, vote, stake, SeedRange(unstake.begin, w.begin)), vote, Unstake, w.begin, unstake.end) == w.observed - w.removed
  {
    var w := WalkUnstake(l, vote, unstake.begin, unstake.end).value;
    WalkUnstakeFinds(l, vote, unstake.begin, unstake.end);
    SumSplit(l, vote, Unstake, unstake.begin, w.begin, unstake.end);
    SumFrame(l, Collected(l, vote, stake, SeedRange(unstake.begin, w.begin)), vote, Unstake, w.begin, unstake.end);
  }

  /** An update skims the stake accounts and empties a prefix of the unstake
      accounts; afterwards the books are exact. */
  lemma UpdateAccounted(l: Ledger, v: Validator)
    requires Accounted(l, v) && Examine(l, v).Ok?
    ensures var f := Examine(l, v).value;
      var l' := Collected(l, v.voteAccount, v.stakeSeeds, SeedRange(v.unstakeSeeds.begin, f.unstake.begin));
      && Accounted(l', f.after) && Exact(l', f.after)
  {
    var f := Examine(l, v).value;
    ExaminedEntry(l, v);
    CollectedStake(l, v.voteAccount, v.stakeSeeds, SeedRange(v.unstakeSeeds.begin, f.unstake.begin));
    CollectedUnstake(l, v.voteAccount, v.stakeSeeds, v.unstakeSeeds);
  }

  /** The books say precisely what the ledger holds. */
  predicate Exact(l: Ledger, v: Validator) {
    && v.effectiveStakeBalance == StakeLamports(l, v)
    && v.unstakeAccountsBalance == UnstakeLamports(l, v)
  }

  // ---------------------------------------------------------------- every step keeps the books

  lemma InitializeKeepsBooks(setup: Setup)
    requires Initialize(setup).Ok?
    ensures BooksInv(Initialize(setup).value)
  {
  }

  lemma StakeDepositKeepsBooks(s: State, amount: nat, index: nat, vote: Pubkey, approach: Approach)
    requires BooksInv(s) && StakeDeposit(s, amount, index, vote, approach).Ok?
    ensures BooksInv(StakeDeposit(s, amount, index, vote, approach).value)
  {
    match approach
    case Append(credits) => AppendKeepsBooks(s, amount, index, vote, credits);
    case Merge(balance) => MergeDepositKeepsBooks(s, amount, index, vote, balance);
  }

  lemma AppendKeepsBooks(s: State, amount: nat, index: nat, vote: Pubkey, credits: nat)
    requires BooksInv(s) && StakeDeposit(s, amount, index, vote, Append(credits)).Ok?
    ensures BooksInv(StakeDeposit(s, amount, index, vote, Append(credits)).value)
  {
    var s' := StakeDeposit(s, amount, index, vote, Append(credits)).value;
    var v := s.validators[index];
    AppendAccounted(s.accounts, s'.accounts, v, s'.validators[index], amount);
    ReplaceKeepsBooks(s, s', index, {AccountId(vote, Stake, v.stakeSeeds.end)});
  }

  lemma MergeDepositKeepsBooks(s: State, amount: nat, index: nat, vote: Pubkey, balance: StakeBalance)
    requires BooksInv(s) && StakeDeposit(s, amount, index, vote, Merge(balance)).Ok?
    ensures BooksInv(StakeDeposit(s, amount, index, vote, Merge(balance)).value)
  {
    var s' := StakeDeposit(s, amount, index, vote, Merge(balance)).value;
    var v := s.validators[index];
    MergeDepositAccounted(s.accounts, s'.accounts, v, s'.validators[index], amount, s.epoch);
    ReplaceKeepsBooks(s, s', index, {AccountId(vote, Temporary(s.epoch), v.stakeSeeds.end), AccountId(vote, Stake, v.stakeSeeds.end - 1)});
  }

  lemma UnstakeKeepsBooks(s: State, amount: nat, index: nat, vote: Pubkey, remainder: StakeBalance, balance: StakeBalance)
    requires BooksInv(s) && Unstaking(s, amount, index, vote, remainder, balance).Ok?
    ensures BooksInv(Unstaking(s, amount, index, vote, remainder, balance).value)
  {
    var s' := Unstaking(s, amount, index, vote, remainder, balance).value;
    var v := s.validators[index];
    UnstakeAccounted(s.accounts, s'.accounts, v, s'.validators[index], amount);
    ReplaceKeepsBooks(s, s', index, {AccountId(vote, Stake, v.stakeSeeds.begin), AccountId(vote, Unstake, v.unstakeSeeds.end)});
  }

  lemma MergeStakeKeepsBooks(s: State, index: nat, vote: Pubkey, balance: StakeBalance)
    requires BooksInv(s) && MergeStake(s, index, vote, balance).Ok?
    ensures BooksInv(MergeStake(s, index, vote, balance).value)
  {
    var s' := MergeStake(s, index, vote, balance).value;
    var v := s.validators[index];
    MergeStakeAccounted(s.accounts, s'.accounts, v, s'.validators[index]);
    ReplaceKeepsBooks(s, s', index, {AccountId(vote, Stake, v.stakeSeeds.begin), AccountId(vote, Stake, v.stakeSeeds.begin + 1)});
  }

  /** A validator with stake has a stake account to withdraw from. */
  lemma StakedHasAccount(l: Ledger, v: Validator)
    requires Accounted(l, v) && v.effectiveStakeBalance > 0
    ensures v.stakeSeeds.Contains(v.stakeSeeds.begin)
  {
  }

  lemma WithdrawKeepsBooks(s: State, amount: nat, index: nat, vote: Pubkey, payout: Payout)
    requires BooksInv(s) && Withdraw(s, amount, index, vote, payout).Ok?
    ensures BooksInv(Withdraw(s, amount, index, vote, payout).value)
  {
    var s' := Withdraw(s, amount, index, vote, payout).value;
    var v := s.validators[index];
    StakedHasAccount(s.accounts, v);
    WithdrawAccounted(s.accounts, s'.accounts, v, s'.validators[index], ExchangeStSol(s.rate, amount).value);
    ReplaceKeepsBooks(s, s', index, {AccountId(vote, Stake, v.stakeSeeds.begin)});
  }

  lemma UpdateKeepsBooks(s: State, index: nat, vote: Pubkey)
    requires BooksInv(s) && UpdateStakeAccountBalance(s, index, vote).Ok?
    ensures BooksInv(UpdateStakeAccountBalance(s, index, vote).value)
  {
    var s' := UpdateStakeAccountBalance(s, index, vote).value;
    var v := s.validators[index];
    UpdateAccounted(s.accounts, v);
    var ids := set id | id in s.accounts && id.vote == vote;
    ReplaceKeepsBooks(s, s', index, ids);
  }

  lemma AddKeepsBooks(s: State, vote: Pubkey)
    requires BooksInv(s) && AddValidator(s, vote).Ok?
    ensures BooksInv(AddValidator(s, vote).value)
  {
    var vs := s.validators;
    forall i, j | 0 <= i < j < |vs| + 1
      ensures (vs + [NewValidator(vote)])[i].voteAccount != (vs + [NewValidator(vote)])[j].voteAccount
    {
      assert j == |vs| ==> vs[i].voteAccount != vote;
    }
  }

  lemma RemoveKeepsBooks(s: State, index: nat, vote: Pubkey)
    requires BooksInv(s) && RemoveValidator(s, index, vote).Ok?
    ensures BooksInv(RemoveValidator(s, index, vote).value)
  {
    var vs, n := s.validators, |s.validators| - 1;
    var vs' := SwapRemove(vs, index);
    assert forall i :: 0 <= i < n ==> vs'[i] == if i == index then vs[n] else vs[i];
  }

  lemma ChangeStatusKeepsBooks(s: State, index: nat, vote: Pubkey, change: StatusChange)
    requires BooksInv(s) && ChangeStatus(s, index, vote, change).Ok?
    ensures BooksInv(ChangeStatus(s, index, vote, change).value)
  {
    ReplaceKeepsBooks(s, ChangeStatus(s, index, vote, change).value, index, {});
  }

  /** Outside events never take lamports out of an account. */
  lemma MoreLamportsKeepBooks(s: State, s': State)
    requires BooksInv(s) && s'.validators == s.validators && s'.maxValidators == s.maxValidators && s'.reserve == s.reserve
    requires forall id {:trigger At(s'.accounts, id)} :: At(s.accounts, id).Lamports() <= At(s'.accounts, id).Lamports()
    ensures BooksInv(s')
  {
    forall i | 0 <= i < |s'.validators|
      ensures Accounted(s'.accounts, s'.validators[i])
    {
      var v := s.validators[i];
      SumMonotone(s.accounts, s'.accounts, v.voteAccount, Stake, v.stakeSeeds.begin, v.stakeSeeds.end);
      SumMonotone(s.accounts, s'.accounts, v.voteAccount, Unstake, v.unstakeSeeds.begin, v.unstakeSeeds.end);
    }
  }

  /** Every step that succeeds keeps the books within the ledger. */
  lemma StepKeepsBooks(s: State, step: Step)
    requires BooksInv(s) && Apply(s, step).Ok?
    ensures BooksInv(Apply(s, step).value)
  {
    match step
    case DepositStep(amount) =>
    case StakeDepositStep(amount, index, vote, approach) => StakeDepositKeepsBooks(s, amount, index, vote, approach);
    case UnstakeStep(amount, index, vote, remainder, balance) => UnstakeKeepsBooks(s, amount, index, vote, remainder, balance);
    case MergeStakeStep(index, vote, balance) => MergeStakeKeepsBooks(s, index, vote, balance);
    case UpdateBalanceStep(index, vote) => UpdateKeepsBooks(s, index, vote);
    case UpdateRateStep =>
    case WithdrawStep(amount, index, vote, payout) => WithdrawKeepsBooks(s, amount, index, vote, payout);
    case AddValidatorStep(vote) => AddKeepsBooks(s, vote);
    case RemoveValidatorStep(index, vote) => RemoveKeepsBooks(s, index, vote);
    case ChangeStatusStep(index, vote, change) => ChangeStatusKeepsBooks(s, index, vote, change);
    case ChangeDistributionStep(_) =>
    case EpochStep(_) => MoreLamportsKeepBooks(s, Apply(s, step).value);
    case RewardStep(_, _, _) => MoreLamportsKeepBooks(s, Apply(s, step).value);
    case DonateToReserveStep(_) =>
    case TakeOverStep(_, _) => MoreLamportsKeepBooks(s, Apply(s, step).value);
    case DonateToAccountStep(_, _) => MoreLamportsKeepBooks(s, Apply(s, step).value);
    case BurnStep(_) =>
  }

  /** In every state of every run, whatever steps are attempted in whatever
      order, the books stay within the ledger. */
  lemma {:induction false} RunKeepsBooks(s: State, steps: seq<Step>)
    requires BooksInv(s)
    ensures BooksInv(Run(s, steps))
  {
    if steps != [] {
      var before, step := Run(s, steps[..|steps| - 1]), steps[|steps| - 1];
      RunKeepsBooks(s, steps[..|steps| - 1]);
      if Apply(before, step).Ok? {
        StepKeepsBooks(before, step);
      }
    }
  }

  /** Within the books invariant, an update never reports a decreased balance,
      and none of its own expectations about tracked balances fails: it examines
      successfully unless the runtime left an account dead or without its rent,
      or there is more SOL than fits. */
  lemma ExamineFailsOnlyOutside(l: Ledger, v: Validator)
    requires Accounted(l, v)
    ensures Examine(l, v).Ok? <==>
      && AllLive(l, v.voteAccount, Stake, v.stakeSeeds.begin, v.stakeSeeds.end)
      && AllKeepRent(l, v.voteAccount, v.stakeSeeds.begin, v.stakeSeeds.end)
      && AllLive(l, v.voteAccount, Unstake, v.unstakeSeeds.begin, v.unstakeSeeds.end)
      && StakeLamports(l, v) + UnstakeLamports(l, v) <= MAX_U64
    ensures Examine(l, v).Err? ==> Examine(l, v).error in {InvalidStakeAccount, CalculationFailure, Panicked(LessThanRent)}
  {
    var skimmed := Collected(l, v.voteAccount, v.stakeSeeds, SeedRange(0, 0));
    WalkStakeFinds(l, skimmed, v.voteAccount, v.stakeSeeds.begin, v.stakeSeeds.end);
    WalkUnstakeFinds(l, v.voteAccount, v.unstakeSeeds.begin, v.unstakeSeeds.end);
    WalkStakeErrors(l, v.voteAccount, v.stakeSeeds.begin, v.stakeSeeds.end);
    WalkUnstakeErrors(l, v.voteAccount, v.unstakeSeeds.begin, v.unstakeSeeds.end);
  }

  lemma {:induction false} WalkStakeErrors(l: Ledger, vote: Pubkey, lo: nat, hi: nat)
    ensures WalkStake(l, vote, lo, hi).Err? ==>
      WalkStake(l, vote, lo, hi).error in {InvalidStakeAccount, CalculationFailure, Panicked(LessThanRent)}
    decreases hi - lo
  {
    if lo < hi {
      WalkStakeErrors(l, vote, lo, hi - 1);
    }
  }

  lemma {:induction false} WalkUnstakeErrors(l: Ledger, vote: Pubkey, lo: nat, hi: nat)
    ensures WalkUnstake(l, vote, lo, hi).Err? ==>
      WalkUnstake(l, vote, lo, hi).error in {InvalidStakeAccount, CalculationFailure}
    decreases hi - lo
  {
    if lo < hi {
      WalkUnstakeErrors(l, vote, lo, hi - 1);
    }
  }
}
