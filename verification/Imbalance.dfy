/** How far apart the stake of active validators can drift, how seeds advance,
    and how a stake account is drained. */
module Imbalance {
  import opened Bytes
  import opened Token
  import opened State
  import opened Instructions
  import opened LedgerFacts
  import opened Books

  // ---------------------------------------------------------------- bounded imbalance

  /** No active validator has more than `d` above another one. */
  ghost predicate SpreadAtMost(vs: seq<Validator>, d: nat) {
    forall i, j :: 0 <= i < |vs| && 0 <= j < |vs| && vs[i].IsActive() && vs[j].IsActive() ==>
      vs[i].effectiveStakeBalance <= vs[j].effectiveStakeBalance + d
  }

  predicate MovesStake(step: Step) {
    step.StakeDepositStep? || step.WithdrawStep?
  }

  /** The SOL that a step would move to or from a validator. */
  function Amount(rate: ExchangeRate, step: Step): nat {
    match step
    case StakeDepositStep(amount, _, _, _) => amount
    case WithdrawStep(amount, _, _, _) => if ExchangeStSol(rate, amount).Ok? then ExchangeStSol(rate, amount).value else 0
    case _ => 0
  }

  /** Only one validator changes, by an amount within the bound, starting from
      the lowest or the highest. */
  lemma SpreadAfter(vs: seq<Validator>, vs': seq<Validator>, index: nat, d: nat)
    requires SpreadAtMost(vs, d) && Replaced(vs, vs', index) && vs'[index].status == vs[index].status
    requires var e, e' := vs[index].effectiveStakeBalance, vs'[index].effectiveStakeBalance;
      || (e <= e' <= e + d && forall j :: 0 <= j < |vs| && vs[j].IsActive() ==> e <= vs[j].effectiveStakeBalance)
      || (e' <= e <= e' + d && forall j :: 0 <= j < |vs| ==> vs[j].effectiveStakeBalance <= e)
    ensures SpreadAtMost(vs', d)
  {
    forall i, j | 0 <= i < |vs'| && 0 <= j < |vs'| && vs'[i].IsActive() && vs'[j].IsActive()
      ensures vs'[i].effectiveStakeBalance <= vs'[j].effectiveStakeBalance + d
    {
      assert vs[i].IsActive() && vs[j].IsActive();
      assert i != index ==> vs'[i] == vs[i];
      assert j != index ==> vs'[j] == vs[j];
    }
  }

  lemma StakeDepositSpread(s: State, amount: nat, index: nat, vote: Pubkey, approach: Approach, d: nat)
    requires BooksInv(s) && StakeDeposit(s, amount, index, vote, approach).Ok?
    requires SpreadAtMost(s.validators, d) && amount <= d
    ensures SpreadAtMost(StakeDeposit(s, amount, index, vote, approach).value.validators, d)
  {
    var vs, vs' := s.validators, StakeDeposit(s, amount, index, vote, approach).value.validators;
    MinimumActiveIsLeast(vs);
    assert vs'[index].effectiveStakeBalance == vs[index].effectiveStakeBalance + amount;
    SpreadAfter(vs, vs', index, d);
  }

  lemma WithdrawSpread(s: State, amount: nat, index: nat, vote: Pubkey, payout: Payout, d: nat)
    requires BooksInv(s) && Withdraw(s, amount, index, vote, payout).Ok?
    requires SpreadAtMost(s.validators, d) && Amount(s.rate, WithdrawStep(amount, index, vote, payout)) <= d
    ensures SpreadAtMost(Withdraw(s, amount, index, vote, payout).value.validators, d)
  {
    var vs, vs' := s.validators, Withdraw(s, amount, index, vote, payout).value.validators;
    MaximumEffectiveIsGreatest(vs);
    assert vs'[index].effectiveStakeBalance == vs[index].effectiveStakeBalance - ExchangeStSol(s.rate, amount).value;
    SpreadAfter(vs, vs', index, d);
  }

  lemma MovingKeepsRate(s: State, step: Step)
    requires MovesStake(step)
    ensures Next(s, step).rate == s.rate
  {
  }

  /** Over any run of stake deposits and withdrawals, no two active validators
      drift further apart than the larger of their initial spread and the
      largest amount moved in one step. */
  lemma {:induction false} BoundedImbalance(s: State, steps: seq<Step>, d: nat)
    requires BooksInv(s) && SpreadAtMost(s.validators, d)
    requires forall i :: 0 <= i < |steps| ==> MovesStake(steps[i]) && Amount(s.rate, steps[i]) <= d
    ensures Run(s, steps).rate == s.rate
    ensures SpreadAtMost(Run(s, steps).validators, d)
  {
    if steps != [] {
      var front, step := steps[..|steps| - 1], steps[|steps| - 1];
      var before := Run(s, front);
      BoundedImbalance(s, front, d);
      RunKeepsBooks(s, front);
      MovingKeepsRate(before, step);
      if Apply(before, step).Ok? {
        match step
        case StakeDepositStep(amount, index, vote, approach) => StakeDepositSpread(before, amount, index, vote, approach, d);
        case WithdrawStep(amount, index, vote, payout) => WithdrawSpread(before, amount, index, vote, payout, d);
      }
    }
  }

  // ---------------------------------------------------------------- seeds

  /** Neither end of either range moves back, and pending removal is final. */
  predicate Advances(v: Validator, v': Validator) {
    && v.stakeSeeds.begin <= v'.stakeSeeds.begin && v.stakeSeeds.end <= v'.stakeSeeds.end
    && v.unstakeSeeds.begin <= v'.unstakeSeeds.begin && v.unstakeSeeds.end <= v'.unstakeSeeds.end
    && (v.status.PendingRemoval? ==> v'.status.PendingRemoval?)
  }

  /** Validators that are listed before and after have not gone back. */
  ghost predicate AllAdvance(vs: seq<Validator>, vs': seq<Validator>) {
    forall i, j :: 0 <= i < |vs| && 0 <= j < |vs'| && vs[i].voteAccount == vs'[j].voteAccount ==> Advances(vs[i], vs'[j])
  }

  lemma AdvanceAfter(vs: seq<Validator>, vs': seq<Validator>, index: nat)
    requires UniqueKeys(vs) && Replaced(vs, vs', index) && Advances(vs[index], vs'[index])
    ensures AllAdvance(vs, vs')
  {
    forall i, j | 0 <= i < |vs| && 0 <= j < |vs'| && vs[i].voteAccount == vs'[j].voteAccount
      ensures Advances(vs[i], vs'[j])
    {
      assert vs'[j].voteAccount == vs[j].voteAccount;
      assert j != index ==> vs'[j] == vs[j];
    }
  }

  lemma UpdateAdvances(s: State, index: nat, vote: Pubkey)
    requires BooksInv(s) && UpdateStakeAccountBalance(s, index, vote).Ok?
    ensures AllAdvance(s.validators, UpdateStakeAccountBalance(s, index, vote).value.validators)
  {
    var v := s.validators[index];
    WalkUnstakeFinds(s.accounts, vote, v.unstakeSeeds.begin, v.unstakeSeeds.end);
    AdvanceAfter(s.validators, UpdateStakeAccountBalance(s, index, vote).value.validators, index);
  }

  lemma ListingAdvances(s: State, index: nat, vote: Pubkey)
    requires BooksInv(s)
    ensures AddValidator(s, vote).Ok? ==> AllAdvance(s.validators, AddValidator(s, vote).value.validators)
    ensures RemoveValidator(s, index, vote).Ok? ==> AllAdvance(s.validators, RemoveValidator(s, index, vote).value.validators)
  {
    var vs := s.validators;
    if RemoveValidator(s, index, vote).Ok? {
      var vs' := RemoveValidator(s, index, vote).value.validators;
      assert forall j :: 0 <= j < |vs'| ==> vs'[j] == if j == index then vs[|vs| - 1] else vs[j];
    }
    if AddValidator(s, vote).Ok? {
      var vs' := AddValidator(s, vote).value.validators;
      assert forall j :: 0 <= j < |vs| ==> vs'[j] == vs[j];
      assert forall i :: 0 <= i < |vs| ==> vs[i].voteAccount != vote;
    }
  }

  lemma StakeDepositAdvances(s: State, amount: nat, index: nat, vote: Pubkey, approach: Approach)
    requires BooksInv(s) && StakeDeposit(s, amount, index, vote, approach).Ok?
    ensures AllAdvance(s.validators, StakeDeposit(s, amount, index, vote, approach).value.validators)
  {
    AdvanceAfter(s.validators, StakeDeposit(s, amount, index, vote, approach).value.validators, index);
  }

  lemma UnstakeAdvances(s: State, amount: nat, index: nat, vote: Pubkey, remainder: StakeBalance, balance: StakeBalance)
    requires BooksInv(s) && Unstaking(s, amount, index, vote, remainder, balance).Ok?
    ensures AllAdvance(s.validators, Unstaking(s, amount, index, vote, remainder, balance).value.validators)
  {
    AdvanceAfter(s.validators, Unstaking(s, amount, index, vote, remainder, balance).value.validators, index);
  }

  lemma MergeStakeAdvances(s: State, index: nat, vote: Pubkey, balance: StakeBalance)
    requires BooksInv(s) && MergeStake(s, index, vote, balance).Ok?
    ensures AllAdvance(s.validators, MergeStake(s, index, vote, balance).value.validators)
  {
    AdvanceAfter(s.validators, MergeStake(s, index, vote, balance).value.validators, index);
  }

  lemma WithdrawAdvances(s: State, amount: nat, index: nat, vote: Pubkey, payout: Payout)
    requires BooksInv(s) && Withdraw(s, amount, index, vote, payout).Ok?
    ensures AllAdvance(s.validators, Withdraw(s, amount, index, vote, payout).value.validators)
  {
    AdvanceAfter(s.validators, Withdraw(s, amount, index, vote, payout).value.validators, index);
  }

  lemma ChangeStatusAdvances(s: State, index: nat, vote: Pubkey, change: StatusChange)
    requires BooksInv(s) && ChangeStatus(s, index, vote, change).Ok?
    ensures AllAdvance(s.validators, ChangeStatus(s, index, vote, change).value.validators)
  {
    AdvanceAfter(s.validators, ChangeStatus(s, index, vote, change).value.validators, index);
  }

  /** Steps that change the list of validators or an entry in it. */
  predicate ChangesList(step: Step) {
    step.StakeDepositStep? || step.UnstakeStep? || step.MergeStakeStep? || step.UpdateBalanceStep? || step.WithdrawStep?
    || step.AddValidatorStep? || step.RemoveValidatorStep? || step.ChangeStatusStep?
  }

  lemma OthersKeepList(s: State, step: Step)
    requires !ChangesList(step) && Apply(s, step).Ok?
    ensures Apply(s, step).value.validators == s.validators
  {
  }

  lemma StepAdvances(s: State, step: Step)
    requires BooksInv(s) && Apply(s, step).Ok?
    ensures AllAdvance(s.validators, Apply(s, step).value.validators)
  {
    if ChangesList(step) {
      ChangeAdvances(s, step);
    } else {
      OthersKeepList(s, step);
    }
  }

  lemma ChangeAdvances(s: State, step: Step)
    requires BooksInv(s) && ChangesList(step) && Apply(s, step).Ok?
    ensures AllAdvance(s.validators, Apply(s, step).value.validators)
  {
    match step
    case StakeDepositStep(amount, index, vote, approach) => StakeDepositAdvances(s, amount, index, vote, approach);
    case UnstakeStep(amount, index, vote, remainder, balance) => UnstakeAdvances(s, amount, index, vote, remainder, balance);
    case MergeStakeStep(index, vote, balance) => MergeStakeAdvances(s, index, vote, balance);
    case UpdateBalanceStep(index, vote) => UpdateAdvances(s, index, vote);
    case WithdrawStep(amount, index, vote, payout) => WithdrawAdvances(s, amount, index, vote, payout);
    case AddValidatorStep(vote) => ListingAdvances(s, 0, vote);
    case RemoveValidatorStep(index, vote) => ListingAdvances(s, index, vote);
    case ChangeStatusStep(index, vote, change) => ChangeStatusAdvances(s, index, vote, change);
  }

  /** The validator was listed in every state of the run. */
  predicate StaysListed(s: State, steps: seq<Step>, vote: Pubkey) {
    && HasKey(Run(s, steps).validators, vote)
    && (steps != [] ==> StaysListed(s, steps[..|steps| - 1], vote))
  }

  /** While a validator stays listed, no run moves its seeds back, or keeps it after all
      once it is pending removal. */
  lemma {:induction false} SeedsNeverGoBack(s: State, steps: seq<Step>, vote: Pubkey, i: nat, j: nat)
    requires BooksInv(s) && StaysListed(s, steps, vote)
    requires i < |s.validators| && s.validators[i].voteAccount == vote
    requires j < |Run(s, steps).validators| && Run(s, steps).validators[j].voteAccount == vote
    ensures Advances(s.validators[i], Run(s, steps).validators[j])
  {
    if steps != [] {
      var front := steps[..|steps| - 1];
      var before := Run(s, front);
      var k :| 0 <= k < |before.validators| && before.validators[k].voteAccount == vote;
      SeedsNeverGoBack(s, front, vote, i, k);
      RunKeepsBooks(s, front);
      if Apply(before, steps[|steps| - 1]).Ok? {
        StepAdvances(before, steps[|steps| - 1]);
      }
      assert Advances(before.validators[k], Run(s, steps).validators[j]);
    }
  }

  // ---------------------------------------------------------------- draining a stake account

  /** The most that can be withdrawn in one go. */
  function LargestWithdrawal(balance: nat): nat
    requires MINIMUM_STAKE_ACCOUNT_BALANCE <= balance
  {
    var limit, above := balance / 10 + 10 * LAMPORTS_PER_SOL, balance - MINIMUM_STAKE_ACCOUNT_BALANCE;
    if limit <= above then limit else above
  }

  /** An amount passes the checks of a withdrawal exactly if it is at most that. */
  lemma WithdrawalLimit(balance: nat, sol: nat)
    requires MINIMUM_STAKE_ACCOUNT_BALANCE <= balance <= MAX_U64
    ensures WithdrawLimit(balance).Ok? ==> (CheckWithdrawAmount(balance, sol).Ok? <==> sol <= LargestWithdrawal(balance))
    ensures WithdrawLimit(balance).Ok?
  {
    var tenth := Mul(balance, Rational(1, 10));
    assert tenth.Ok? && IsFloor(tenth.value, balance * 1, 10);
    assert tenth.value == balance / 10;
  }

  function Drained(balance: nat, withdrawals: nat): (b: nat)
    requires MINIMUM_STAKE_ACCOUNT_BALANCE <= balance
    ensures MINIMUM_STAKE_ACCOUNT_BALANCE <= b <= balance
  {
    if withdrawals == 0 then balance else Drained(balance - LargestWithdrawal(balance), withdrawals - 1)
  }

  /** However large the account, withdrawing the most that is allowed reaches
      exactly the minimum, after at most one withdrawal for every started 10 SOL
      above it. */
  lemma {:induction false} DrainingReachesMinimum(balance: nat, withdrawals: nat)
    requires MINIMUM_STAKE_ACCOUNT_BALANCE <= balance
    requires balance - MINIMUM_STAKE_ACCOUNT_BALANCE <= withdrawals * (10 * LAMPORTS_PER_SOL)
    ensures Drained(balance, withdrawals) == MINIMUM_STAKE_ACCOUNT_BALANCE
  {
    if withdrawals > 0 {
      DrainingReachesMinimum(balance - LargestWithdrawal(balance), withdrawals - 1);
    }
  }
}
