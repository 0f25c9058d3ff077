/** Where the pool's SOL comes from and goes to, why every stSOL stays backed,
    and why its price never falls. */
module Solvency {
  import opened Bytes
  import opened Results
  import opened Token
  import opened State
  import opened Instructions
  import opened LedgerFacts
  import opened Books
  import opened Placement

  // ---------------------------------------------------------------- conservation

  /** The rewards that an update of this validator would find now. */
  function RewardsAt(s: State, index: nat): nat {
    if index < |s.validators| && Examine(s.accounts, s.validators[index]).Ok?
    then Examine(s.accounts, s.validators[index]).value.rewards else 0
  }

  /** What a successful step does to the pool's SOL. */
  function Flow(s: State, step: Step): int {
    match step
    case DepositStep(amount) => amount
    case DonateToReserveStep(amount) => amount
    case UpdateBalanceStep(index, _) => RewardsAt(s, index)
    case WithdrawStep(amount, _, _, _) => if ExchangeStSol(s.rate, amount).Ok? then 0 - ExchangeStSol(s.rate, amount).value as int else 0
    case _ => 0
  }

  lemma StakeDepositFlow(s: State, amount: nat, index: nat, vote: Pubkey, approach: Approach)
    requires StakeDeposit(s, amount, index, vote, approach).Ok?
    ensures PoolSol(StakeDeposit(s, amount, index, vote, approach).value) == PoolSol(s)
  {
    SumStakeUpdate(s.validators, index, StakeDeposit(s, amount, index, vote, approach).value.validators[index]);
  }

  lemma UnstakeFlow(s: State, amount: nat, index: nat, vote: Pubkey, remainder: StakeBalance, balance: StakeBalance)
    requires Unstaking(s, amount, index, vote, remainder, balance).Ok?
    ensures PoolSol(Unstaking(s, amount, index, vote, remainder, balance).value) == PoolSol(s)
  {
    SumStakeUpdate(s.validators, index, Unstaking(s, amount, index, vote, remainder, balance).value.validators[index]);
  }

  lemma MergeStakeFlow(s: State, index: nat, vote: Pubkey, balance: StakeBalance)
    requires MergeStake(s, index, vote, balance).Ok?
    ensures PoolSol(MergeStake(s, index, vote, balance).value) == PoolSol(s)
  {
    SumStakeUpdate(s.validators, index, MergeStake(s, index, vote, balance).value.validators[index]);
  }

  lemma WithdrawFlow(s: State, amount: nat, index: nat, vote: Pubkey, payout: Payout)
    requires Withdraw(s, amount, index, vote, payout).Ok?
    ensures ExchangeStSol(s.rate, amount).Ok?
    ensures PoolSol(Withdraw(s, amount, index, vote, payout).value) == PoolSol(s) - ExchangeStSol(s.rate, amount).value
  {
    SumStakeUpdate(s.validators, index, Withdraw(s, amount, index, vote, payout).value.validators[index]);
  }

  lemma ListFlow(s: State, index: nat, vote: Pubkey, change: StatusChange)
    ensures AddValidator(s, vote).Ok? ==> PoolSol(AddValidator(s, vote).value) == PoolSol(s)
    ensures RemoveValidator(s, index, vote).Ok? ==> PoolSol(RemoveValidator(s, index, vote).value) == PoolSol(s)
    ensures ChangeStatus(s, index, vote, change).Ok? ==> PoolSol(ChangeStatus(s, index, vote, change).value) == PoolSol(s)
  {
    if AddValidator(s, vote).Ok? {
      assert AddValidator(s, vote).value.validators[..|s.validators|] == s.validators;
    }
    if RemoveValidator(s, index, vote).Ok? {
      SumStakeSwapRemove(s.validators, index);
    }
    if ChangeStatus(s, index, vote, change).Ok? {
      SumStakeUpdate(s.validators, index, ChangeStatus(s, index, vote, change).value.validators[index]);
    }
  }

  /** Conservation: each step changes the pool's SOL by exactly its flow. */
  lemma StepFlow(s: State, step: Step)
    requires Apply(s, step).Ok?
    ensures PoolSol(Apply(s, step).value) == PoolSol(s) + Flow(s, step)
  {
    match step
    case StakeDepositStep(amount, index, vote, approach) => StakeDepositFlow(s, amount, index, vote, approach);
    case UnstakeStep(amount, index, vote, remainder, balance) => UnstakeFlow(s, amount, index, vote, remainder, balance);
    case MergeStakeStep(index, vote, balance) => MergeStakeFlow(s, index, vote, balance);
    case UpdateBalanceStep(index, vote) => UpdateFlow(s, index, vote);
    case WithdrawStep(amount, index, vote, payout) => WithdrawFlow(s, amount, index, vote, payout);
    case AddValidatorStep(vote) => ListFlow(s, 0, vote, Activate);
    case RemoveValidatorStep(index, vote) => ListFlow(s, index, vote, Activate);
    case ChangeStatusStep(index, vote, change) => ListFlow(s, index, vote, change);
    case _ =>
  }

  lemma UpdateFlow(s: State, index: nat, vote: Pubkey)
    requires UpdateStakeAccountBalance(s, index, vote).Ok?
    ensures var s' := UpdateStakeAccountBalance(s, index, vote).value;
      PoolSol(s') == PoolSol(s) + RewardsAt(s, index)
  {
    SumStakeUpdate(s.validators, index, Examine(s.accounts, s.validators[index]).value.after);
  }

  /** What the pool should hold according to the recorded totals. */
  function Recorded(s: State): int {
    var m := s.metrics;
    s.gifts.initial + s.gifts.reserve + m.deposits.total + FeesTotal(m) - m.withdrawnSol
  }

  /** Every lamport of the pool is accounted for by the recorded totals. */
  ghost predicate AccountingInv(s: State) {
    PoolSol(s) == Recorded(s)
  }

  lemma DepositRecorded(s: State, amount: nat)
    requires Deposit(s, amount).Ok?
    ensures Recorded(Deposit(s, amount).value) == Recorded(s) + amount
  {
  }

  lemma WithdrawRecorded(s: State, amount: nat, index: nat, vote: Pubkey, payout: Payout)
    requires Withdraw(s, amount, index, vote, payout).Ok?
    ensures Recorded(Withdraw(s, amount, index, vote, payout).value) == Recorded(s) - ExchangeStSol(s.rate, amount).value
  {
  }

  function FeesTotal(m: Metrics): nat {
    m.feeTreasurySol + m.feeDeveloperSol + m.appreciationSol
  }

  lemma FeesAddUp(s: State, rewards: nat)
    requires DistributeFees(s, rewards).Ok?
    ensures var s' := DistributeFees(s, rewards).value;
      && s' == s.(supply := s'.supply, metrics := s'.metrics)
      && FeesTotal(s'.metrics) == FeesTotal(s.metrics) + rewards
      && s'.metrics.deposits == s.metrics.deposits && s'.metrics.withdrawnSol == s.metrics.withdrawnSol
  {
  }

  /** The three fee totals grow by exactly the rewards that an update finds. */
  lemma RewardsRecorded(s: State, index: nat, vote: Pubkey)
    requires UpdateStakeAccountBalance(s, index, vote).Ok?
    ensures FeesTotal(UpdateStakeAccountBalance(s, index, vote).value.metrics) == FeesTotal(s.metrics) + RewardsAt(s, index)
    ensures Recorded(UpdateStakeAccountBalance(s, index, vote).value) == Recorded(s) + RewardsAt(s, index)
  {
    var v := s.validators[index];
    var f := Examine(s.accounts, v).value;
    FeesAddUp(AfterCollecting(s, index, f), f.rewards);
  }

  lemma StepRecorded(s: State, step: Step)
    requires Apply(s, step).Ok?
    ensures Recorded(Apply(s, step).value) == Recorded(s) + Flow(s, step)
  {
    match step
    case DepositStep(amount) => DepositRecorded(s, amount);
    case WithdrawStep(amount, index, vote, payout) => WithdrawRecorded(s, amount, index, vote, payout);
    case UpdateBalanceStep(index, vote) => RewardsRecorded(s, index, vote);
    case _ => if Neutral(step) { NeutralKeepsSupply(s, step); }
  }

  /** The recorded totals move exactly as the pool's SOL does. */
  lemma StepKeepsAccounting(s: State, step: Step)
    requires AccountingInv(s) && Apply(s, step).Ok?
    ensures AccountingInv(Apply(s, step).value)
  {
    StepFlow(s, step);
    StepRecorded(s, step);
  }

  // ---------------------------------------------------------------- backing and price

  /** Every stSOL is backed by at least one lamport, on record and now, and the
      current price is no lower than the recorded one. */
  ghost predicate Solvent(pool: int, supply: int, rate: ExchangeRate) {
    && rate.stSolSupply <= rate.solBalance
    && supply <= pool
    && (rate.stSolSupply > 0 ==> supply * rate.solBalance <= pool * rate.stSolSupply)
  }

  ghost predicate SolventInv(s: State) {
    Solvent(PoolSol(s), s.supply, s.rate)
  }

  lemma MintKeepsSolvent(pool: int, supply: int, rate: ExchangeRate, added: nat, minted: nat)
    requires Solvent(pool, supply, rate) && minted <= added
    requires rate.stSolSupply > 0 ==> minted * rate.solBalance <= added * rate.stSolSupply
    ensures Solvent(pool + added, supply + minted, rate)
  {
    assert (pool + added) * rate.stSolSupply == pool * rate.stSolSupply + added * rate.stSolSupply;
    assert (supply + minted) * rate.solBalance == supply * rate.solBalance + minted * rate.solBalance;
  }

  lemma BurnKeepsSolvent(pool: int, supply: int, rate: ExchangeRate, burnt: nat)
    requires Solvent(pool, supply, rate)
    ensures Solvent(pool, supply - burnt, rate)
  {
    assert (supply - burnt) * rate.solBalance == supply * rate.solBalance - burnt * rate.solBalance;
  }

  lemma WithdrawKeepsSolvent(pool: int, supply: int, rate: ExchangeRate, sol: nat, burnt: nat)
    requires Solvent(pool, supply, rate) && 0 < rate.stSolSupply && burnt <= supply
    requires sol * rate.stSolSupply <= burnt * rate.solBalance
    ensures Solvent(pool - sol, supply - burnt, rate)
  {
    var s, b := rate.stSolSupply, rate.solBalance;
    var p, q := pool - sol, supply - burnt;
    assert p * s == pool * s - sol * s;
    assert q * b == supply * b - burnt * b;
    assert q * s <= q * b;
    LessCancels(q, p, s);
  }

  lemma LessCancels(q: int, p: int, s: int)
    requires 0 < s && q * s <= p * s
    ensures q <= p
  {
    if p < q {
      ScaleBoth(p + 1, q, s);
    }
  }

  lemma ScaleBoth(a: int, b: int, k: int)
    requires a <= b && 0 <= k
    ensures a * k <= b * k
  {
  }

  lemma ConversionIsFair(rate: ExchangeRate, amount: nat)
    requires rate.stSolSupply <= rate.solBalance && ExchangeSol(rate, amount).Ok?
    ensures var minted := ExchangeSol(rate, amount).value;
      minted <= amount && (rate.stSolSupply > 0 ==> minted * rate.solBalance <= amount * rate.stSolSupply)
  {
    ExchangeDirection(rate, amount);
  }

  /** Two mints for parts of the added SOL, and nothing for the third part. */
  lemma ThreePartsKeepSolvent(pool: int, supply: int, rate: ExchangeRate, t: nat, tSt: nat, d: nat, dSt: nat, rest: nat)
    requires Solvent(pool, supply, rate) && tSt <= t && dSt <= d
    requires rate.stSolSupply > 0 ==> tSt * rate.solBalance <= t * rate.stSolSupply
    requires rate.stSolSupply > 0 ==> dSt * rate.solBalance <= d * rate.stSolSupply
    ensures Solvent(pool + (t + d + rest), supply + tSt + dSt, rate)
  {
    MintKeepsSolvent(pool, supply, rate, t, tSt);
    MintKeepsSolvent(pool + t, supply + tSt, rate, d, dSt);
    MintKeepsSolvent(pool + t + d, supply + tSt + dSt, rate, rest, 0);
  }

  /** The parts of a distributed reward, and what is minted for them. */
  lemma FeesMinted(s: State, rewards: nat)
    requires 0 < rewards && DistributeFees(s, rewards).Ok?
    ensures FeePayment(s, rewards).Ok?
    ensures var p := FeePayment(s, rewards).value;
      && p.fees.treasury + p.fees.developer + p.fees.appreciation == rewards
      && ExchangeSol(s.rate, p.fees.treasury) == Ok(p.treasury) && ExchangeSol(s.rate, p.fees.developer) == Ok(p.developer)
      && DistributeFees(s, rewards).value.supply == s.supply + p.treasury + p.developer
  {
  }

  lemma FeesKeepSolvent(pool: int, s: State, rewards: nat)
    requires Solvent(pool, s.supply, s.rate) && DistributeFees(s, rewards).Ok?
    ensures Solvent(pool + rewards, DistributeFees(s, rewards).value.supply, s.rate)
  {
    if rewards > 0 {
      FeesMinted(s, rewards);
      var p := FeePayment(s, rewards).value;
      ConversionIsFair(s.rate, p.fees.treasury);
      ConversionIsFair(s.rate, p.fees.developer);
      ThreePartsKeepSolvent(pool, s.supply, s.rate, p.fees.treasury, p.treasury, p.fees.developer, p.developer, p.fees.appreciation);
    }
  }

  lemma UpdateKeepsSolvent(s: State, index: nat, vote: Pubkey)
    requires SolventInv(s) && UpdateStakeAccountBalance(s, index, vote).Ok?
    ensures SolventInv(UpdateStakeAccountBalance(s, index, vote).value)
  {
    UpdateFlow(s, index, vote);
    var f := Examine(s.accounts, s.validators[index]).value;
    FeesKeepSolvent(PoolSol(s), AfterCollecting(s, index, f), f.rewards);
  }

  lemma WithdrawStepSolvent(s: State, amount: nat, index: nat, vote: Pubkey, payout: Payout)
    requires SolventInv(s) && Withdraw(s, amount, index, vote, payout).Ok?
    ensures SolventInv(Withdraw(s, amount, index, vote, payout).value)
  {
    StepFlow(s, WithdrawStep(amount, index, vote, payout));
    WithdrawKeepsSolvent(PoolSol(s), s.supply, s.rate, ExchangeStSol(s.rate, amount).value, amount);
  }

  lemma UpdateRateSolvent(s: State)
    requires BooksInv(s) && SolventInv(s) && UpdateExchangeRate(s).Ok?
    ensures SolventInv(UpdateExchangeRate(s).value)
    ensures UpdateExchangeRate(s).value.rate == ExchangeRate(s.epoch, s.supply, PoolSol(s))
  {
    GetSolBalanceIsPoolSol(s);
  }

  /** Steps that move neither pool SOL, nor supply, nor the recorded rate. */
  predicate Neutral(step: Step) {
    step.StakeDepositStep? || step.UnstakeStep? || step.MergeStakeStep? || step.AddValidatorStep? || step.RemoveValidatorStep?
    || step.ChangeStatusStep? || step.ChangeDistributionStep? || step.EpochStep? || step.RewardStep? || step.DonateToAccountStep?
    || step.TakeOverStep?
  }

  lemma NeutralKeepsSupply(s: State, step: Step)
    requires Neutral(step) && Apply(s, step).Ok?
    ensures var s' := Apply(s, step).value;
      s'.supply == s.supply && s'.rate == s.rate && s'.metrics == s.metrics
      && s'.gifts.initial == s.gifts.initial && s'.gifts.reserve == s.gifts.reserve && Flow(s, step) == 0
  {
  }

  lemma DepositSolvent(s: State, amount: nat)
    requires SolventInv(s) && Deposit(s, amount).Ok?
    ensures SolventInv(Deposit(s, amount).value)
  {
    ConversionIsFair(s.rate, amount);
    MintKeepsSolvent(PoolSol(s), s.supply, s.rate, amount, ExchangeSol(s.rate, amount).value);
  }

  lemma StepKeepsSolvent(s: State, step: Step)
    requires BooksInv(s) && SolventInv(s) && Apply(s, step).Ok?
    ensures SolventInv(Apply(s, step).value)
  {
    StepFlow(s, step);
    if Neutral(step) {
      NeutralKeepsSupply(s, step);
    } else {
      match step
      case DepositStep(amount) => DepositSolvent(s, amount);
      case UpdateBalanceStep(index, vote) => UpdateKeepsSolvent(s, index, vote);
      case UpdateRateStep => UpdateRateSolvent(s);
      case WithdrawStep(amount, index, vote, payout) => WithdrawStepSolvent(s, amount, index, vote, payout);
      case BurnStep(amount) => BurnKeepsSolvent(PoolSol(s), s.supply, s.rate, amount);
      case DonateToReserveStep(amount) => MintKeepsSolvent(PoolSol(s), s.supply, s.rate, amount, 0);
    }
  }

  // ---------------------------------------------------------------- whole runs

  ghost predicate Inv(s: State) {
    BooksInv(s) && PlacementInv(s) && AccountingInv(s) && SolventInv(s)
  }

  lemma InitializeInv(setup: Setup)
    requires Initialize(setup).Ok?
    ensures Inv(Initialize(setup).value)
  {
    InitializeKeepsBooks(setup);
    InitializeKeepsPlacement(setup);
  }

  lemma NextKeepsInv(s: State, step: Step)
    requires Inv(s)
    ensures Inv(Next(s, step))
  {
    if Apply(s, step).Ok? {
      StepKeepsBooks(s, step);
      StepKeepsPlacement(s, step);
      StepKeepsAccounting(s, step);
      StepKeepsSolvent(s, step);
    }
  }

  lemma {:induction false} RunKeepsInv(s: State, steps: seq<Step>)
    requires Inv(s)
    ensures Inv(Run(s, steps))
  {
    if steps != [] {
      RunKeepsInv(s, steps[..|steps| - 1]);
      NextKeepsInv(Run(s, steps[..|steps| - 1]), steps[|steps| - 1]);
    }
  }

  predicate ReachedBy(s: State, setup: Setup, steps: seq<Step>) {
    Initialize(setup).Ok? && s == Run(Initialize(setup).value, steps)
  }

  /** A state that some run from some set-up arrives at. */
  ghost predicate Reachable(s: State) {
    exists setup, steps :: ReachedBy(s, setup, steps)
  }

  lemma ReachableInv(s: State)
    requires Reachable(s)
    ensures Inv(s)
  {
    var setup, steps :| ReachedBy(s, setup, steps);
    InitializeInv(setup);
    RunKeepsInv(Initialize(setup).value, steps);
  }

  /** In every reachable state the stSOL in existence is backed one to one or
      better. So the conversion's rule for minted stSOL without any SOL is never
      used, neither for the recorded rate nor for one recorded now. */
  lemma AlwaysBacked(s: State)
    requires Reachable(s)
    ensures s.supply <= PoolSol(s)
    ensures s.rate.solBalance == 0 ==> s.rate.stSolSupply == 0
    ensures PoolSol(s) == 0 ==> s.supply == 0
  {
    ReachableInv(s);
  }

  // ---------------------------------------------------------------- the price over a run

  /** The second price, SOL per stSOL, is no lower than the first. */
  predicate NoLower(sol1: int, st1: int, sol2: int, st2: int) {
    sol1 * st2 <= sol2 * st1
  }

  lemma NoLowerTransitive(sol1: int, st1: int, sol2: int, st2: int, sol3: int, st3: int)
    requires 0 <= st1 && 0 < st2 && 0 <= st3
    requires NoLower(sol1, st1, sol2, st2) && NoLower(sol2, st2, sol3, st3)
    ensures NoLower(sol1, st1, sol3, st3)
  {
    ScaleBoth(sol1 * st2, sol2 * st1, st3);
    ScaleBoth(sol2 * st3, sol3 * st2, st1);
    assert (sol1 * st3) * st2 == (sol1 * st2) * st3;
    assert (sol2 * st1) * st3 == (sol2 * st3) * st1;
    assert (sol3 * st2) * st1 == (sol3 * st1) * st2;
    LessCancels(sol1 * st3, sol3 * st1, st2);
  }

  predicate PriceNoLower(past: ExchangeRate, now: State) {
    && NoLower(past.solBalance, past.stSolSupply, now.rate.solBalance, now.rate.stSolSupply)
    && NoLower(past.solBalance, past.stSolSupply, PoolSol(now), now.supply)
  }

  lemma OnlyUpdateRateSetsRate(s: State, step: Step)
    requires !step.UpdateRateStep?
    ensures Next(s, step).rate == s.rate
  {
  }

  /** One step from a state with a proper rate. */
  lemma StepKeepsPrice(s: State, step: Step)
    requires Inv(s) && s.rate.stSolSupply > 0
    ensures NoLower(s.rate.solBalance, s.rate.stSolSupply, Next(s, step).rate.solBalance, Next(s, step).rate.stSolSupply)
  {
    if !step.UpdateRateStep? {
      OnlyUpdateRateSetsRate(s, step);
    } else if Apply(s, step).Ok? {
      UpdateRateSolvent(s);
    }
  }

  /** The recorded supply was nonzero in every state of the run. */
  predicate RateStaysProper(s: State, steps: seq<Step>) {
    && Run(s, steps).rate.stSolSupply > 0
    && (steps != [] ==> RateStaysProper(s, steps[..|steps| - 1]))
  }

  /** Over any run in which the recorded supply stays nonzero, no recorded price
      is lower than an earlier one, and the price that the pool could record
      right now is no lower either. */
  lemma {:induction false} PriceNeverFalls(s: State, steps: seq<Step>)
    requires Inv(s) && RateStaysProper(s, steps)
    ensures PriceNoLower(s.rate, Run(s, steps))
  {
    var t := Run(s, steps);
    RunKeepsInv(s, steps);
    if steps != [] {
      var front, step := steps[..|steps| - 1], steps[|steps| - 1];
      var m := Run(s, front);
      PriceNeverFalls(s, front);
      RunKeepsInv(s, front);
      StepKeepsPrice(m, step);
      NoLowerTransitive(s.rate.solBalance, s.rate.stSolSupply, m.rate.solBalance, m.rate.stSolSupply, t.rate.solBalance, t.rate.stSolSupply);
    }
    NoLowerTransitive(s.rate.solBalance, s.rate.stSolSupply, t.rate.solBalance, t.rate.stSolSupply, PoolSol(t), t.supply);
  }
}
