/** When the price can fall after all: once no stSOL is left, the SOL that stays
    behind is shared with the next depositor. */
module Restart {
  import opened Token
  import opened State
  import opened Instructions
  import opened LedgerFacts
  import opened Books
  import opened Solvency

  lemma RunFour(s: State, a: Step, b: Step, c: Step, d: Step)
    ensures Run(s, [a, b, c, d]) == Next(Next(Next(Next(s, a), b), c), d)
  {
    assert Run(s, []) == s && [] + [a] == [a];
    RunSnoc(s, [], a);
    assert [a] + [b] == [a, b];
    RunSnoc(s, [a], b);
    assert [a, b] + [c] == [a, b, c];
    RunSnoc(s, [a, b], c);
    assert [a, b, c] + [d] == [a, b, c, d];
    RunSnoc(s, [a, b, c], d);
  }

  lemma AfterBurning(s: State)
    ensures Next(s, BurnStep(s.supply)) == s.(supply := 0)
  {
  }

  lemma AfterEpoch(s: State, balances: map<AccountId, StakeBalance>)
    ensures Next(s, EpochStep(balances)) == s.(epoch := s.epoch + 1, accounts := Redivided(s.accounts, balances))
  {
  }

  lemma AfterUpdateRate(s: State)
    requires RESERVE_RENT <= s.reserve && s.rate.computedInEpoch < s.epoch && PoolSol(s) <= MAX_U64
    ensures Next(s, UpdateRateStep) == s.(rate := ExchangeRate(s.epoch, s.supply, PoolSol(s)))
  {
    GetSolBalanceIsPoolSol(s);
  }

  /** Without stSOL on record, a lamport of SOL buys a lamport of stSOL. */
  lemma AfterFirstDeposit(s: State, amount: nat)
    requires 0 < amount && s.rate.stSolSupply == 0
    requires s.supply + amount <= MAX_U64 && s.metrics.deposits.total + amount <= MAX_U64
    ensures var t := Next(s, DepositStep(amount));
      && t.supply == s.supply + amount && t.reserve == s.reserve + amount
      && t.validators == s.validators && t.rate == s.rate && t.epoch == s.epoch
      && t.metrics.deposits.total == s.metrics.deposits.total + amount
  {
    assert Apply(s, DepositStep(amount)) == Deposit(s, amount);
    assert Deposit(s, amount).Ok?;
  }

  /** Holders burn everything, a new epoch records a rate without stSOL, and
      somebody deposits. */
  function StartOver(s: State, amount: nat): seq<Step> {
    [BurnStep(s.supply), EpochStep(map[]), UpdateRateStep, DepositStep(amount)]
  }

  /** The epoch after all stSOL was burnt. */
  lemma AfterBurningEpoch(s: State)
    ensures Next(Next(s, BurnStep(s.supply)), EpochStep(map[]))
         == s.(supply := 0, epoch := s.epoch + 1, accounts := Redivided(s.accounts, map[]))
  {
    AfterBurning(s);
    AfterEpoch(s.(supply := 0), map[]);
  }

  /** A rate without stSOL, and with all of the SOL, is recorded. */
  lemma AfterRateOfNothing(s: State)
    requires BooksInv(s) && s.rate.computedInEpoch <= s.epoch && PoolSol(s) <= MAX_U64
    ensures Next(Next(Next(s, BurnStep(s.supply)), EpochStep(map[])), UpdateRateStep)
         == s.(supply := 0, epoch := s.epoch + 1, accounts := Redivided(s.accounts, map[]),
               rate := ExchangeRate(s.epoch + 1, 0, PoolSol(s)))
  {
    AfterBurningEpoch(s);
    AfterUpdateRate(s.(supply := 0, epoch := s.epoch + 1, accounts := Redivided(s.accounts, map[])));
  }

  /** The new depositor gets one stSOL per SOL, and shares what was left. */
  lemma AfterStartingOver(s: State, amount: nat)
    requires BooksInv(s) && s.rate.computedInEpoch <= s.epoch && 0 < amount
    requires PoolSol(s) <= MAX_U64 && amount <= MAX_U64 && s.metrics.deposits.total + amount <= MAX_U64
    ensures var t := Run(s, StartOver(s, amount));
      t.supply == amount && PoolSol(t) == PoolSol(s) + amount && t.rate == ExchangeRate(s.epoch + 1, 0, PoolSol(s))
  {
    RunFour(s, BurnStep(s.supply), EpochStep(map[]), UpdateRateStep, DepositStep(amount));
    AfterRateOfNothing(s);
    var empty := s.(supply := 0, epoch := s.epoch + 1, accounts := Redivided(s.accounts, map[]),
                    rate := ExchangeRate(s.epoch + 1, 0, PoolSol(s)));
    AfterFirstDeposit(empty, amount);
  }

  /** So once all stSOL is gone the price can fall, and it does exactly when the
      new deposit dilutes what was left behind below the recorded price. */
  lemma PriceFallsIff(s: State, amount: nat)
    requires BooksInv(s) && s.rate.computedInEpoch <= s.epoch && 0 < amount
    requires PoolSol(s) <= MAX_U64 && amount <= MAX_U64 && s.metrics.deposits.total + amount <= MAX_U64
    ensures var t := Run(s, StartOver(s, amount));
      NoLower(s.rate.solBalance, s.rate.stSolSupply, PoolSol(t), t.supply)
      <==> (s.rate.solBalance - s.rate.stSolSupply) * amount <= PoolSol(s) * s.rate.stSolSupply
  {
    AfterStartingOver(s, amount);
    Diluted(s.rate.solBalance, s.rate.stSolSupply, PoolSol(s), amount);
  }

  lemma Diluted(sol: int, st: int, pool: int, amount: int)
    ensures NoLower(sol, st, pool + amount, amount) <==> (sol - st) * amount <= pool * st
  {
    assert (sol - st) * amount == sol * amount - st * amount;
    assert (pool + amount) * st == pool * st + st * amount;
  }

  /** 100 lamports are deposited, and 100 given. */
  const DOUBLING: seq<Step> := [DepositStep(100), EpochStep(map[]), DonateToReserveStep(100), UpdateRateStep]

  lemma AfterDoubling(s: State)
    requires RESERVE_RENT <= s.reserve <= MAX_U64 - 200 && s.validators == [] && s.supply == 0
    requires s.rate.stSolSupply == 0 && s.rate.computedInEpoch <= s.epoch && s.metrics.deposits.total == 0
    ensures var t := Run(s, DOUBLING);
      && PoolSol(t) == PoolSol(s) + 200 && t.metrics.deposits.total == 100
      && t.rate == ExchangeRate(t.epoch, 100, PoolSol(t))
  {
    RunFour(s, DepositStep(100), EpochStep(map[]), DonateToReserveStep(100), UpdateRateStep);
    AfterFirstDeposit(s, 100);
    var deposited := Next(s, DepositStep(100));
    AfterEpoch(deposited, map[]);
    var later := Next(deposited, EpochStep(map[]));
    var given := Next(later, DonateToReserveStep(100));
    assert given == later.(reserve := later.reserve + 100, gifts := given.gifts);
    AfterUpdateRate(given);
  }

  /** From every set-up whose reserve leaves room for it, there is a run in which the
      price falls. */
  lemma PriceFallsExample(setup: Setup)
    requires Initialize(setup).Ok? && setup.reserve <= MAX_U64 - 200
    ensures var s := Run(Initialize(setup).value, DOUBLING);
      var t := Run(s, StartOver(s, 1000));
      && 0 < s.rate.stSolSupply && 0 < t.supply
      && !NoLower(s.rate.solBalance, s.rate.stSolSupply, PoolSol(t), t.supply)
  {
    InitializeKeepsBooks(setup);
    RunKeepsBooks(Initialize(setup).value, DOUBLING);
    AfterDoubling(Initialize(setup).value);
    var s := Run(Initialize(setup).value, DOUBLING);
    AfterStartingOver(s, 1000);
    PriceFallsIff(s, 1000);
  }
}
