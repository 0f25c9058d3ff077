/** The instruction processor: methods that update the stored state and the
    chain in place, step by step, each proved to compute the transition of its
    instruction; and the transaction around them, which undoes a failed one. */
module Processor {
  import opened Bytes
  import opened Results
  import opened Token
  import opened State
  import opened Instructions

  // ---------------------------------------------------------------- facts for the loops

  /** A visit that fails decides the whole walk. */
  lemma {:induction false} StakeVisitFails(l: Ledger, vote: Pubkey, lo: nat, seed: nat, hi: nat, w: StakeWalk, e: Error)
    requires lo <= seed < hi && WalkStake(l, vote, lo, seed) == Ok(w)
    requires VisitStake(w, At(l, AccountId(vote, Stake, seed))) == Err(e)
    ensures WalkStake(l, vote, lo, hi) == Err(e)
    decreases hi - seed
  {
    if seed < hi - 1 {
      StakeVisitFails(l, vote, lo, seed, hi - 1, w, e);
    }
  }

  lemma StakeVisited(l: Ledger, vote: Pubkey, lo: nat, seed: nat, w: StakeWalk, w': StakeWalk)
    requires lo <= seed && WalkStake(l, vote, lo, seed) == Ok(w)
    requires VisitStake(w, At(l, AccountId(vote, Stake, seed))) == Ok(w')
    ensures WalkStake(l, vote, lo, seed + 1) == Ok(w')
  {
  }

  lemma UnstakeVisited(l: Ledger, vote: Pubkey, lo: nat, seed: nat, w: UnstakeWalk, w': UnstakeWalk)
    requires lo <= seed && WalkUnstake(l, vote, lo, seed) == Ok(w)
    requires VisitUnstake(w, At(l, AccountId(vote, Unstake, seed)), seed) == Ok(w')
    ensures WalkUnstake(l, vote, lo, seed + 1) == Ok(w')
    ensures At(l, AccountId(vote, Unstake, seed)).Live? && (w'.begin == w.begin || (w.begin == seed && w'.begin == seed + 1))
  {
  }

  lemma {:induction false} UnstakeVisitFails(l: Ledger, vote: Pubkey, lo: nat, seed: nat, hi: nat, w: UnstakeWalk, e: Error)
    requires lo <= seed < hi && WalkUnstake(l, vote, lo, seed) == Ok(w)
    requires VisitUnstake(w, At(l, AccountId(vote, Unstake, seed)), seed) == Err(e)
    ensures WalkUnstake(l, vote, lo, hi) == Err(e)
    decreases hi - seed
  {
    if seed < hi - 1 {
      UnstakeVisitFails(l, vote, lo, seed, hi - 1, w, e);
    }
  }

  lemma {:induction false} UnstakeWalkBegin(l: Ledger, vote: Pubkey, lo: nat, hi: nat)
    requires lo <= hi && WalkUnstake(l, vote, lo, hi).Ok?
    ensures lo <= WalkUnstake(l, vote, lo, hi).value.begin <= hi
    decreases hi - lo
  {
    if lo < hi {
      UnstakeWalkBegin(l, vote, lo, hi - 1);
    }
  }

  /** Skimming one more stake account. */
  lemma SkimOneMore(l: Ledger, done: Ledger, vote: Pubkey, lo: nat, seed: nat, none: SeedRange, skimmed: StakeAccount)
    requires lo <= seed && Empty(none) && done == Collected(l, vote, SeedRange(lo, seed), none)
    requires At(l, AccountId(vote, Stake, seed)).Live? && skimmed == Skimmed(At(l, AccountId(vote, Stake, seed)))
    ensures done[AccountId(vote, Stake, seed) := skimmed] == Collected(l, vote, SeedRange(lo, seed + 1), none)
  {
  }

  /** Emptying one more unstake account. */
  lemma EmptyOneMore(l: Ledger, done: Ledger, vote: Pubkey, stake: SeedRange, lo: nat, seed: nat)
    requires lo <= seed && done == Collected(l, vote, stake, SeedRange(lo, seed))
    requires At(l, AccountId(vote, Unstake, seed)).Live?
    ensures done[AccountId(vote, Unstake, seed) := Closed] == Collected(l, vote, stake, SeedRange(lo, seed + 1))
  {
  }

  /** One more visit of each kind, and what was collected by it. */
  lemma StakeVisitCollects(l: Ledger, done: Ledger, done': Ledger, vote: Pubkey, lo: nat, seed: nat, none: SeedRange, w: StakeWalk, w': StakeWalk)
    requires lo <= seed && WalkStake(l, vote, lo, seed) == Ok(w)
    requires VisitStake(w, At(l, AccountId(vote, Stake, seed))) == Ok(w')
    requires Empty(none) && done == Collected(l, vote, SeedRange(lo, seed), none)
    requires done' == done[AccountId(vote, Stake, seed) := Skimmed(At(l, AccountId(vote, Stake, seed)))]
    ensures WalkStake(l, vote, lo, seed + 1) == Ok(w')
    ensures done' == Collected(l, vote, SeedRange(lo, seed + 1), none)
  {
    StakeVisited(l, vote, lo, seed, w, w');
    SkimOneMore(l, done, vote, lo, seed, none, Skimmed(At(l, AccountId(vote, Stake, seed))));
  }

  /** What a visit of the next stake account does to a walk in progress. */
  lemma StakeVisitContinues(l: Ledger, done: Ledger, done': Ledger, vote: Pubkey, seeds: SeedRange, seed: nat, none: SeedRange, w: StakeWalk, visit: Result<StakeWalk>)
    requires seeds.begin <= seed < seeds.end && WalkStake(l, vote, seeds.begin, seed) == Ok(w)
    requires Empty(none) && done == Collected(l, vote, SeedRange(seeds.begin, seed), none)
    requires visit == VisitStake(w, At(done, AccountId(vote, Stake, seed)))
    requires visit.Ok? ==> done' == done[AccountId(vote, Stake, seed) := Skimmed(At(done, AccountId(vote, Stake, seed)))]
    ensures visit.Err? ==> WalkStake(l, vote, seeds.begin, seeds.end) == visit
    ensures visit.Ok? ==> WalkStake(l, vote, seeds.begin, seed + 1) == visit
    ensures visit.Ok? ==> done' == Collected(l, vote, SeedRange(seeds.begin, seed + 1), none)
  {
    NotYetReached(l, vote, SeedRange(seeds.begin, seed), none, AccountId(vote, Stake, seed));
    if visit.Err? {
      StakeVisitFails(l, vote, seeds.begin, seed, seeds.end, w, visit.error);
    } else {
      StakeVisitCollects(l, done, done', vote, seeds.begin, seed, none, w, visit.value);
    }
  }

  lemma UnstakeVisitCollects(l: Ledger, done: Ledger, done': Ledger, vote: Pubkey, stake: SeedRange, lo: nat, seed: nat, w: UnstakeWalk, w': UnstakeWalk)
    requires lo <= w.begin <= seed && WalkUnstake(l, vote, lo, seed) == Ok(w)
    requires VisitUnstake(w, At(l, AccountId(vote, Unstake, seed)), seed) == Ok(w')
    requires done == Collected(l, vote, stake, SeedRange(lo, w.begin))
    requires done' == if w'.begin == w.begin then done else done[AccountId(vote, Unstake, seed) := Closed]
    ensures WalkUnstake(l, vote, lo, seed + 1) == Ok(w') && w.begin <= w'.begin <= seed + 1
    ensures done' == Collected(l, vote, stake, SeedRange(lo, w'.begin))
  {
    UnstakeVisited(l, vote, lo, seed, w, w');
    if w'.begin != w.begin {
      EmptyOneMore(l, done, vote, stake, lo, seed);
    }
  }

  lemma UnstakeVisitContinues(l: Ledger, done: Ledger, done': Ledger, vote: Pubkey, stake: SeedRange, seeds: SeedRange, seed: nat, w: UnstakeWalk, visit: Result<UnstakeWalk>)
    requires seeds.begin <= w.begin <= seed < seeds.end && WalkUnstake(l, vote, seeds.begin, seed) == Ok(w)
    requires done == Collected(l, vote, stake, SeedRange(seeds.begin, w.begin))
    requires visit == VisitUnstake(w, At(done, AccountId(vote, Unstake, seed)), seed)
    requires visit.Ok? ==> done' == if visit.value.begin == w.begin then done else done[AccountId(vote, Unstake, seed) := Closed]
    ensures visit.Err? ==> WalkUnstake(l, vote, seeds.begin, seeds.end) == visit
    ensures visit.Ok? ==> WalkUnstake(l, vote, seeds.begin, seed + 1) == visit && w.begin <= visit.value.begin <= seed + 1
    ensures visit.Ok? ==> done' == Collected(l, vote, stake, SeedRange(seeds.begin, visit.value.begin))
  {
    NotYetReached(l, vote, stake, SeedRange(seeds.begin, w.begin), AccountId(vote, Unstake, seed));
    if visit.Err? {
      UnstakeVisitFails(l, vote, seeds.begin, seed, seeds.end, w, visit.error);
    } else {
      UnstakeVisitCollects(l, done, done', vote, stake, seeds.begin, seed, w, visit.value);
    }
  }

  /** Accounts that the walk has not reached are as before. */
  lemma NotYetReached(l: Ledger, vote: Pubkey, stake: SeedRange, unstake: SeedRange, id: AccountId)
    requires !(id.kind == Stake && stake.Contains(id.seed)) && !(id.kind == Unstake && unstake.Contains(id.seed))
    ensures At(Collected(l, vote, stake, unstake), id) == At(l, id)
  {
  }

  lemma NothingCollected(l: Ledger, vote: Pubkey, stake: SeedRange, none: SeedRange)
    requires Empty(stake) && Empty(none)
    ensures Collected(l, vote, stake, none) == l
  {
  }

  predicate Empty(seeds: SeedRange) {
    seeds.end <= seeds.begin
  }

  // ---------------------------------------------------------------- the processor

  class Solido {
    // The chain.
    var epoch: nat
    var reserve: nat
    var supply: nat
    var accounts: Ledger
    // What the program stores.
    var rate: ExchangeRate
    var distribution: RewardDistribution
    var metrics: Metrics
    var validators: seq<Validator>
    var maxValidators: nat
    // History.
    ghost var gifts: Gifts

    ghost function Current(): State
      reads this
    {
      State(epoch, reserve, supply, accounts, rate, distribution, metrics, validators, maxValidators, gifts)
    }

    /** The outcome and the new state are those of a transition. */
    ghost predicate Computes(r: Result<()>, expected: Result<State>)
      reads this
    {
      match expected
      case Ok(s) => r.Ok? && Current() == s
      case Err(e) => r == Err(e)
    }

    // ---------------------------------------------------------------- set-up

    constructor (s: State)
      ensures Current() == s
    {
      epoch, reserve, supply, accounts := s.epoch, s.reserve, s.supply, s.accounts;
      rate, distribution, metrics, validators := s.rate, s.distribution, s.metrics, s.validators;
      maxValidators := s.maxValidators;
      gifts := s.gifts;
    }

    static method ProcessInitialize(setup: Setup) returns (r: Result<Solido>)
      ensures match Initialize(setup)
        case Ok(s) => r.Ok? && fresh(r.value) && r.value.Current() == s
        case Err(e) => r == Err(e)
    {
      if setup.reserve < RESERVE_RENT {
        return Err(AccountNotRentExempt);
      }
      if setup.mintSupply != 0 {
        return Err(InvalidMint);
      }
      if setup.maxCommission > 100 {
        return Err(ValidationCommissionOutOfBounds);
      }
      var gifts := Gifts(setup.reserve - RESERVE_RENT, 0, setup.prefunded);
      var solido := new Solido(State(setup.epoch, setup.reserve, 0, Prefunded(setup.prefunded), ExchangeRate(0, 0, 0),
                                     setup.distribution, NEW_METRICS, [], setup.maxValidators, gifts));
      r := Ok(solido);
    }

    // ---------------------------------------------------------------- deposits

    method ObserveDeposit(amount: nat) returns (r: Result<()>)
      modifies `metrics
      ensures match Observed(old(metrics.deposits), amount)
        case Ok(h) => r.Ok? && metrics == old(metrics).(deposits := h)
        case Err(e) => r == Err(e)
    {
      var counts := metrics.deposits.counts;
      for i := 0 to 12
        invariant forall k :: 0 <= k < i ==>
          counts[k] == old(metrics.deposits.counts)[k] + if amount <= BUCKET_UPPER_BOUNDS[k] then 1 else 0
        invariant forall k :: i <= k < 12 ==> counts[k] == old(metrics.deposits.counts)[k]
      {
        if amount <= BUCKET_UPPER_BOUNDS[i] {
          counts := counts[i := counts[i] + 1];
        }
      }
      assert counts == Bucketed(old(metrics.deposits.counts), amount);
      metrics := metrics.(deposits := metrics.deposits.(counts := counts));
      var total :- Add(metrics.deposits.total, amount);
      metrics := metrics.(deposits := metrics.deposits.(total := total));
      r := Ok(());
    }

    method ProcessDeposit(amount: nat) returns (r: Result<()>)
      modifies this
      ensures Computes(r, Deposit(old(Current()), amount))
    {
      if amount == 0 {
        return Err(InvalidArgument);
      }
      reserve := reserve + amount;
      var minted :- ExchangeSol(rate, amount);
      supply :- Mint(supply, minted);
      r := ObserveDeposit(amount);
    }

    method ProcessStakeDeposit(amount: nat, index: nat, vote: Pubkey, approach: Approach) returns (r: Result<()>)
      modifies this
      ensures Computes(r, StakeDeposit(old(Current()), amount, index, vote, approach))
    {
      var _ :- CheckCanStake(reserve, amount);
      var minimum :- MinimumActive(validators);
      var v :- GetAt(validators, index, vote);
      if !v.IsActive() {
        return Err(StakeToInactiveValidator);
      }
      if v.effectiveStakeBalance > minimum {
        return Err(ValidatorWithLessStakeExists);
      }
      var end := v.stakeSeeds.end;
      var id := AccountId(vote, if approach.Append? then Stake else Temporary(epoch), end);
      var target := At(accounts, id);
      if !target.IsFree() {
        return Err(WrongStakeState);
      }
      // Fund the new account from the reserve, even if it holds lamports already.
      reserve := reserve - amount;
      var funded := target.Lamports() + amount;
      // Track the stake.
      var stake :- Add(v.stakeAccountsBalance, amount);
      var tracked :- v.Track(stake, v.unstakeAccountsBalance);
      validators := validators[index := tracked];
      match approach {
        case Append(credits) =>
          accounts := accounts[id := Delegated(funded, Delegation(epoch, credits))];
          validators := validators[index := tracked.(stakeSeeds := SeedRange(v.stakeSeeds.begin, end + 1))];
          r := Ok(());
        case Merge(balance) =>
          r := MergeIntoNewest(id, v.stakeSeeds, funded, balance);
      }
    }

    /** Merges the lamports of a temporary account into the newest stake account. */
    method MergeIntoNewest(id: AccountId, seeds: SeedRange, funded: nat, balance: StakeBalance) returns (r: Result<()>)
      modifies `accounts
      ensures var into := AccountId(id.vote, Stake, if seeds.begin < seeds.end then seeds.end - 1 else 0);
        if seeds.end <= seeds.begin then r == Err(InvalidStakeAccount)
        else match Absorb(At(old(accounts), into), Undelegated(funded), balance)
          case Ok(merged) => r.Ok? && accounts == old(accounts)[id := Closed][into := merged]
          case Err(e) => r == Err(e)
    {
      if seeds.end <= seeds.begin {
        return Err(InvalidStakeAccount);
      }
      var into := AccountId(id.vote, Stake, seeds.end - 1);
      var merged :- Absorb(At(accounts, into), Undelegated(funded), balance);
      accounts := accounts[id := Closed];
      accounts := accounts[into := merged];
      r := Ok(());
    }

    // ---------------------------------------------------------------- unstaking and merging

    method ProcessUnstake(amount: nat, index: nat, vote: Pubkey, remainder: StakeBalance, balance: StakeBalance) returns (r: Result<()>)
      modifies this
      ensures Computes(r, Unstaking(old(Current()), amount, index, vote, remainder, balance))
    {
      var v :- GetAt(validators, index, vote);
      if v.stakeSeeds.begin == v.stakeSeeds.end {
        return Err(InvalidStakeAccount);
      }
      if v.unstakeSeeds.end >= v.unstakeSeeds.begin + MAXIMUM_UNSTAKE_ACCOUNTS {
        return Err(MaxUnstakeAccountsReached);
      }
      var from := AccountId(vote, Stake, v.stakeSeeds.begin);
      var to := AccountId(vote, Unstake, v.unstakeSeeds.end);
      var source := At(accounts, from);
      // Split the stake and deactivate what was split off.
      var left :- SplitOff(source, amount, remainder);
      var split :- SplitInto(source, At(accounts, to), amount, balance);
      accounts := accounts[from := left];
      accounts := accounts[to := split];
      if v.IsActive() {
        if left.Lamports() < MINIMUM_STAKE_ACCOUNT_BALANCE {
          return Err(InvalidAmount);
        }
      } else {
        if amount != source.Lamports() {
          return Err(InvalidAmount);
        }
        v := v.(stakeSeeds := SeedRange(v.stakeSeeds.begin + 1, v.stakeSeeds.end));
      }
      var unstake :- Add(v.unstakeAccountsBalance, amount);
      v :- v.Track(v.stakeAccountsBalance, unstake);
      validators := validators[index := v.(unstakeSeeds := SeedRange(v.unstakeSeeds.begin, v.unstakeSeeds.end + 1))];
      r := Ok(());
    }

    method ProcessMergeStake(index: nat, vote: Pubkey, balance: StakeBalance) returns (r: Result<()>)
      modifies this
      ensures Computes(r, MergeStake(old(Current()), index, vote, balance))
    {
      var v :- GetAt(validators, index, vote);
      var fromSeed, toSeed := v.stakeSeeds.begin, v.stakeSeeds.begin + 1;
      if toSeed >= v.stakeSeeds.end {
        return Err(InvalidStakeAccount);
      }
      validators := validators[index := v.(stakeSeeds := SeedRange(fromSeed + 1, v.stakeSeeds.end))];
      var from, to := AccountId(vote, Stake, fromSeed), AccountId(vote, Stake, toSeed);
      var source := At(accounts, from);
      var merged :- Absorb(At(accounts, to), source, balance);
      accounts := accounts[from := Closed];
      accounts := accounts[to := merged];
      r := Ok(());
    }

    // ---------------------------------------------------------------- updating balances

    /** Withdraws what is not at stake from one stake account, except its rent. */
    method VisitStakeAccount(w: StakeWalk, id: AccountId) returns (r: Result<StakeWalk>)
      modifies `accounts, `reserve
      ensures r == VisitStake(w, At(old(accounts), id))
      ensures r.Ok? ==> accounts == old(accounts)[id := Skimmed(At(old(accounts), id))]
      ensures r.Ok? ==> reserve == old(reserve) + (r.value.excess - w.excess)
    {
      var account := At(accounts, id);
      if !account.Live? {
        return Err(InvalidStakeAccount);
      }
      var amount :- Excess(account.balance);
      accounts := accounts[id := account.(balance := account.balance.(inactive := account.balance.inactive - amount))];
      reserve := reserve + amount;
      var excess :- Add(w.excess, amount);
      var observed :- Add(w.observed, account.Lamports());
      r := Ok(StakeWalk(observed, excess));
    }

    /** Empties one unstake account if it is fully inactive and the oldest. */
    method VisitUnstakeAccount(w: UnstakeWalk, id: AccountId) returns (r: Result<UnstakeWalk>)
      modifies `accounts, `reserve
      ensures r == VisitUnstake(w, At(old(accounts), id), id.seed)
      ensures r.Ok? ==> accounts == if r.value.begin == w.begin then old(accounts) else old(accounts)[id := Closed]
      ensures r.Ok? ==> reserve == old(reserve) + (r.value.removed - w.removed)
    {
      var account := At(accounts, id);
      if !account.Live? {
        return Err(InvalidStakeAccount);
      }
      var begin, removed := w.begin, w.removed;
      if begin == id.seed && account.FullyInactive() {
        accounts := accounts[id := Closed];
        reserve := reserve + account.balance.inactive;
        begin := begin + 1;
        removed :- Add(removed, account.balance.inactive);
      }
      var observed :- Add(w.observed, account.Lamports());
      r := Ok(UnstakeWalk(observed, removed, begin));
    }

    /** Visits the stake accounts one by one. */
    method CollectStake(vote: Pubkey, seeds: SeedRange, ghost none: SeedRange) returns (r: Result<StakeWalk>)
      requires Empty(none)
      modifies `accounts, `reserve
      ensures r == WalkStake(old(accounts), vote, seeds.begin, seeds.end)
      ensures r.Ok? ==> reserve == old(reserve) + r.value.excess
      ensures r.Ok? ==> accounts == Collected(old(accounts), vote, seeds, none)
    {
      ghost var before := accounts;
      var w := StakeWalk(0, 0);
      var seed := seeds.begin;
      NothingCollected(accounts, vote, SeedRange(seed, seed), none);
      if Empty(seeds) {
        NothingCollected(accounts, vote, seeds, none);
      }
      while seed < seeds.end
        invariant seeds.begin <= seed && (seed <= seeds.end || seed == seeds.begin)
        invariant WalkStake(before, vote, seeds.begin, seed) == Ok(w)
        invariant reserve == old(reserve) + w.excess
        invariant accounts == Collected(before, vote, SeedRange(seeds.begin, seed), none)
      {
        ghost var done := accounts;
        var visit := VisitStakeAccount(w, AccountId(vote, Stake, seed));
        StakeVisitContinues(before, done, accounts, vote, seeds, seed, none, w, visit);
        if visit.Err? {
          return visit;
        }
        w, seed := visit.value, seed + 1;
      }
      r := Ok(w);
    }

    /** Visits the unstake accounts one by one; only accounts at the beginning
        of the range are emptied, so that no holes remain. */
    method CollectUnstake(vote: Pubkey, seeds: SeedRange, ghost before: Ledger, ghost stake: SeedRange) returns (r: Result<UnstakeWalk>)
      requires accounts == Collected(before, vote, stake, SeedRange(seeds.begin, seeds.begin))
      modifies `accounts, `reserve
      ensures r == WalkUnstake(before, vote, seeds.begin, seeds.end)
      ensures r.Ok? ==> reserve == old(reserve) + r.value.removed
      ensures r.Ok? ==> accounts == Collected(before, vote, stake, SeedRange(seeds.begin, r.value.begin))
    {
      var w := UnstakeWalk(0, 0, seeds.begin);
      var seed := seeds.begin;
      while seed < seeds.end
        invariant seeds.begin <= w.begin <= seed && (seed <= seeds.end || seed == seeds.begin)
        invariant WalkUnstake(before, vote, seeds.begin, seed) == Ok(w)
        invariant reserve == old(reserve) + w.removed
        invariant accounts == Collected(before, vote, stake, SeedRange(seeds.begin, w.begin))
      {
        ghost var done := accounts;
        var visit := VisitUnstakeAccount(w, AccountId(vote, Unstake, seed));
        UnstakeVisitContinues(before, done, accounts, vote, stake, seeds, seed, w, visit);
        if visit.Err? {
          return visit;
        }
        w, seed := visit.value, seed + 1;
      }
      r := Ok(w);
    }

    method ObserveFees(p: Payment) returns (r: Result<()>)
      modifies `metrics
      ensures match FeesObserved(old(metrics), p)
        case Ok(m) => r.Ok? && metrics == m
        case Err(e) => r == Err(e)
    {
      var treasurySol :- Add(metrics.feeTreasurySol, p.fees.treasury);
      metrics := metrics.(feeTreasurySol := treasurySol);
      var treasurySt :- Add(metrics.feeTreasuryStSol, p.treasury);
      metrics := metrics.(feeTreasuryStSol := treasurySt);
      var developerSol :- Add(metrics.feeDeveloperSol, p.fees.developer);
      metrics := metrics.(feeDeveloperSol := developerSol);
      var developerSt :- Add(metrics.feeDeveloperStSol, p.developer);
      metrics := metrics.(feeDeveloperStSol := developerSt);
      var appreciation :- Add(metrics.appreciationSol, p.fees.appreciation);
      metrics := metrics.(appreciationSol := appreciation);
      r := Ok(());
    }

    method ProcessFees(rewards: nat) returns (r: Result<()>)
      modifies `supply, `metrics
      ensures Computes(r, DistributeFees(old(Current()), rewards))
    {
      if rewards == 0 {
        return Ok(());
      }
      if rate.computedInEpoch < epoch {
        return Err(ExchangeRateNotUpdatedInThisEpoch);
      }
      var fees :- SplitReward(distribution, rewards);
      var treasury :- ExchangeSol(rate, fees.treasury);
      var developer :- ExchangeSol(rate, fees.developer);
      supply :- Mint(supply, treasury);
      supply :- Mint(supply, developer);
      r := ObserveFees(Payment(fees, treasury, developer));
    }

    /** Observes all accounts of a validator, withdraws from them, and works out
        the rewards and the new tracked balances. */
    method ObserveAccounts(v: Validator) returns (r: Result<Findings>)
      modifies `accounts, `reserve
      ensures r == Examine(old(accounts), v)
      ensures r.Ok? ==> reserve == old(reserve) + r.value.stake.excess + r.value.unstake.removed
      ensures r.Ok? ==> accounts == Collected(old(accounts), v.voteAccount, v.stakeSeeds,
                                              SeedRange(v.unstakeSeeds.begin, r.value.unstake.begin))
    {
      var stake :- CollectStake(v.voteAccount, v.stakeSeeds, SeedRange(v.unstakeSeeds.begin, v.unstakeSeeds.begin));
      if stake.observed < v.effectiveStakeBalance {
        return Err(ValidatorBalanceDecreased);
      }
      var unstake :- CollectUnstake(v.voteAccount, v.unstakeSeeds, old(accounts), v.stakeSeeds);
      if unstake.observed < v.unstakeAccountsBalance {
        return Err(ValidatorBalanceDecreased);
      }
      var total :- Add(stake.observed, unstake.observed);
      if total < v.stakeAccountsBalance {
        return Err(Panicked(TrackedExceedsObserved));
      }
      var newUnstake: nat := unstake.observed - unstake.removed;
      var newStake: nat := stake.observed - stake.excess + newUnstake;
      if newStake > MAX_U64 {
        return Err(Panicked(BalanceOverflow));
      }
      var after := v.Track(newStake, newUnstake).Extract().(unstakeSeeds := SeedRange(unstake.begin, v.unstakeSeeds.end));
      r := Ok(Findings(stake, unstake, total - v.stakeAccountsBalance, after));
    }

    method ProcessUpdateStakeAccountBalance(index: nat, vote: Pubkey) returns (r: Result<()>)
      modifies this
      ensures Computes(r, UpdateStakeAccountBalance(old(Current()), index, vote))
    {
      var v :- GetAt(validators, index, vote);
      var f :- ObserveAccounts(v);
      validators := validators[index := f.after];
      assert Current() == AfterCollecting(old(Current()), index, f);
      r := ProcessFees(f.rewards);
    }

    /** The total of all validators, as an iterator's sum. */
    method SumBalances() returns (r: Result<nat>)
      ensures r == CheckedSumStake(validators)
    {
      var sum := 0;
      for i := 0 to |validators|
        invariant CheckedSumStake(validators[..i]) == Ok(sum)
      {
        assert validators[..i + 1][..i] == validators[..i];
        if sum + validators[i].stakeAccountsBalance > MAX_U64 {
          SumStopsEarly(validators, i + 1);
        }
        sum :- Add(sum, validators[i].stakeAccountsBalance);
      }
      assert validators[..|validators|] == validators;
      r := Ok(sum);
    }

    method ProcessUpdateExchangeRate() returns (r: Result<()>)
      modifies this
      ensures Computes(r, UpdateExchangeRate(old(Current())))
    {
      if rate.computedInEpoch >= epoch {
        return Err(ExchangeRateAlreadyUpToDate);
      }
      rate := rate.(computedInEpoch := epoch);
      var available :- ReserveAvailable(reserve);
      var staked :- SumBalances();
      var solBalance :- Add(staked, available);
      rate := rate.(solBalance := solBalance);
      rate := rate.(stSolSupply := supply);
      r := Ok(());
    }

    // ---------------------------------------------------------------- withdrawing

    method ProcessWithdraw(amount: nat, index: nat, vote: Pubkey, payout: Payout) returns (r: Result<()>)
      modifies this
      ensures Computes(r, Withdraw(old(Current()), amount, index, vote, payout))
    {
      if rate.computedInEpoch < epoch {
        return Err(ExchangeRateNotUpdatedInThisEpoch);
      }
      var maximum :- MaximumEffective(validators);
      var v :- GetAt(validators, index, vote);
      if v.effectiveStakeBalance == 0 {
        return Err(ValidatorHasNoStake);
      }
      if v.effectiveStakeBalance < maximum {
        return Err(ValidatorWithMoreStakeExists);
      }
      var from := AccountId(vote, Stake, v.stakeSeeds.begin);
      var sol :- ExchangeStSol(rate, amount);
      var source := At(accounts, from);
      var _ :- CheckWithdrawAmount(source.Lamports(), sol);
      var stake :- Sub(v.stakeAccountsBalance, sol);
      v :- v.Track(stake, v.unstakeAccountsBalance);
      validators := validators[index := v];
      supply :- Burn(supply, amount);
      metrics :- WithdrawalObserved(metrics, amount, sol);
      var left :- SplitOff(source, sol, payout.remainder);
      :- Need(CanReceive(payout.destination, sol), RuntimeRejected);
      accounts := accounts[from := left];
      r := Ok(());
    }

    // ---------------------------------------------------------------- management

    method ProcessAddValidator(vote: Pubkey) returns (r: Result<()>)
      modifies this
      ensures Computes(r, AddValidator(old(Current()), vote))
    {
      if |validators| == maxValidators {
        return Err(MaximumNumberOfAccountsExceeded);
      }
      for i := 0 to |validators|
        invariant forall k :: 0 <= k < i ==> validators[k].voteAccount != vote
      {
        if validators[i].voteAccount == vote {
          return Err(DuplicatedEntry);
        }
      }
      validators := validators + [NewValidator(vote)];
      r := Ok(());
    }

    /** Removes the entry first and checks afterwards: after a failed check the
        entry is gone until the transaction is rolled back. */
    method ProcessRemoveValidator(index: nat, vote: Pubkey) returns (r: Result<()>)
      modifies this
      ensures Computes(r, RemoveValidator(old(Current()), index, vote))
    {
      var removed :- GetAt(validators, index, vote);
      validators := SwapRemove(validators, index);
      :- removed.CheckCanBeRemoved();
      r := Ok(());
    }

    method ProcessChangeStatus(index: nat, vote: Pubkey, change: StatusChange) returns (r: Result<()>)
      modifies this
      ensures Computes(r, ChangeStatus(old(Current()), index, vote, change))
    {
      var v :- GetAt(validators, index, vote);
      validators := validators[index := v.(status := change.Apply(v.status))];
      r := Ok(());
    }

    // ---------------------------------------------------------------- transactions

    /** Runs the method of an instruction. */
    method Process(step: Step) returns (r: Result<()>)
      requires !Outside(step)
      modifies this
      ensures Computes(r, Apply(old(Current()), step))
    {
      match step
      case DepositStep(amount) => r := ProcessDeposit(amount);
      case StakeDepositStep(amount, index, vote, approach) => r := ProcessStakeDeposit(amount, index, vote, approach);
      case UnstakeStep(amount, index, vote, remainder, balance) => r := ProcessUnstake(amount, index, vote, remainder, balance);
      case MergeStakeStep(index, vote, balance) => r := ProcessMergeStake(index, vote, balance);
      case UpdateBalanceStep(index, vote) => r := ProcessUpdateStakeAccountBalance(index, vote);
      case UpdateRateStep => r := ProcessUpdateExchangeRate();
      case WithdrawStep(amount, index, vote, payout) => r := ProcessWithdraw(amount, index, vote, payout);
      case AddValidatorStep(vote) => r := ProcessAddValidator(vote);
      case RemoveValidatorStep(index, vote) => r := ProcessRemoveValidator(index, vote);
      case ChangeStatusStep(index, vote, change) => r := ProcessChangeStatus(index, vote, change);
      case ChangeDistributionStep(d) =>
        distribution := d;
        r := Ok(());
    }

    // ---------------------------------------------------------------- outside events

    method PayReward(id: AccountId, amount: nat, credits: nat) returns (r: Result<()>)
      modifies `accounts
      ensures Computes(r, Reward(old(Current()), id, amount, credits))
    {
      var a := At(accounts, id);
      if !a.Live? {
        return Err(RuntimeRejected);
      }
      accounts := accounts[id := Rewarded(a, amount, credits)];
      r := Ok(());
    }

    method TakeAddressOver(id: AccountId, amount: nat) returns (r: Result<()>)
      modifies `accounts, `gifts
      ensures Computes(r, TakeOver(old(Current()), id, amount))
    {
      if !At(accounts, id).Closed? || amount < STAKE_RENT {
        return Err(RuntimeRejected);
      }
      accounts := accounts[id := Taken(amount)];
      gifts := gifts.(accounts := gifts.accounts[id := gifts.To(id) + amount]);
      r := Ok(());
    }

    method PassEpoch(balances: map<AccountId, StakeBalance>)
      modifies `epoch, `accounts
      ensures Current() == old(Current()).(epoch := old(epoch) + 1, accounts := Redivided(old(accounts), balances))
    {
      epoch := epoch + 1;
      accounts := Redivided(accounts, balances);
    }

    method ReceiveAt(id: AccountId, amount: nat)
      modifies `accounts, `gifts
      ensures Current() == DonateToAccount(old(Current()), id, amount)
    {
      accounts := accounts[id := Donated(At(accounts, id), amount)];
      gifts := gifts.(accounts := gifts.accounts[id := gifts.To(id) + amount]);
    }

    /** What happens on the chain without the program. */
    method Happen(step: Step) returns (r: Result<()>)
      requires Outside(step)
      modifies this
      ensures Computes(r, Apply(old(Current()), step))
    {
      r := Ok(());
      match step {
        case EpochStep(balances) =>
          PassEpoch(balances);
        case RewardStep(id, amount, credits) =>
          r := PayReward(id, amount, credits);
        case DonateToReserveStep(amount) =>
          reserve := reserve + amount;
          gifts := gifts.(reserve := gifts.reserve + amount);
        case DonateToAccountStep(id, amount) =>
          ReceiveAt(id, amount);
        case TakeOverStep(id, amount) =>
          r := TakeAddressOver(id, amount);
        case BurnStep(amount) =>
          supply :- Burn(supply, amount);
      }
    }

    /** A transaction with one instruction: when it fails, nothing remains of
        what it did. */
    method Execute(step: Step) returns (r: Result<()>)
      requires !Outside(step)
      modifies this
      ensures Current() == Next(old(Current()), step)
      ensures r.Ok? <==> Apply(old(Current()), step).Ok?
    {
      var epoch', reserve', supply', accounts' := epoch, reserve, supply, accounts;
      var rate', distribution', metrics', validators' := rate, distribution, metrics, validators;
      var maxValidators' := maxValidators;
      ghost var gifts' := gifts;
      r := Process(step);
      if r.Err? {
        epoch, reserve, supply, accounts := epoch', reserve', supply', accounts';
        rate, distribution, metrics, validators := rate', distribution', metrics', validators';
        maxValidators := maxValidators';
        gifts := gifts';
      }
    }
  }

  lemma {:induction false} SumStopsEarly(vs: seq<Validator>, i: nat)
    requires i <= |vs| && CheckedSumStake(vs[..i]).Err?
    ensures CheckedSumStake(vs) == CheckedSumStake(vs[..i])
    decreases |vs|
  {
    if i < |vs| {
      var front := vs[..|vs| - 1];
      assert front[..i] == vs[..i];
      SumStopsEarly(front, i);
    } else {
      assert vs[..i] == vs;
    }
  }
}
