/** The instructions of the pool as functions from one state to the next, and
    the runtime calls they make (program/src/processor.rs,
    program/src/process_management.rs, program/src/logic.rs). How the runtime
    divides a stake account's lamports over the four stake states is up to the
    runtime; instructions take that division as an argument, and any division
    with the right total is possible. */
module Instructions {
  import opened Bytes
  import opened Results
  import opened Token
  import opened State

  // ---------------------------------------------------------------- runtime

  /** A live stake account with the given lamports, and more than its rent. */
  function Reshape(lamports: nat, balance: StakeBalance, delegation: Delegation): (r: Result<StakeAccount>)
    ensures r.Ok? ==> r.value.Live? && r.value.Lamports() == lamports
  {
    if balance.Total() == lamports && STAKE_RENT < lamports
    then Ok(Live(balance, delegation)) else Err(RuntimeRejected)
  }

  /** What remains of a live account after `amount` lamports were split off. */
  function SplitOff(source: StakeAccount, amount: nat, remainder: StakeBalance): (r: Result<StakeAccount>)
    ensures r.Ok? ==> source.Live? && amount <= source.Lamports() && r.value.Lamports() == source.Lamports() - amount
    ensures r.Ok? ==> (r.value.Live? <==> amount < source.Lamports())
  {
    if !source.Live? || source.Lamports() < amount then Err(RuntimeRejected)
    else if amount == source.Lamports() then Ok(Closed) else Reshape(source.Lamports() - amount, remainder, source.delegation)
  }

  /** Something can be split off to this address: it is free, and ends up with at
      least one lamport more than the rent. */
  predicate CanReceive(destination: StakeAccount, amount: nat) {
    destination.IsFree() && 0 < amount && STAKE_RENT < destination.Lamports() + amount
  }

  /** The account at a free address after receiving split-off lamports. */
  function SplitInto(source: StakeAccount, destination: StakeAccount, amount: nat, balance: StakeBalance): (r: Result<StakeAccount>)
    ensures r.Ok? ==> CanReceive(destination, amount) && r.value.Live? && r.value.Lamports() == destination.Lamports() + amount
  {
    if !CanReceive(destination, amount) || !source.Live? then Err(RuntimeRejected)
    else Reshape(destination.Lamports() + amount, balance, source.delegation)
  }

  /** The live account that absorbs another one. It keeps its delegation, unless it
      has none in effect and gets that of activating stake. */
  function Absorb(into: StakeAccount, from: StakeAccount, balance: StakeBalance): (r: Result<StakeAccount>)
    ensures r.Ok? ==> Mergeable(into, from) && r.value.Live? && r.value.Lamports() == into.Lamports() + from.Lamports()
  {
    if !Mergeable(into, from) || balance.Total() != into.Lamports() + from.Lamports() then Err(RuntimeRejected)
    else Ok(Live(balance, if into.IsInactive() && !from.IsInactive() then from.delegation else into.delegation))
  }

  /** A newly delegated stake account: its rent stays inactive. */
  function Delegated(lamports: nat, delegation: Delegation): (a: StakeAccount)
    requires STAKE_RENT <= lamports
    ensures a.Live? && a.Lamports() == lamports
  {
    Live(StakeBalance(STAKE_RENT, lamports - STAKE_RENT, 0, 0), delegation)
  }

  /** A stake account that was initialized but not delegated. */
  function Undelegated(lamports: nat): (a: StakeAccount)
    ensures a.Live? && a.Lamports() == lamports && a.IsInactive()
  {
    Live(StakeBalance(lamports, 0, 0, 0), Delegation(0, 0))
  }

  function Mint(supply: nat, amount: nat): Result<nat> {
    if supply + amount <= MAX_U64 then Ok(supply + amount) else Err(RuntimeRejected)
  }

  function Burn(supply: nat, amount: nat): Result<nat> {
    if amount <= supply then Ok(supply - amount) else Err(RuntimeRejected)
  }

  // ---------------------------------------------------------------- set-up

  function Prefunded(lamports: map<AccountId, nat>): Ledger {
    map id | id in lamports :: Unused(lamports[id])
  }

  /** What a pool is set up with, and what is on the chain then. */
  datatype Setup = Setup(
    epoch: nat,
    reserve: nat,
    mintSupply: nat,
    prefunded: map<AccountId, nat>,
    distribution: RewardDistribution,
    maxCommission: nat,
    maxValidators: nat)

  /** The pool after initialization. Lamports that were already sent to stake
      addresses, and to the reserve, count as gifts. */
  function Initialize(setup: Setup): Result<State> {
    if setup.reserve < RESERVE_RENT then Err(AccountNotRentExempt)
    else
      :- Need(setup.mintSupply == 0, InvalidMint);
      :- Need(setup.maxCommission <= 100, ValidationCommissionOutOfBounds);
      Ok(State(setup.epoch, setup.reserve, 0, Prefunded(setup.prefunded), ExchangeRate(0, 0, 0),
               setup.distribution, NEW_METRICS, [], setup.maxValidators,
               Gifts(setup.reserve - RESERVE_RENT, 0, setup.prefunded)))
  }

  // ---------------------------------------------------------------- deposits

  function Observed(h: Histogram, amount: nat): Result<Histogram> {
    var total :- Add(h.total, amount);
    Ok(Histogram(Bucketed(h.counts, amount), total))
  }

  function Deposit(s: State, amount: nat): Result<State> {
    if amount == 0 then Err(InvalidArgument)
    else
      var minted :- ExchangeSol(s.rate, amount);
      var supply :- Mint(s.supply, minted);
      var deposits :- Observed(s.metrics.deposits, amount);
      Ok(s.(reserve := s.reserve + amount, supply := supply, metrics := s.metrics.(deposits := deposits)))
  }

  /** Whether a stake deposit opens a new stake account, with the current credits
      of the vote account, or merges into the newest one, with the resulting
      division of its lamports. */
  datatype Approach = Append(credits: nat) | Merge(balance: StakeBalance)

  function CheckCanStake(reserve: nat, amount: nat): Result<nat> {
    if amount < MINIMUM_STAKE_ACCOUNT_BALANCE then Err(InvalidAmount)
    else
      var available :- ReserveAvailable(reserve);
      :- Need(amount <= available, AmountExceedsReserve);
      Ok(available)
  }

  function StakeDeposit(s: State, amount: nat, index: nat, vote: Pubkey, approach: Approach): Result<State> {
    var _ :- CheckCanStake(s.reserve, amount);
    var minimum :- MinimumActive(s.validators);
    var v :- GetAt(s.validators, index, vote);
    :- Need(v.IsActive(), StakeToInactiveValidator);
    :- Need(v.effectiveStakeBalance <= minimum, ValidatorWithLessStakeExists);
    var end := v.stakeSeeds.end;
    var kind := if approach.Append? then Stake else Temporary(s.epoch);
    var target := At(s.accounts, AccountId(vote, kind, end));
    :- Need(target.IsFree(), WrongStakeState);
    var funded := target.Lamports() + amount;
    var stake :- Add(v.stakeAccountsBalance, amount);
    var tracked :- v.Track(stake, v.unstakeAccountsBalance);
    match approach
    case Append(credits) =>
      var grown := tracked.(stakeSeeds := SeedRange(v.stakeSeeds.begin, end + 1));
      Ok(s.(reserve := s.reserve - amount,
            accounts := s.accounts[AccountId(vote, Stake, end) := Delegated(funded, Delegation(s.epoch, credits))],
            validators := s.validators[index := grown]))
    case Merge(balance) =>
      :- Need(v.stakeSeeds.begin < end, InvalidStakeAccount);
      var into := AccountId(vote, Stake, end - 1);
      var merged :- Absorb(At(s.accounts, into), Undelegated(funded), balance);
      Ok(s.(reserve := s.reserve - amount,
            accounts := s.accounts[AccountId(vote, kind, end) := Closed][into := merged],
            validators := s.validators[index := tracked]))
  }

  // ---------------------------------------------------------------- unstaking

  function Unstaking(s: State, amount: nat, index: nat, vote: Pubkey, remainder: StakeBalance, balance: StakeBalance): Result<State> {
    var v :- GetAt(s.validators, index, vote);
    :- Need(v.stakeSeeds.begin != v.stakeSeeds.end, InvalidStakeAccount);
    :- Need(v.unstakeSeeds.end < v.unstakeSeeds.begin + MAXIMUM_UNSTAKE_ACCOUNTS, MaxUnstakeAccountsReached);
    var from := AccountId(vote, Stake, v.stakeSeeds.begin);
    var to := AccountId(vote, Unstake, v.unstakeSeeds.end);
    var source := At(s.accounts, from);
    var left :- SplitOff(source, amount, remainder);
    var split :- SplitInto(source, At(s.accounts, to), amount, balance);
    :- Need(v.IsActive() ==> MINIMUM_STAKE_ACCOUNT_BALANCE <= left.Lamports(), InvalidAmount);
    :- Need(!v.IsActive() ==> amount == source.Lamports(), InvalidAmount);
    var unstake :- Add(v.unstakeAccountsBalance, amount);
    var tracked :- v.Track(v.stakeAccountsBalance, unstake);
    var moved := tracked.(
      stakeSeeds := SeedRange(v.stakeSeeds.begin + (if v.IsActive() then 0 else 1), v.stakeSeeds.end),
      unstakeSeeds := SeedRange(v.unstakeSeeds.begin, v.unstakeSeeds.end + 1));
    Ok(s.(accounts := s.accounts[from := left][to := split],
          validators := s.validators[index := moved]))
  }

  function MergeStake(s: State, index: nat, vote: Pubkey, balance: StakeBalance): Result<State> {
    var v :- GetAt(s.validators, index, vote);
    var begin := v.stakeSeeds.begin;
    :- Need(begin + 1 < v.stakeSeeds.end, InvalidStakeAccount);
    var from, to := AccountId(vote, Stake, begin), AccountId(vote, Stake, begin + 1);
    var source := At(s.accounts, from);
    var merged :- Absorb(At(s.accounts, to), source, balance);
    Ok(s.(accounts := s.accounts[from := Closed][to := merged],
          validators := s.validators[index := v.(stakeSeeds := SeedRange(begin + 1, v.stakeSeeds.end))]))
  }

  // ---------------------------------------------------------------- updating balances

  /** What a walk over the stake accounts finds, and what it takes out. */
  datatype StakeWalk = StakeWalk(observed: nat, excess: nat)

  /** Lamports above the rent that are not at stake. */
  function Excess(b: StakeBalance): Result<nat> {
    if STAKE_RENT <= b.inactive then Ok(b.inactive - STAKE_RENT) else Err(Panicked(LessThanRent))
  }

  function VisitStake(w: StakeWalk, a: StakeAccount): Result<StakeWalk> {
    if !a.Live? then Err(InvalidStakeAccount)
    else
      var amount :- Excess(a.balance);
      var excess :- Add(w.excess, amount);
      var observed :- Add(w.observed, a.Lamports());
      Ok(StakeWalk(observed, excess))
  }

  function WalkStake(l: Ledger, vote: Pubkey, lo: nat, hi: nat): (r: Result<StakeWalk>)
    ensures r.Ok? ==> r.value.excess <= r.value.observed == SumLamports(l, vote, Stake, lo, hi)
    decreases hi - lo
  {
    if hi <= lo then Ok(StakeWalk(0, 0))
    else
      var w :- WalkStake(l, vote, lo, hi - 1);
      VisitStake(w, At(l, AccountId(vote, Stake, hi - 1)))
  }

  /** What a walk over the unstake accounts finds, and the first seed that it
      leaves in place. */
  datatype UnstakeWalk = UnstakeWalk(observed: nat, removed: nat, begin: nat)

  function VisitUnstake(w: UnstakeWalk, a: StakeAccount, seed: nat): Result<UnstakeWalk> {
    if !a.Live? then Err(InvalidStakeAccount)
    else
      var emptied := w.begin == seed && a.FullyInactive();
      var removed :- if emptied then Add(w.removed, a.balance.inactive) else Ok(w.removed);
      var observed :- Add(w.observed, a.Lamports());
      Ok(UnstakeWalk(observed, removed, if emptied then seed + 1 else w.begin))
  }

  function WalkUnstake(l: Ledger, vote: Pubkey, lo: nat, hi: nat): (r: Result<UnstakeWalk>)
    ensures r.Ok? ==> r.value.removed <= r.value.observed == SumLamports(l, vote, Unstake, lo, hi)
    decreases hi - lo
  {
    if hi <= lo then Ok(UnstakeWalk(0, 0, lo))
    else
      var w :- WalkUnstake(l, vote, lo, hi - 1);
      VisitUnstake(w, At(l, AccountId(vote, Unstake, hi - 1)), hi - 1)
  }

  /** A stake account after its excess was withdrawn. */
  function Skimmed(a: StakeAccount): StakeAccount {
    if a.Live? && STAKE_RENT <= a.balance.inactive then a.(balance := a.balance.(inactive := STAKE_RENT)) else a
  }

  /** The ledger after withdrawing the excess of the stake accounts in one seed
      range, and everything from the unstake accounts in another. */
  function Collected(l: Ledger, vote: Pubkey, stake: SeedRange, unstake: SeedRange): Ledger {
    map id | id in l ::
      if id.vote == vote && id.kind == Stake && stake.Contains(id.seed) then Skimmed(l[id])
      else if id.vote == vote && id.kind == Unstake && unstake.Contains(id.seed) then Closed
      else l[id]
  }

  /** The fees on a reward, in SOL and converted to stSOL. */
  datatype Payment = Payment(fees: Fees, treasury: nat, developer: nat)

  function FeePayment(s: State, rewards: nat): Result<Payment> {
    if s.rate.computedInEpoch < s.epoch then Err(ExchangeRateNotUpdatedInThisEpoch)
    else
      var fees :- SplitReward(s.distribution, rewards);
      var treasury :- ExchangeSol(s.rate, fees.treasury);
      var developer :- ExchangeSol(s.rate, fees.developer);
      Ok(Payment(fees, treasury, developer))
  }

  function MintFees(supply: nat, p: Payment): Result<nat> {
    var afterTreasury :- Mint(supply, p.treasury);
    Mint(afterTreasury, p.developer)
  }

  function FeesObserved(m: Metrics, p: Payment): Result<Metrics> {
    var treasurySol :- Add(m.feeTreasurySol, p.fees.treasury);
    var treasurySt :- Add(m.feeTreasuryStSol, p.treasury);
    var developerSol :- Add(m.feeDeveloperSol, p.fees.developer);
    var developerSt :- Add(m.feeDeveloperStSol, p.developer);
    var appreciation :- Add(m.appreciationSol, p.fees.appreciation);
    Ok(m.(feeTreasurySol := treasurySol, feeTreasuryStSol := treasurySt,
          feeDeveloperSol := developerSol, feeDeveloperStSol := developerSt, appreciationSol := appreciation))
  }

  /** Mints the fees on observed rewards. */
  function DistributeFees(s: State, rewards: nat): Result<State> {
    if rewards == 0 then Ok(s)
    else
      var p :- FeePayment(s, rewards);
      var supply :- MintFees(s.supply, p);
      var metrics :- FeesObserved(s.metrics, p);
      Ok(s.(supply := supply, metrics := metrics))
  }

  /** The tracked balances, rewards and withdrawals that an update arrives at. */
  datatype Findings = Findings(stake: StakeWalk, unstake: UnstakeWalk, rewards: nat, after: Validator)

  function Examine(l: Ledger, v: Validator): Result<Findings> {
    var stake :- WalkStake(l, v.voteAccount, v.stakeSeeds.begin, v.stakeSeeds.end);
    :- Need(v.effectiveStakeBalance <= stake.observed, ValidatorBalanceDecreased);
    var unstake :- WalkUnstake(l, v.voteAccount, v.unstakeSeeds.begin, v.unstakeSeeds.end);
    :- Need(v.unstakeAccountsBalance <= unstake.observed, ValidatorBalanceDecreased);
    var total :- Add(stake.observed, unstake.observed);
    :- Need(v.stakeAccountsBalance <= total, Panicked(TrackedExceedsObserved));
    var newUnstake: nat := unstake.observed - unstake.removed;
    :- Need(stake.observed - stake.excess + newUnstake <= MAX_U64, Panicked(BalanceOverflow));
    var tracked :- v.Track(stake.observed - stake.excess + newUnstake, newUnstake);
    Ok(Findings(stake, unstake, total - v.stakeAccountsBalance,
                tracked.(unstakeSeeds := SeedRange(unstake.begin, v.unstakeSeeds.end))))
  }

  /** The state after withdrawing what an update finds, before fees. */
  function AfterCollecting(s: State, index: nat, f: Findings): State
    requires index < |s.validators|
  {
    var v := s.validators[index];
    s.(reserve := s.reserve + f.stake.excess + f.unstake.removed,
       accounts := Collected(s.accounts, v.voteAccount, v.stakeSeeds, SeedRange(v.unstakeSeeds.begin, f.unstake.begin)),
       validators := s.validators[index := f.after])
  }

  function UpdateStakeAccountBalance(s: State, index: nat, vote: Pubkey): Result<State> {
    var v :- GetAt(s.validators, index, vote);
    var f :- Examine(s.accounts, v);
    DistributeFees(AfterCollecting(s, index, f), f.rewards)
  }

  function UpdateExchangeRate(s: State): Result<State> {
    if s.epoch <= s.rate.computedInEpoch then Err(ExchangeRateAlreadyUpToDate)
    else
      var solBalance :- GetSolBalance(s);
      Ok(s.(rate := ExchangeRate(s.epoch, s.supply, solBalance)))
  }

  // ---------------------------------------------------------------- withdrawing

  /** At most a tenth of the stake account and a constant can leave at once, and
      the account must keep the minimum balance. */
  function WithdrawLimit(source: nat): Result<nat> {
    var tenth := Mul(source, Rational(1, 10));
    :- Need(tenth.Ok?, Panicked(LimitOverflow));
    Add(tenth.value, 10 * LAMPORTS_PER_SOL)
  }

  function CheckWithdrawAmount(source: nat, sol: nat): Result<nat> {
    var limit :- WithdrawLimit(source);
    :- Need(sol <= limit, InvalidAmount);
    var remaining :- Sub(source, sol);
    :- Need(MINIMUM_STAKE_ACCOUNT_BALANCE <= remaining || MINIMUM_STAKE_ACCOUNT_BALANCE <= source, Panicked(SourceBelowMinimum));
    :- Need(MINIMUM_STAKE_ACCOUNT_BALANCE <= remaining, InvalidAmount);
    Ok(remaining)
  }

  function WithdrawalObserved(m: Metrics, stSol: nat, sol: nat): Result<Metrics> {
    var totalStSol :- Add(m.withdrawnStSol, stSol);
    var totalSol :- Add(m.withdrawnSol, sol);
    Ok(m.(withdrawnStSol := totalStSol, withdrawnSol := totalSol, withdrawCount := m.withdrawCount + 1))
  }

  /** The division of the source of a withdrawal afterwards, and the user's account
      that gets what is split off. */
  datatype Payout = Payout(remainder: StakeBalance, destination: StakeAccount)

  function Withdraw(s: State, amount: nat, index: nat, vote: Pubkey, payout: Payout): Result<State> {
    if s.rate.computedInEpoch < s.epoch then Err(ExchangeRateNotUpdatedInThisEpoch)
    else
      var maximum :- MaximumEffective(s.validators);
      var v :- GetAt(s.validators, index, vote);
      :- Need(v.effectiveStakeBalance != 0, ValidatorHasNoStake);
      :- Need(maximum <= v.effectiveStakeBalance, ValidatorWithMoreStakeExists);
      var sol :- ExchangeStSol(s.rate, amount);
      var from := AccountId(vote, Stake, v.stakeSeeds.begin);
      var source := At(s.accounts, from);
      var _ :- CheckWithdrawAmount(source.Lamports(), sol);
      var stake :- Sub(v.stakeAccountsBalance, sol);
      var tracked :- v.Track(stake, v.unstakeAccountsBalance);
      var supply :- Burn(s.supply, amount);
      var metrics :- WithdrawalObserved(s.metrics, amount, sol);
      var left :- SplitOff(source, sol, payout.remainder);
      :- Need(CanReceive(payout.destination, sol), RuntimeRejected);
      Ok(s.(supply := supply, metrics := metrics,
            accounts := s.accounts[from := left],
            validators := s.validators[index := tracked]))
  }

  // ---------------------------------------------------------------- management

  function AddValidator(s: State, vote: Pubkey): Result<State> {
    if |s.validators| == s.maxValidators then Err(MaximumNumberOfAccountsExceeded)
    else
      :- Need(!HasKey(s.validators, vote), DuplicatedEntry);
      Ok(s.(validators := s.validators + [NewValidator(vote)]))
  }

  function RemoveValidator(s: State, index: nat, vote: Pubkey): Result<State> {
    var removed :- GetAt(s.validators, index, vote);
    :- removed.CheckCanBeRemoved();
    Ok(s.(validators := SwapRemove(s.validators, index)))
  }

  /** Deactivation, reactivation and enqueueing for removal. */
  datatype StatusChange = Deactivate | Activate | EnqueueForRemoval {
    function Apply(status: Status): Status {
      match this
      case Deactivate => if status.AcceptingStakes? then StakesSuspended else status
      case Activate => if status.StakesSuspended? then AcceptingStakes else status
      case EnqueueForRemoval => PendingRemoval
    }
  }

  function ChangeStatus(s: State, index: nat, vote: Pubkey, change: StatusChange): Result<State> {
    var v :- GetAt(s.validators, index, vote);
    Ok(s.(validators := s.validators[index := v.(status := change.Apply(v.status))]))
  }

  // ---------------------------------------------------------------- outside events

  /** A new epoch divides the lamports of every live account anew. */
  function Redivided(l: Ledger, balances: map<AccountId, StakeBalance>): Ledger {
    map id | id in l ::
      if l[id].Live? && id in balances && balances[id].Total() == l[id].Lamports()
      then l[id].(balance := balances[id]) else l[id]
  }

  /** An account that was sent lamports; at a stake account they are inactive. */
  function Donated(a: StakeAccount, amount: nat): (r: StakeAccount)
    ensures r.Live? == a.Live? && r.Lamports() == a.Lamports() + amount
  {
    match a
    case Unused(lamports) => Unused(lamports + amount)
    case Closed => Unused(amount)
    case Taken(lamports) => Taken(lamports + amount)
    case Live(balance, _) => a.(balance := balance.(inactive := balance.inactive + amount))
  }

  /** A live stake account after a reward, which is active stake. */
  function Rewarded(a: StakeAccount, amount: nat, credits: nat): (r: StakeAccount)
    requires a.Live?
    ensures r.Live? && r.Lamports() == a.Lamports() + amount
  {
    Live(a.balance.(active := a.balance.active + amount), a.delegation.(creditsObserved := credits))
  }

  function DonateToAccount(s: State, id: AccountId, amount: nat): State {
    s.(accounts := s.accounts[id := Donated(At(s.accounts, id), amount)],
       gifts := s.gifts.(accounts := s.gifts.accounts[id := s.gifts.To(id) + amount]))
  }

  /** Somebody revives an emptied stake account under an authority of their own, in
      the transaction that emptied it. */
  function TakeOver(s: State, id: AccountId, amount: nat): Result<State> {
    if !At(s.accounts, id).Closed? || amount < STAKE_RENT then Err(RuntimeRejected)
    else
      Ok(s.(accounts := s.accounts[id := Taken(amount)],
            gifts := s.gifts.(accounts := s.gifts.accounts[id := s.gifts.To(id) + amount])))
  }

  /** A validation reward on a live stake account, for the credits so far. */
  function Reward(s: State, id: AccountId, amount: nat, credits: nat): Result<State> {
    var a := At(s.accounts, id);
    :- Need(a.Live?, RuntimeRejected);
    Ok(s.(accounts := s.accounts[id := Rewarded(a, amount, credits)]))
  }

  // ---------------------------------------------------------------- the state machine

  datatype Step =
    | DepositStep(amount: nat)
    | StakeDepositStep(amount: nat, index: nat, vote: Pubkey, approach: Approach)
    | UnstakeStep(amount: nat, index: nat, vote: Pubkey, remainder: StakeBalance, balance: StakeBalance)
    | MergeStakeStep(index: nat, vote: Pubkey, balance: StakeBalance)
    | UpdateBalanceStep(index: nat, vote: Pubkey)
    | UpdateRateStep
    | WithdrawStep(amount: nat, index: nat, vote: Pubkey, payout: Payout)
    | AddValidatorStep(vote: Pubkey)
    | RemoveValidatorStep(index: nat, vote: Pubkey)
    | ChangeStatusStep(index: nat, vote: Pubkey, change: StatusChange)
    | ChangeDistributionStep(distribution: RewardDistribution)
    | EpochStep(balances: map<AccountId, StakeBalance>)
    | RewardStep(id: AccountId, amount: nat, credits: nat)
    | DonateToReserveStep(amount: nat)
    | DonateToAccountStep(id: AccountId, amount: nat)
    | TakeOverStep(id: AccountId, amount: nat)
    | BurnStep(amount: nat)

  /** Steps that happen without the program. */
  predicate Outside(step: Step) {
    step.EpochStep? || step.RewardStep? || step.DonateToReserveStep? || step.DonateToAccountStep?
    || step.TakeOverStep? || step.BurnStep?
  }

  function Apply(s: State, step: Step): Result<State> {
    match step
    case DepositStep(amount) => Deposit(s, amount)
    case StakeDepositStep(amount, index, vote, approach) => StakeDeposit(s, amount, index, vote, approach)
    case UnstakeStep(amount, index, vote, remainder, balance) => Unstaking(s, amount, index, vote, remainder, balance)
    case MergeStakeStep(index, vote, balance) => MergeStake(s, index, vote, balance)
    case UpdateBalanceStep(index, vote) => UpdateStakeAccountBalance(s, index, vote)
    case UpdateRateStep => UpdateExchangeRate(s)
    case WithdrawStep(amount, index, vote, payout) => Withdraw(s, amount, index, vote, payout)
    case AddValidatorStep(vote) => AddValidator(s, vote)
    case RemoveValidatorStep(index, vote) => RemoveValidator(s, index, vote)
    case ChangeStatusStep(index, vote, change) => ChangeStatus(s, index, vote, change)
    case ChangeDistributionStep(distribution) => Ok(s.(distribution := distribution))
    case EpochStep(balances) => Ok(s.(epoch := s.epoch + 1, accounts := Redivided(s.accounts, balances)))
    case RewardStep(id, amount, credits) => Reward(s, id, amount, credits)
    case DonateToReserveStep(amount) =>
      Ok(s.(reserve := s.reserve + amount, gifts := s.gifts.(reserve := s.gifts.reserve + amount)))
    case DonateToAccountStep(id, amount) => Ok(DonateToAccount(s, id, amount))
    case TakeOverStep(id, amount) => TakeOver(s, id, amount)
    case BurnStep(amount) =>
      var supply :- Burn(s.supply, amount);
      Ok(s.(supply := supply))
  }

  /** A step that fails is rolled back. */
  function Next(s: State, step: Step): State {
    match Apply(s, step)
    case Ok(s') => s'
    case Err(_) => s
  }

  /** The state after a sequence of attempted steps. */
  function Run(s: State, steps: seq<Step>): State {
    if steps == [] then s else Next(Run(s, steps[..|steps| - 1]), steps[|steps| - 1])
  }
}
