/** A validator that is pending removal can always be emptied and removed: some run of
    instructions and outside events gets there, as long as nobody has taken over the
    addresses that it needs for that. */
module Retirement {
  import opened Bytes
  import opened Results
  import opened Token
  import opened State
  import opened Instructions
  import opened LedgerFacts
  import opened Books
  import opened Placement
  import opened Solvency
  import opened Updates
  import opened Acceptance
  import opened TakeOvers

  // ---------------------------------------------------------------- what is asked for

  function Accounts(v: Validator): nat {
    if v.stakeSeeds.begin <= v.stakeSeeds.end then v.stakeSeeds.end - v.stakeSeeds.begin else 0
  }

  function NextUnstake(v: Validator, ahead: nat): AccountId {
    AccountId(v.voteAccount, Unstake, v.unstakeSeeds.end + ahead)
  }

  /** There is a free unstake address for each of its stake accounts. */
  predicate FreeAhead(l: Ledger, v: Validator) {
    forall seed :: v.unstakeSeeds.end <= seed < v.unstakeSeeds.end + Accounts(v) ==>
      At(l, AccountId(v.voteAccount, Unstake, seed)).IsFree()
  }

  ghost predicate Retiring(s: State, index: nat, vote: Pubkey) {
    Inv(s) && Names(s.validators, index, vote) && s.validators[index].status.PendingRemoval? && FreeAhead(s.accounts, s.validators[index])
  }

  /** Lamports at its accounts that no update has found yet. */
  function Untracked(l: Ledger, v: Validator): int {
    StakeLamports(l, v) + UnstakeLamports(l, v) - v.stakeAccountsBalance
  }

  /** Gifts at the unstake addresses that it needs, and one more lamport for each. */
  function Ahead(l: Ledger, v: Validator): nat {
    SumLamports(l, v.voteAccount, Unstake, v.unstakeSeeds.end, v.unstakeSeeds.end + Accounts(v)) + Accounts(v)
  }

  /** The totals leave room for so many more rewards, and there are shares for them. */
  predicate TotalsFit(s: State, rewards: int) {
    var m := s.metrics;
    && 0 < s.distribution.Sum()
    && PoolSol(s) + rewards <= MAX_U64
    && m.feeTreasurySol + rewards <= MAX_U64 && m.feeTreasuryStSol + rewards <= MAX_U64
    && m.feeDeveloperSol + rewards <= MAX_U64 && m.feeDeveloperStSol + rewards <= MAX_U64
    && m.appreciationSol + rewards <= MAX_U64
  }

  /** There is room for all that its updates can find. */
  predicate Room(s: State, index: nat)
    requires index < |s.validators|
  {
    TotalsFit(s, Untracked(s.accounts, s.validators[index]) + Ahead(s.accounts, s.validators[index]))
  }

  // ---------------------------------------------------------------- rewards with room for them

  lemma SharesAreParts(d: RewardDistribution, rewards: nat)
    requires 0 < d.Sum() && rewards <= MAX_U64
    ensures ShareOf(d.treasuryFee, d, rewards) + ShareOf(d.developerFee, d, rewards) <= rewards
  {
    RewardSplit(d, rewards);
    ShareOfIsMul(d.treasuryFee, d, rewards);
    ShareOfIsMul(d.developerFee, d, rewards);
  }

  lemma StSolIsLess(rate: ExchangeRate, amount: nat)
    requires rate.stSolSupply <= rate.solBalance && amount <= MAX_U64
    ensures InStSol(rate, amount) <= amount
  {
    InStSolIsExchange(rate, amount);
    ExchangeDirection(rate, amount);
  }

  lemma RoomForFees(s: State, rewards: nat)
    requires SolventInv(s) && s.epoch <= s.rate.computedInEpoch && TotalsFit(s, rewards) && 0 <= PoolSol(s)
    ensures FeesFit(s, rewards)
  {
    var d := s.distribution;
    SharesAreParts(d, rewards);
    StSolIsLess(s.rate, ShareOf(d.treasuryFee, d, rewards));
    StSolIsLess(s.rate, ShareOf(d.developerFee, d, rewards));
  }

  /** What fees do to supply and totals: no more than the rewards. */
  lemma FeesGrow(s: State, rewards: nat, more: int)
    requires s.rate.stSolSupply <= s.rate.solBalance && rewards <= MAX_U64 && 0 <= more
    requires DistributeFees(s, rewards).Ok? && 0 < s.distribution.Sum()
    requires var m := s.metrics;
      && m.feeTreasurySol + rewards + more <= MAX_U64 && m.feeTreasuryStSol + rewards + more <= MAX_U64
      && m.feeDeveloperSol + rewards + more <= MAX_U64 && m.feeDeveloperStSol + rewards + more <= MAX_U64
      && m.appreciationSol + rewards + more <= MAX_U64
    ensures var m := DistributeFees(s, rewards).value.metrics;
      && m.feeTreasurySol + more <= MAX_U64 && m.feeTreasuryStSol + more <= MAX_U64
      && m.feeDeveloperSol + more <= MAX_U64 && m.feeDeveloperStSol + more <= MAX_U64
      && m.appreciationSol + more <= MAX_U64
  {
    var d := s.distribution;
    FeesOf(s, rewards);
    SharesAreParts(d, rewards);
    StSolIsLess(s.rate, ShareOf(d.treasuryFee, d, rewards));
    StSolIsLess(s.rate, ShareOf(d.developerFee, d, rewards));
  }

  // ---------------------------------------------------------------- settling

  /** Stake is active but for the rent, unstaked lamports are inactive. */
  function SettledDivision(kind: StakeKind, lamports: nat): (b: StakeBalance)
    ensures b.Total() == lamports
  {
    if kind == Unstake || lamports < STAKE_RENT then StakeBalance(lamports, 0, 0, 0)
    else StakeBalance(STAKE_RENT, 0, lamports - STAKE_RENT, 0)
  }

  function Settling(l: Ledger): map<AccountId, StakeBalance> {
    map id | id in l :: SettledDivision(id.kind, l[id].Lamports())
  }

  predicate SettledAt(l: Ledger, id: AccountId) {
    At(l, id).Live? ==> At(l, id).balance == SettledDivision(id.kind, At(l, id).Lamports())
  }

  ghost predicate AllSettled(l: Ledger) {
    forall id :: SettledAt(l, id)
  }

  /** Addresses hold the same as before, and are free exactly if they were. */
  ghost predicate SameHoldings(l: Ledger, l': Ledger) {
    forall id {:trigger At(l', id)} ::
      At(l, id).Lamports() == At(l', id).Lamports() && At(l, id).IsFree() == At(l', id).IsFree() && At(l, id).Live? == At(l', id).Live?
  }

  lemma SettledThere(l: Ledger, id: AccountId)
    ensures var l' := Redivided(l, Settling(l));
      && SettledAt(l', id) && At(l, id).Lamports() == At(l', id).Lamports()
      && At(l, id).IsFree() == At(l', id).IsFree() && At(l, id).Live? == At(l', id).Live?
  {
    if id in l && l[id].Live? {
      assert Settling(l)[id].Total() == l[id].Lamports();
    }
  }

  lemma RedividedSettles(l: Ledger)
    ensures var l' := Redivided(l, Settling(l));
      SameHoldings(l, l') && AllSettled(l')
  {
    forall id
      ensures SettledAt(Redivided(l, Settling(l)), id)
      ensures At(l, id).Lamports() == At(Redivided(l, Settling(l)), id).Lamports()
      ensures At(l, id).IsFree() == At(Redivided(l, Settling(l)), id).IsFree()
      ensures At(l, id).Live? == At(Redivided(l, Settling(l)), id).Live?
    {
      SettledThere(l, id);
    }
  }

  lemma EpochIsStep(s: State, balances: map<AccountId, StakeBalance>)
    ensures Next(s, EpochStep(balances)) == s.(epoch := s.epoch + 1, accounts := Redivided(s.accounts, balances))
  {
  }

  lemma EpochSettles(s: State)
    ensures var t := Next(s, EpochStep(Settling(s.accounts)));
      && t == s.(epoch := s.epoch + 1, accounts := t.accounts)
      && SameHoldings(s.accounts, t.accounts)
      && AllSettled(t.accounts)
  {
    EpochIsStep(s, Settling(s.accounts));
    RedividedSettles(s.accounts);
  }

  lemma SameRoom(s: State, t: State, index: nat)
    requires index < |s.validators| && t.validators == s.validators && SameHoldings(s.accounts, t.accounts)
    requires t.reserve == s.reserve && t.metrics == s.metrics && t.distribution == s.distribution
    ensures Room(s, index) <==> Room(t, index)
    ensures FreeAhead(s.accounts, s.validators[index]) <==> FreeAhead(t.accounts, t.validators[index])
  {
    var v := s.validators[index];
    SumFrame(s.accounts, t.accounts, v.voteAccount, Stake, v.stakeSeeds.begin, v.stakeSeeds.end);
    SumFrame(s.accounts, t.accounts, v.voteAccount, Unstake, v.unstakeSeeds.begin, v.unstakeSeeds.end);
    SumFrame(s.accounts, t.accounts, v.voteAccount, Unstake, v.unstakeSeeds.end, v.unstakeSeeds.end + Accounts(v));
    FreeFrame(s, t, v);
    FreeFrame(t, s, v);
  }

  lemma FreeFrame(s: State, t: State, v: Validator)
    requires forall seed {:trigger At(t.accounts, AccountId(v.voteAccount, Unstake, seed))} ::
      v.unstakeSeeds.end <= seed < v.unstakeSeeds.end + Accounts(v) ==>
        At(s.accounts, AccountId(v.voteAccount, Unstake, seed)).IsFree() ==> At(t.accounts, AccountId(v.voteAccount, Unstake, seed)).IsFree()
    ensures FreeAhead(s.accounts, v) ==> FreeAhead(t.accounts, v)
  {
  }

  lemma RateSettles(s: State)
    requires Inv(s) && PoolSol(s) <= MAX_U64
    ensures var t := Next(s, UpdateRateStep);
      t == s.(rate := t.rate) && t.epoch <= t.rate.computedInEpoch
  {
    RateUpdateAccepted(s);
    UpdateRateIsStep(s);
  }

  lemma UpdateRateIsStep(s: State)
    ensures Apply(s, UpdateRateStep) == UpdateExchangeRate(s)
  {
  }

  lemma UpdateIsStep(s: State, index: nat, vote: Pubkey)
    ensures Apply(s, UpdateBalanceStep(index, vote)) == UpdateStakeAccountBalance(s, index, vote)
  {
  }

  lemma {:induction false} MemberOfSum(vs: seq<Validator>, index: nat)
    requires index < |vs|
    ensures vs[index].stakeAccountsBalance <= SumStake(vs)
  {
    if index < |vs| - 1 {
      MemberOfSum(vs[..|vs| - 1], index);
    }
  }

  lemma SettledKeepRent(s: State, index: nat)
    requires Inv(s) && index < |s.validators| && AllSettled(s.accounts)
    ensures var v := s.validators[index];
      AllKeepRent(s.accounts, v.voteAccount, v.stakeSeeds.begin, v.stakeSeeds.end)
  {
    var v := s.validators[index];
    forall seed | v.stakeSeeds.begin <= seed < v.stakeSeeds.end
      ensures KeepsRent(At(s.accounts, AccountId(v.voteAccount, Stake, seed)))
    {
      var id := AccountId(v.voteAccount, Stake, seed);
      assert PlacedAt(s.accounts, s.gifts, v, id) && SettledAt(s.accounts, id);
    }
  }

  lemma SettledUpdateSucceeds(s: State, index: nat, vote: Pubkey)
    requires Retiring(s, index, vote) && Room(s, index) && AllSettled(s.accounts) && s.epoch <= s.rate.computedInEpoch
    ensures UpdateStakeAccountBalance(s, index, vote).Ok?
    ensures Examine(s.accounts, s.validators[index]).Ok? && RewardsAt(s, index) == Untracked(s.accounts, s.validators[index])
  {
    var v := s.validators[index];
    SettledKeepRent(s, index);
    MemberOfSum(s.validators, index);
    assert Accounted(s.accounts, v);
    RoomForFees(s, Untracked(s.accounts, v));
    UpdateAccepted(s, index, vote);
  }

  /** Of the unstake accounts of a settled validator, nothing is left. */
  lemma SettledUpdateEmpties(s: State, index: nat, vote: Pubkey)
    requires Retiring(s, index, vote) && AllSettled(s.accounts) && UpdateStakeAccountBalance(s, index, vote).Ok?
    ensures var v, v' := s.validators[index], UpdateStakeAccountBalance(s, index, vote).value.validators[index];
      v'.unstakeSeeds == SeedRange(v.unstakeSeeds.end, v.unstakeSeeds.end)
  {
    UpdateLeaves(s, index, vote);
    var v, v' := s.validators[index], UpdateStakeAccountBalance(s, index, vote).value.validators[index];
    assert Accounted(s.accounts, v);
    if v'.unstakeSeeds.begin < v.unstakeSeeds.end {
      SettledInactive(s, index, v'.unstakeSeeds.begin);
    }
  }

  lemma SettledInactive(s: State, index: nat, seed: nat)
    requires Inv(s) && index < |s.validators| && AllSettled(s.accounts) && s.validators[index].unstakeSeeds.Contains(seed)
    ensures At(s.accounts, AccountId(s.validators[index].voteAccount, Unstake, seed)).FullyInactive()
  {
    var v := s.validators[index];
    var id := AccountId(v.voteAccount, Unstake, seed);
    assert PlacedAt(s.accounts, s.gifts, v, id) && SettledAt(s.accounts, id);
  }

  /** The update turns what is untracked into pool SOL and recorded totals. */
  lemma UpdateKeepsRoom(s: State, index: nat, vote: Pubkey, more: nat)
    requires BooksInv(s) && SolventInv(s) && UpdateStakeAccountBalance(s, index, vote).Ok?
    requires TotalsFit(s, RewardsAt(s, index) + more)
    ensures TotalsFit(UpdateStakeAccountBalance(s, index, vote).value, more)
  {
    UpdateFlow(s, index, vote);
    var f := Examine(s.accounts, s.validators[index]).value;
    FeesKeepRest(AfterCollecting(s, index, f), f.rewards);
    FeesGrow(AfterCollecting(s, index, f), f.rewards, more);
  }

  lemma UpdateKeepsEntry(s: State, index: nat, vote: Pubkey)
    requires UpdateStakeAccountBalance(s, index, vote).Ok?
    ensures var t := UpdateStakeAccountBalance(s, index, vote).value;
      && index < |t.validators|
      && var v, v' := s.validators[index], t.validators[index];
      v'.voteAccount == vote && v'.stakeSeeds == v.stakeSeeds && v'.status == v.status && v'.unstakeSeeds.end == v.unstakeSeeds.end
  {
  }

  lemma UpdateKeepsAddress(s: State, index: nat, vote: Pubkey, seed: nat)
    requires BooksInv(s) && UpdateStakeAccountBalance(s, index, vote).Ok? && s.validators[index].unstakeSeeds.end <= seed
    ensures At(UpdateStakeAccountBalance(s, index, vote).value.accounts, AccountId(vote, Unstake, seed)) == At(s.accounts, AccountId(vote, Unstake, seed))
  {
    var v := s.validators[index];
    var f := Examine(s.accounts, v).value;
    FeesKeepRest(AfterCollecting(s, index, f), f.rewards);
    WalkUnstakeFinds(s.accounts, vote, v.unstakeSeeds.begin, v.unstakeSeeds.end);
  }

  lemma UpdateLeavesAhead(s: State, index: nat, vote: Pubkey)
    requires Retiring(s, index, vote) && UpdateStakeAccountBalance(s, index, vote).Ok?
    ensures var t := UpdateStakeAccountBalance(s, index, vote).value;
      && index < |t.validators| && FreeAhead(t.accounts, t.validators[index]) && Ahead(t.accounts, t.validators[index]) == Ahead(s.accounts, s.validators[index])
  {
    var t := UpdateStakeAccountBalance(s, index, vote).value;
    var v := s.validators[index];
    UpdateKeepsEntry(s, index, vote);
    forall seed | v.unstakeSeeds.end <= seed
      ensures At(t.accounts, AccountId(vote, Unstake, seed)) == At(s.accounts, AccountId(vote, Unstake, seed))
    {
      UpdateKeepsAddress(s, index, vote, seed);
    }
    SumFrame(s.accounts, t.accounts, vote, Unstake, v.unstakeSeeds.end, v.unstakeSeeds.end + Accounts(v));
    FreeFrame(s, t, v);
  }

  /** Settled and up to date: the books are exact, and nothing is unstaked. */
  ghost predicate Rested(s: State, index: nat, vote: Pubkey) {
    && Retiring(s, index, vote) && Room(s, index)
    && var v := s.validators[index];
      Exact(s.accounts, v) && v.unstakeSeeds.begin == v.unstakeSeeds.end
  }

  lemma UpdateRests(s: State, index: nat, vote: Pubkey)
    requires Retiring(s, index, vote) && Room(s, index) && AllSettled(s.accounts) && s.epoch <= s.rate.computedInEpoch
    ensures var t := Next(s, UpdateBalanceStep(index, vote));
      Rested(t, index, vote) && Accounts(t.validators[index]) == Accounts(s.validators[index])
  {
    SettledUpdateSucceeds(s, index, vote);
    SettledUpdateEmpties(s, index, vote);
    UpdateKeepsEntry(s, index, vote);
    UpdateLeavesAhead(s, index, vote);
    UpdateKeepsRoom(s, index, vote, Ahead(s.accounts, s.validators[index]));
    UpdateLeaves(s, index, vote);
    UpdateIsStep(s, index, vote);
    NextKeepsInv(s, UpdateBalanceStep(index, vote));
    var t := Next(s, UpdateBalanceStep(index, vote));
    assert Accounted(t.accounts, t.validators[index]);
  }

  lemma SettleAndUpdate(s: State, index: nat, vote: Pubkey)
    requires Retiring(s, index, vote) && Room(s, index)
    ensures var t := Next(Next(Next(s, EpochStep(Settling(s.accounts))), UpdateRateStep), UpdateBalanceStep(index, vote));
      Rested(t, index, vote) && Accounts(t.validators[index]) == Accounts(s.validators[index])
  {
    var epoch := EpochStep(Settling(s.accounts));
    var settled := Next(s, epoch);
    EpochSettles(s);
    NextKeepsInv(s, epoch);
    SameRoom(s, settled, index);
    assert Accounted(s.accounts, s.validators[index]);
    RateSettles(settled);
    var dated := Next(settled, UpdateRateStep);
    NextKeepsInv(settled, UpdateRateStep);
    SameRoom(settled, dated, index);
    UpdateRests(dated, index, vote);
  }

  // ---------------------------------------------------------------- unstaking the oldest account

  function OldestLamports(s: State, index: nat): nat
    requires index < |s.validators|
  {
    var v := s.validators[index];
    Lamports(s, v.voteAccount, Stake, v.stakeSeeds.begin)
  }

  /** One lamport goes to the next unstake address, so that what is split off is more than
      the rent in any case. */
  function Gift(s: State, index: nat): Step
    requires index < |s.validators|
  {
    DonateToAccountStep(NextUnstake(s.validators[index], 0), 1)
  }

  function UnstakeOldest(s: State, index: nat, vote: Pubkey): Step
    requires index < |s.validators|
  {
    var lamports := OldestLamports(s, index);
    var into := At(s.accounts, NextUnstake(s.validators[index], 0)).Lamports();
    UnstakeStep(lamports, index, vote, StakeBalance(lamports, 0, 0, 0), StakeBalance(into + lamports, 0, 0, 0))
  }

  function Given(s: State, index: nat): State
    requires index < |s.validators|
  {
    var id := NextUnstake(s.validators[index], 0);
    DonateToAccount(s, id, 1)
  }

  lemma GiftIsStep(s: State, index: nat)
    requires index < |s.validators|
    ensures Next(s, Gift(s, index)) == Given(s, index)
  {
  }

  lemma AfterGift(s: State, index: nat, vote: Pubkey)
    requires Rested(s, index, vote) && 0 < Accounts(s.validators[index])
    ensures var t, id := Given(s, index), NextUnstake(s.validators[index], 0);
      && Inv(t) && t.validators == s.validators && t.metrics == s.metrics && t.reserve == s.reserve && t.distribution == s.distribution
      && t.accounts == s.accounts[id := Unused(At(s.accounts, id).Lamports() + 1)]
  {
    GiftIsStep(s, index);
    NextKeepsInv(s, Gift(s, index));
    assert At(s.accounts, NextUnstake(s.validators[index], 0)).IsFree();
  }

  /** Its oldest account holds no more than is tracked, so that it can be unstaked. */
  lemma OldestCanBeUnstaked(s: State, index: nat, vote: Pubkey)
    requires Rested(s, index, vote) && 0 < Accounts(s.validators[index])
    ensures Apply(Given(s, index), UnstakeOldest(Given(s, index), index, vote)).Ok?
  {
    var t, v := Given(s, index), s.validators[index];
    var lamports := OldestLamports(s, index);
    AfterGift(s, index, vote);
    AccountsOf(s, index);
    SumBounds(s.accounts, vote, Stake, v.stakeSeeds.begin, v.stakeSeeds.end, v.stakeSeeds.begin);
    MemberOfSum(s.validators, index);
    var into := At(t.accounts, NextUnstake(v, 0)).Lamports();
    UnstakeAccepted(t, lamports, index, vote, StakeBalance(lamports, 0, 0, 0), StakeBalance(into + lamports, 0, 0, 0));
  }

  /** The entry and the accounts after the oldest account was unstaked. */
  lemma AfterUnstaking(t: State, index: nat, vote: Pubkey)
    requires index < |t.validators| && Apply(t, UnstakeOldest(t, index, vote)).Ok? && !t.validators[index].IsActive()
    requires t.validators[index].voteAccount == vote
    ensures var x, v := Next(t, UnstakeOldest(t, index, vote)), t.validators[index];
      var lamports := OldestLamports(t, index);
      && index < |x.validators| && x.reserve == t.reserve && x.metrics == t.metrics && x.distribution == t.distribution
      && PoolSol(x) == PoolSol(t)
      && x.validators[index] == v.(stakeSeeds := SeedRange(v.stakeSeeds.begin + 1, v.stakeSeeds.end),
                                   unstakeSeeds := SeedRange(v.unstakeSeeds.begin, v.unstakeSeeds.end + 1),
                                   unstakeAccountsBalance := v.unstakeAccountsBalance + lamports,
                                   effectiveStakeBalance := x.validators[index].effectiveStakeBalance)
      && ChangedAt(t.accounts, x.accounts, {AccountId(vote, Stake, v.stakeSeeds.begin), NextUnstake(v, 0)})
      && At(x.accounts, AccountId(vote, Stake, v.stakeSeeds.begin)).Lamports() == 0
      && At(x.accounts, NextUnstake(v, 0)).Lamports() == At(t.accounts, NextUnstake(v, 0)).Lamports() + lamports
  {
    StepFlow(t, UnstakeOldest(t, index, vote));
  }

  /** What is given is then untracked, and everything asked for ahead is needed no more. */
  lemma UnstakedLedger(l: Ledger, l': Ledger, v: Validator, v': Validator, lamports: nat)
    requires 0 < Accounts(v) && v.unstakeSeeds.begin == v.unstakeSeeds.end && FreeAhead(l, v)
    requires v'.voteAccount == v.voteAccount && v'.stakeAccountsBalance == v.stakeAccountsBalance
    requires v'.stakeSeeds == SeedRange(v.stakeSeeds.begin + 1, v.stakeSeeds.end)
    requires v'.unstakeSeeds == SeedRange(v.unstakeSeeds.begin, v.unstakeSeeds.end + 1)
    requires var from := AccountId(v.voteAccount, Stake, v.stakeSeeds.begin);
      && ChangedAt(l, l', {from, NextUnstake(v, 0)})
      && At(l, from).Lamports() == lamports && At(l', from).Lamports() == 0
      && At(l', NextUnstake(v, 0)).Lamports() == At(l, NextUnstake(v, 0)).Lamports() + 1 + lamports
    ensures FreeAhead(l', v') && Accounts(v') == Accounts(v) - 1
    ensures Untracked(l', v') + Ahead(l', v') == Untracked(l, v) + Ahead(l, v)
  {
    var vote, n, end := v.voteAccount, Accounts(v), v.unstakeSeeds.end;
    TakeFromOldest(l, l', v, v', lamports, {AccountId(vote, Stake, v.stakeSeeds.begin), NextUnstake(v, 0)});
    SumOne(l', vote, Unstake, end);
    SumSplit(l, vote, Unstake, end, end + 1, end + n);
    SumOne(l, vote, Unstake, end);
    SumFrame(l, l', vote, Unstake, end + 1, end + n);
    assert UnstakeLamports(l, v) == 0;
  }

  lemma UnstakingKeepsRoom(s: State, index: nat, vote: Pubkey)
    requires Rested(s, index, vote) && 0 < Accounts(s.validators[index])
    ensures var x := Next(Given(s, index), UnstakeOldest(Given(s, index), index, vote));
      && index < |x.validators| && Room(x, index) && FreeAhead(x.accounts, x.validators[index])
      && Accounts(x.validators[index]) == Accounts(s.validators[index]) - 1
  {
    var t, v := Given(s, index), s.validators[index];
    AfterGift(s, index, vote);
    OldestCanBeUnstaked(s, index, vote);
    AfterUnstaking(t, index, vote);
    var x := Next(t, UnstakeOldest(t, index, vote));
    UnstakedLedger(s.accounts, x.accounts, v, x.validators[index], OldestLamports(s, index));
  }

  lemma StillRetiring(s: State, index: nat, vote: Pubkey)
    requires Rested(s, index, vote) && 0 < Accounts(s.validators[index])
    ensures var x := Next(Next(s, Gift(s, index)), UnstakeOldest(Given(s, index), index, vote));
      && Retiring(x, index, vote) && Room(x, index)
      && Accounts(x.validators[index]) == Accounts(s.validators[index]) - 1
  {
    GiftIsStep(s, index);
    AfterGift(s, index, vote);
    OldestCanBeUnstaked(s, index, vote);
    AfterUnstaking(Given(s, index), index, vote);
    UnstakingKeepsRoom(s, index, vote);
    NextKeepsInv(Given(s, index), UnstakeOldest(Given(s, index), index, vote));
  }

  // ---------------------------------------------------------------- all the way

  lemma RunTwo(s: State, a: Step, b: Step, rest: seq<Step>)
    ensures Run(s, [a, b] + rest) == Run(Next(Next(s, a), b), rest)
  {
    assert [a] + ([b] + rest) == [a, b] + rest;
    RunFirst(s, a, [b] + rest);
    RunFirst(Next(s, a), b, rest);
  }

  lemma RunThree(s: State, a: Step, b: Step, c: Step, rest: seq<Step>)
    ensures Run(s, [a, b, c] + rest) == Run(Next(Next(Next(s, a), b), c), rest)
  {
    assert [a] + ([b, c] + rest) == [a, b, c] + rest;
    RunFirst(s, a, [b, c] + rest);
    RunTwo(Next(s, a), b, c, rest);
  }

  /** A rested validator without stake accounts can be removed right away. */
  lemma RestedIsRemoved(s: State, index: nat, vote: Pubkey)
    requires Rested(s, index, vote) && Accounts(s.validators[index]) == 0
    ensures RemoveValidator(s, index, vote).Ok? && !HasKey(RemoveValidator(s, index, vote).value.validators, vote)
  {
    assert Accounted(s.accounts, s.validators[index]);
    RemoveAccepted(s, index, vote);
    var vs, n := s.validators, |s.validators| - 1;
    assert forall i :: 0 <= i < n ==> SwapRemove(vs, index)[i] == if i == index then vs[n] else vs[i];
  }

  lemma RemoveIsStep(s: State, index: nat, vote: Pubkey)
    ensures Apply(s, RemoveValidatorStep(index, vote)) == RemoveValidator(s, index, vote)
  {
  }

  /** Three steps that settle the validator, and two that unstake its oldest account, as
      often as it has stake accounts; and in the end, its removal. */
  lemma {:induction false} CanBeRemoved(s: State, index: nat, vote: Pubkey) returns (steps: seq<Step>)
    requires Retiring(s, index, vote) && Room(s, index)
    ensures !HasKey(Run(s, steps).validators, vote)
    decreases Accounts(s.validators[index])
  {
    var epoch, update := EpochStep(Settling(s.accounts)), UpdateBalanceStep(index, vote);
    var rested := Next(Next(Next(s, epoch), UpdateRateStep), update);
    SettleAndUpdate(s, index, vote);
    var rest: seq<Step>;
    if Accounts(rested.validators[index]) == 0 {
      var remove := RemoveValidatorStep(index, vote);
      RestedIsRemoved(rested, index, vote);
      RemoveIsStep(rested, index, vote);
      rest := [remove];
      RunFirst(rested, remove, []);
      assert [remove] + [] == rest;
    } else {
      var gift, unstake := Gift(rested, index), UnstakeOldest(Given(rested, index), index, vote);
      StillRetiring(rested, index, vote);
      var others := CanBeRemoved(Next(Next(rested, gift), unstake), index, vote);
      rest := [gift, unstake] + others;
      RunTwo(rested, gift, unstake, others);
    }
    steps := [epoch, UpdateRateStep, update] + rest;
    RunThree(s, epoch, UpdateRateStep, update, rest);
  }

  lemma UntouchedIsFreeAhead(s: State, index: nat)
    requires BooksInv(s) && index < |s.validators| && Untouched(s, s.validators[index].voteAccount)
    ensures FreeAhead(s.accounts, s.validators[index])
  {
    var v := s.validators[index];
    forall seed | v.unstakeSeeds.end <= seed
      ensures At(s.accounts, AccountId(v.voteAccount, Unstake, seed)).Unused?
    {
      var id := AccountId(v.voteAccount, Unstake, seed);
      assert !Behind(s.validators, id);
      assert At(s.accounts, id) == At(s.accounts, id);
    }
  }

  /** Whatever happened in a first membership: if there is room for what the updates can
      find, there is a way to empty and remove a validator that is pending removal. */
  lemma FirstMembershipCanEnd(setup: Setup, steps: seq<Step>, index: nat, vote: Pubkey) returns (more: seq<Step>)
    requires Initialize(setup).Ok? && NeverRemoved(Initialize(setup).value, steps, vote)
    requires var s := Run(Initialize(setup).value, steps);
      Names(s.validators, index, vote) && s.validators[index].status.PendingRemoval? && Room(s, index)
    ensures !HasKey(Run(Run(Initialize(setup).value, steps), more).validators, vote)
  {
    var s := Run(Initialize(setup).value, steps);
    FirstMembership(setup, steps, vote);
    UntouchedIsFreeAhead(s, index);
    more := CanBeRemoved(s, index, vote);
  }
}
