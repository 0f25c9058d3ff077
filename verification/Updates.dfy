/** UpdateStakeAccountBalance: what it leaves behind, and that it is idempotent. */
module Updates {
  import opened Bytes
  import opened Results
  import opened Token
  import opened State
  import opened Instructions
  import opened LedgerFacts
  import opened Books
  import opened Placement
  import opened Solvency

  /** After a successful update the books are exact, every stake account is down
      to its rent, the maximal prefix of inactive unstake accounts is empty and
      out of the range, the next unstake account is not inactive, and no lamport is
      lost between the accounts and the reserve. */
  lemma UpdateLeaves(s: State, index: nat, vote: Pubkey)
    requires BooksInv(s) && UpdateStakeAccountBalance(s, index, vote).Ok?
    ensures var s' := UpdateStakeAccountBalance(s, index, vote).value;
      var v, v' := s.validators[index], s'.validators[index];
      var begin := v'.unstakeSeeds.begin;
      && Exact(s'.accounts, v')
      && v'.stakeSeeds == v.stakeSeeds && v'.unstakeSeeds.end == v.unstakeSeeds.end
      && IsInactivePrefix(s.accounts, vote, v.unstakeSeeds.begin, v.unstakeSeeds.end, begin)
      && AtRent(s'.accounts, vote, v.stakeSeeds)
      && AllClosed(s'.accounts, vote, v.unstakeSeeds.begin, begin)
      && s'.reserve + StakeLamports(s'.accounts, v') + UnstakeLamports(s'.accounts, v')
      == s.reserve + StakeLamports(s.accounts, v) + UnstakeLamports(s.accounts, v)
  {
    var v := s.validators[index];
    var f := Examine(s.accounts, v).value;
    var s' := UpdateStakeAccountBalance(s, index, vote).value;
    UpdateAccounted(s.accounts, v);
    WalkUnstakeFinds(s.accounts, vote, v.unstakeSeeds.begin, v.unstakeSeeds.end);
    CollectedAtRent(s.accounts, v, f);
    FeesKeepRest(AfterCollecting(s, index, f), f.rewards);
  }

  predicate AtRent(l: Ledger, vote: Pubkey, seeds: SeedRange) {
    forall seed :: seeds.begin <= seed < seeds.end ==> RentOnly(At(l, AccountId(vote, Stake, seed)))
  }

  predicate RentOnly(a: StakeAccount) {
    a.Live? && a.balance.inactive == STAKE_RENT
  }

  predicate AllClosed(l: Ledger, vote: Pubkey, lo: nat, hi: nat) {
    forall seed :: lo <= seed < hi ==> At(l, AccountId(vote, Unstake, seed)) == Closed
  }

  lemma CollectedAtRent(l: Ledger, v: Validator, f: Findings)
    requires Accounted(l, v) && Examine(l, v) == Ok(f)
    ensures var l' := Collected(l, v.voteAccount, v.stakeSeeds, SeedRange(v.unstakeSeeds.begin, f.unstake.begin));
      && AtRent(l', v.voteAccount, v.stakeSeeds)
      && AllClosed(l', v.voteAccount, v.unstakeSeeds.begin, f.unstake.begin)
  {
    var l' := Collected(l, v.voteAccount, v.stakeSeeds, SeedRange(v.unstakeSeeds.begin, f.unstake.begin));
    WalkStakeFinds(l, l', v.voteAccount, v.stakeSeeds.begin, v.stakeSeeds.end);
    forall seed | v.stakeSeeds.begin <= seed < v.stakeSeeds.end
      ensures RentOnly(At(l', AccountId(v.voteAccount, Stake, seed)))
    {
      assert KeepsRent(At(l, AccountId(v.voteAccount, Stake, seed)));
    }
    WalkUnstakeFinds(l, v.voteAccount, v.unstakeSeeds.begin, v.unstakeSeeds.end);
    forall seed | v.unstakeSeeds.begin <= seed < f.unstake.begin
      ensures At(l', AccountId(v.voteAccount, Unstake, seed)) == Closed
    {
      assert At(l, AccountId(v.voteAccount, Unstake, seed)).FullyInactive();
    }
  }

  lemma FeesKeepRest(s: State, rewards: nat)
    requires DistributeFees(s, rewards).Ok?
    ensures var s' := DistributeFees(s, rewards).value;
      s' == s.(supply := s'.supply, metrics := s'.metrics)
    ensures rewards == 0 ==> DistributeFees(s, rewards).value == s
  {
  }

  lemma StakeWalkAgain(l: Ledger, v: Validator, f: Findings)
    requires Accounted(l, v) && Examine(l, v) == Ok(f)
    ensures var l' := Collected(l, v.voteAccount, v.stakeSeeds, SeedRange(v.unstakeSeeds.begin, f.unstake.begin));
      WalkStake(l', v.voteAccount, v.stakeSeeds.begin, v.stakeSeeds.end) == Ok(StakeWalk(f.after.effectiveStakeBalance, 0))
  {
    var vote := v.voteAccount;
    var l' := Collected(l, vote, v.stakeSeeds, SeedRange(v.unstakeSeeds.begin, f.unstake.begin));
    UpdateAccounted(l, v);
    CollectedAtRent(l, v, f);
    assert forall seed :: v.stakeSeeds.begin <= seed < v.stakeSeeds.end ==> RentOnly(At(l', AccountId(vote, Stake, seed)));
    WalkStakeFinds(l', l', vote, v.stakeSeeds.begin, v.stakeSeeds.end);
  }

  lemma UnstakeWalkAgain(l: Ledger, v: Validator, f: Findings)
    requires Accounted(l, v) && Examine(l, v) == Ok(f)
    ensures var l' := Collected(l, v.voteAccount, v.stakeSeeds, SeedRange(v.unstakeSeeds.begin, f.unstake.begin));
      WalkUnstake(l', v.voteAccount, f.unstake.begin, v.unstakeSeeds.end)
      == Ok(UnstakeWalk(f.after.unstakeAccountsBalance, 0, f.unstake.begin))
  {
    var l' := Collected(l, v.voteAccount, v.stakeSeeds, SeedRange(v.unstakeSeeds.begin, f.unstake.begin));
    UpdateAccounted(l, v);
    UnstakeRangeKept(l, v, f);
    WalkUnstakeFinds(l', v.voteAccount, f.unstake.begin, v.unstakeSeeds.end);
  }

  /** Walks that find exactly what is tracked, and nothing to take out. */
  lemma ExamineFindsNothing(l: Ledger, v: Validator)
    requires Cached(v) && v.stakeAccountsBalance <= MAX_U64
    requires WalkStake(l, v.voteAccount, v.stakeSeeds.begin, v.stakeSeeds.end) == Ok(StakeWalk(v.effectiveStakeBalance, 0))
    requires WalkUnstake(l, v.voteAccount, v.unstakeSeeds.begin, v.unstakeSeeds.end)
          == Ok(UnstakeWalk(v.unstakeAccountsBalance, 0, v.unstakeSeeds.begin))
    ensures Examine(l, v).Ok?
    ensures var g := Examine(l, v).value;
      && g.rewards == 0 && g.after == v && g.stake.excess == 0 && g.unstake.removed == 0 && g.unstake.begin == v.unstakeSeeds.begin
  {
  }

  /** Updating an account range that was just updated finds nothing. */
  lemma ExamineAgain(l: Ledger, v: Validator, f: Findings)
    requires Accounted(l, v) && Examine(l, v) == Ok(f)
    ensures var l' := Collected(l, v.voteAccount, v.stakeSeeds, SeedRange(v.unstakeSeeds.begin, f.unstake.begin));
      && Examine(l', f.after).Ok?
      && var g := Examine(l', f.after).value;
      && g.rewards == 0 && g.after == f.after && g.stake.excess == 0 && g.unstake.removed == 0
      && g.unstake.begin == f.after.unstakeSeeds.begin
  {
    ExaminedEntry(l, v);
    StakeWalkAgain(l, v, f);
    UnstakeWalkAgain(l, v, f);
    ExamineFindsNothing(Collected(l, v.voteAccount, v.stakeSeeds, SeedRange(v.unstakeSeeds.begin, f.unstake.begin)), f.after);
  }

  lemma UnstakeRangeKept(l: Ledger, v: Validator, f: Findings)
    requires Accounted(l, v) && Examine(l, v) == Ok(f)
    ensures var l' := Collected(l, v.voteAccount, v.stakeSeeds, SeedRange(v.unstakeSeeds.begin, f.unstake.begin));
      && v.unstakeSeeds.begin <= f.unstake.begin <= v.unstakeSeeds.end
      && AllLive(l', v.voteAccount, Unstake, f.unstake.begin, v.unstakeSeeds.end)
      && IsInactivePrefix(l', v.voteAccount, f.unstake.begin, v.unstakeSeeds.end, f.unstake.begin)
  {
    var l' := Collected(l, v.voteAccount, v.stakeSeeds, SeedRange(v.unstakeSeeds.begin, f.unstake.begin));
    WalkUnstakeFinds(l, v.voteAccount, v.unstakeSeeds.begin, v.unstakeSeeds.end);
    forall seed | f.unstake.begin <= seed < v.unstakeSeeds.end
      ensures At(l', AccountId(v.voteAccount, Unstake, seed)) == At(l, AccountId(v.voteAccount, Unstake, seed))
    {
    }
  }

  /** A second update with nothing happening in between changes nothing. */
  lemma UpdateIsIdempotent(s: State, index: nat, vote: Pubkey)
    requires BooksInv(s) && UpdateStakeAccountBalance(s, index, vote).Ok?
    ensures var s' := UpdateStakeAccountBalance(s, index, vote).value;
      RewardsAt(s', index) == 0 && UpdateStakeAccountBalance(s', index, vote) == Ok(s')
  {
    var f := Examine(s.accounts, s.validators[index]).value;
    var s' := UpdateStakeAccountBalance(s, index, vote).value;
    FeesKeepRest(AfterCollecting(s, index, f), f.rewards);
    ExamineAgain(s.accounts, s.validators[index], f);
    CollectedAtRent(s.accounts, s.validators[index], f);
    SecondUpdate(s', index, vote, f.after);
  }

  lemma SecondUpdate(s: State, index: nat, vote: Pubkey, v: Validator)
    requires index < |s.validators| && s.validators[index] == v && v.voteAccount == vote
    requires AtRent(s.accounts, vote, v.stakeSeeds) && Examine(s.accounts, v).Ok?
    requires var g := Examine(s.accounts, v).value;
      && g.rewards == 0 && g.after == v && g.stake.excess == 0 && g.unstake.removed == 0
      && g.unstake.begin == v.unstakeSeeds.begin
    ensures RewardsAt(s, index) == 0 && UpdateStakeAccountBalance(s, index, vote) == Ok(s)
  {
    CollectingNothing(s, index, Examine(s.accounts, v).value);
  }

  lemma CollectingNothing(s: State, index: nat, g: Findings)
    requires index < |s.validators| && g.after == s.validators[index]
    requires AtRent(s.accounts, s.validators[index].voteAccount, s.validators[index].stakeSeeds)
    requires g.stake.excess == 0 && g.unstake.removed == 0 && g.unstake.begin == g.after.unstakeSeeds.begin
    ensures AfterCollecting(s, index, g) == s
  {
    var v := s.validators[index];
    var l' := Collected(s.accounts, v.voteAccount, v.stakeSeeds, SeedRange(v.unstakeSeeds.begin, g.unstake.begin));
    forall id | id in s.accounts
      ensures l'[id] == s.accounts[id]
    {
      if id.vote == v.voteAccount && id.kind == Stake && v.stakeSeeds.Contains(id.seed) {
        assert RentOnly(At(s.accounts, AccountId(v.voteAccount, Stake, id.seed)));
        assert id == AccountId(v.voteAccount, Stake, id.seed);
      }
    }
    assert l' == s.accounts;
  }

  /** In a reachable state an update of a listed validator can only fail because
      the runtime left an account without its rent, because its SOL does not fit,
      or in distributing the fees. */
  lemma UpdateFailsOnlyOutside(s: State, index: nat)
    requires Inv(s) && index < |s.validators|
    ensures var v := s.validators[index];
      Examine(s.accounts, v).Ok? <==>
        && AllKeepRent(s.accounts, v.voteAccount, v.stakeSeeds.begin, v.stakeSeeds.end)
        && StakeLamports(s.accounts, v) + UnstakeLamports(s.accounts, v) <= MAX_U64
    ensures var v := s.validators[index];
      Examine(s.accounts, v).Err? ==> Examine(s.accounts, v).error in {CalculationFailure, Panicked(LessThanRent)}
  {
    var v := s.validators[index];
    ExamineFailsOnlyOutside(s.accounts, v);
    forall seed | v.stakeSeeds.begin <= seed < v.stakeSeeds.end
      ensures At(s.accounts, AccountId(v.voteAccount, Stake, seed)).Live?
    {
      assert PlacedAt(s.accounts, s.gifts, v, AccountId(v.voteAccount, Stake, seed));
    }
    forall seed | v.unstakeSeeds.begin <= seed < v.unstakeSeeds.end
      ensures At(s.accounts, AccountId(v.voteAccount, Unstake, seed)).Live?
    {
      assert PlacedAt(s.accounts, s.gifts, v, AccountId(v.voteAccount, Unstake, seed));
    }
    LiveWalksFail(s.accounts, v.voteAccount, v.stakeSeeds.begin, v.stakeSeeds.end);
    LiveUnstakeWalksFail(s.accounts, v.voteAccount, v.unstakeSeeds.begin, v.unstakeSeeds.end);
  }

  lemma {:induction false} LiveWalksFail(l: Ledger, vote: Pubkey, lo: nat, hi: nat)
    requires AllLive(l, vote, Stake, lo, hi)
    ensures WalkStake(l, vote, lo, hi).Err? ==> WalkStake(l, vote, lo, hi).error in {CalculationFailure, Panicked(LessThanRent)}
    decreases hi - lo
  {
    if lo < hi {
      LiveWalksFail(l, vote, lo, hi - 1);
    }
  }

  lemma {:induction false} LiveUnstakeWalksFail(l: Ledger, vote: Pubkey, lo: nat, hi: nat)
    requires AllLive(l, vote, Unstake, lo, hi)
    ensures WalkUnstake(l, vote, lo, hi).Err? ==> WalkUnstake(l, vote, lo, hi).error == CalculationFailure
    decreases hi - lo
  {
    if lo < hi {
      LiveUnstakeWalksFail(l, vote, lo, hi - 1);
    }
  }

  /** A listed validator that passes the checks of removal has no balance, so
      the assertion in that check cannot fail. */
  lemma RemovalFindsNoBalance(s: State, index: nat, vote: Pubkey)
    requires BooksInv(s) && RemoveValidator(s, index, vote).Err?
    ensures !RemoveValidator(s, index, vote).error.Panicked?
  {
    if index < |s.validators| {
      assert Accounted(s.accounts, s.validators[index]);
    }
  }
}
