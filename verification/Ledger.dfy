/** Facts about sums over lists and over ranges of stake accounts. */
module LedgerFacts {
  import opened Bytes
  import opened Results
  import opened Token
  import opened State
  import opened Instructions

  // ---------------------------------------------------------------- runs

  lemma RunSnoc(s: State, steps: seq<Step>, step: Step)
    ensures Run(s, steps + [step]) == Next(Run(s, steps), step)
  {
    assert (steps + [step])[..|steps|] == steps;
  }

  lemma {:induction false} RunFirst(s: State, a: Step, rest: seq<Step>)
    ensures Run(s, [a] + rest) == Run(Next(s, a), rest)
    decreases |rest|
  {
    if rest == [] {
      assert [a] + rest == [] + [a] && Run(s, []) == s;
      RunSnoc(s, [], a);
    } else {
      var front, last := rest[..|rest| - 1], rest[|rest| - 1];
      assert [a] + rest == ([a] + front) + [last] && rest == front + [last];
      RunSnoc(s, [a] + front, last);
      RunSnoc(Next(s, a), front, last);
      RunFirst(s, a, front);
    }
  }

  // ---------------------------------------------------------------- sums over validators

  lemma {:induction false} SumStakeUpdate(vs: seq<Validator>, i: nat, v: Validator)
    requires i < |vs|
    ensures SumStake(vs[i := v]) == SumStake(vs) - vs[i].stakeAccountsBalance + v.stakeAccountsBalance
  {
    var n := |vs| - 1;
    if i < n {
      SumStakeUpdate(vs[..n], i, v);
      assert vs[i := v][..n] == vs[..n][i := v];
    } else {
      assert vs[i := v][..n] == vs[..n];
    }
  }

  lemma SumStakeFront(vs: seq<Validator>, n: nat)
    requires |vs| == n + 1
    ensures SumStake(vs) == SumStake(vs[..n]) + vs[n].stakeAccountsBalance
  {
  }

  lemma SumStakeSwapRemove(vs: seq<Validator>, i: nat)
    requires i < |vs|
    ensures SumStake(SwapRemove(vs, i)) == SumStake(vs) - vs[i].stakeAccountsBalance
  {
    var n := |vs| - 1;
    SumStakeUpdate(vs, i, vs[n]);
    SumStakeFront(vs[i := vs[n]], n);
  }

  lemma {:induction false} CheckedSumIsSum(vs: seq<Validator>)
    ensures CheckedSumStake(vs).Ok? <==> SumStake(vs) <= MAX_U64
    ensures CheckedSumStake(vs).Ok? ==> CheckedSumStake(vs).value == SumStake(vs)
  {
    if vs != [] {
      CheckedSumIsSum(vs[..|vs| - 1]);
    }
  }

  lemma {:induction false} CheckedSumError(vs: seq<Validator>)
    ensures CheckedSumStake(vs).Err? ==> CheckedSumStake(vs).error == CalculationFailure
  {
    if vs != [] {
      CheckedSumError(vs[..|vs| - 1]);
    }
  }

  /** With a rent-exempt reserve, the only way to fail is overflow. */
  lemma GetSolBalanceIsPoolSol(s: State)
    requires RESERVE_RENT <= s.reserve
    ensures GetSolBalance(s).Ok? <==> PoolSol(s) <= MAX_U64
    ensures GetSolBalance(s).Ok? ==> GetSolBalance(s).value == PoolSol(s)
  {
    CheckedSumIsSum(s.validators);
  }

  lemma {:induction false} MinimumActiveIsLeast(vs: seq<Validator>)
    ensures MinimumActive(vs).Ok? <==> exists i :: 0 <= i < |vs| && vs[i].IsActive()
    ensures MinimumActive(vs).Ok? ==>
      && (exists i :: 0 <= i < |vs| && vs[i].IsActive() && vs[i].effectiveStakeBalance == MinimumActive(vs).value)
      && (forall i :: 0 <= i < |vs| && vs[i].IsActive() ==> MinimumActive(vs).value <= vs[i].effectiveStakeBalance)
  {
    if vs != [] {
      var n := |vs| - 1;
      var front := vs[..n];
      MinimumActiveIsLeast(front);
      forall i | 0 <= i < n
        ensures vs[i] == front[i]
      {
      }
      assert vs[n].IsActive() ==> MinimumActive(vs).Ok?;
    }
  }

  lemma {:induction false} MaximumEffectiveIsGreatest(vs: seq<Validator>)
    ensures MaximumEffective(vs).Ok? <==> vs != []
    ensures MaximumEffective(vs).Ok? ==>
      && (exists i :: 0 <= i < |vs| && vs[i].effectiveStakeBalance == MaximumEffective(vs).value)
      && (forall i :: 0 <= i < |vs| ==> vs[i].effectiveStakeBalance <= MaximumEffective(vs).value)
  {
    if vs != [] {
      var n := |vs| - 1;
      var front := vs[..n];
      MaximumEffectiveIsGreatest(front);
      forall i | 0 <= i < n
        ensures vs[i] == front[i]
      {
      }
      assert vs[n].effectiveStakeBalance <= MaximumEffective(vs).value;
    }
  }

  // ---------------------------------------------------------------- sums over accounts

  lemma {:induction false} SumFrame(l: Ledger, l': Ledger, vote: Pubkey, kind: StakeKind, lo: nat, hi: nat)
    requires forall seed :: lo <= seed < hi ==>
      At(l, AccountId(vote, kind, seed)).Lamports() == At(l', AccountId(vote, kind, seed)).Lamports()
    ensures SumLamports(l, vote, kind, lo, hi) == SumLamports(l', vote, kind, lo, hi)
    decreases hi - lo
  {
    if lo < hi {
      SumFrame(l, l', vote, kind, lo, hi - 1);
    }
  }

  lemma {:induction false} SumMonotone(l: Ledger, l': Ledger, vote: Pubkey, kind: StakeKind, lo: nat, hi: nat)
    requires forall seed :: lo <= seed < hi ==>
      At(l, AccountId(vote, kind, seed)).Lamports() <= At(l', AccountId(vote, kind, seed)).Lamports()
    ensures SumLamports(l, vote, kind, lo, hi) <= SumLamports(l', vote, kind, lo, hi)
    decreases hi - lo
  {
    if lo < hi {
      SumMonotone(l, l', vote, kind, lo, hi - 1);
    }
  }

  /** Changing one account in the range. */
  lemma {:induction false} SumChange(l: Ledger, l': Ledger, vote: Pubkey, kind: StakeKind, lo: nat, hi: nat, at: nat)
    requires lo <= at < hi
    requires forall seed :: lo <= seed < hi && seed != at ==>
      At(l, AccountId(vote, kind, seed)).Lamports() == At(l', AccountId(vote, kind, seed)).Lamports()
    ensures SumLamports(l', vote, kind, lo, hi)
         == SumLamports(l, vote, kind, lo, hi)
          - At(l, AccountId(vote, kind, at)).Lamports() + At(l', AccountId(vote, kind, at)).Lamports()
    decreases hi - lo
  {
    if at == hi - 1 {
      SumFrame(l, l', vote, kind, lo, hi - 1);
    } else {
      SumChange(l, l', vote, kind, lo, hi - 1, at);
    }
  }

  lemma {:induction false} SumSplit(l: Ledger, vote: Pubkey, kind: StakeKind, lo: nat, mid: nat, hi: nat)
    requires lo <= mid <= hi
    ensures SumLamports(l, vote, kind, lo, hi)
         == SumLamports(l, vote, kind, lo, mid) + SumLamports(l, vote, kind, mid, hi)
    decreases hi - mid
  {
    if mid < hi {
      SumSplit(l, vote, kind, lo, mid, hi - 1);
    }
  }

  lemma SumOne(l: Ledger, vote: Pubkey, kind: StakeKind, seed: nat)
    ensures SumLamports(l, vote, kind, seed, seed + 1) == At(l, AccountId(vote, kind, seed)).Lamports()
  {
    assert SumLamports(l, vote, kind, seed, seed) == 0;
  }

  lemma SumBounds(l: Ledger, vote: Pubkey, kind: StakeKind, lo: nat, hi: nat, at: nat)
    requires lo <= at < hi
    ensures At(l, AccountId(vote, kind, at)).Lamports() <= SumLamports(l, vote, kind, lo, hi)
  {
    SumSplit(l, vote, kind, lo, at, hi);
    SumSplit(l, vote, kind, at, at + 1, hi);
    SumOne(l, vote, kind, at);
  }

  // ---------------------------------------------------------------- the two walks

  predicate AllLive(l: Ledger, vote: Pubkey, kind: StakeKind, lo: nat, hi: nat) {
    forall seed :: lo <= seed < hi ==> At(l, AccountId(vote, kind, seed)).Live?
  }

  /** An account that can give up all lamports that are not at stake but its rent. */
  predicate KeepsRent(a: StakeAccount) {
    a.Live? ==> STAKE_RENT <= a.balance.inactive
  }

  predicate AllKeepRent(l: Ledger, vote: Pubkey, lo: nat, hi: nat) {
    forall seed :: lo <= seed < hi ==> KeepsRent(At(l, AccountId(vote, Stake, seed)))
  }

  /** The walk over the stake accounts succeeds exactly when every account is
      live, keeps its rent, and the total fits; it takes out what skimming every
      account to its rent takes out. */
  lemma {:induction false} WalkStakeFinds(l: Ledger, l': Ledger, vote: Pubkey, lo: nat, hi: nat)
    requires forall seed :: lo <= seed < hi ==>
      At(l', AccountId(vote, Stake, seed)) == Skimmed(At(l, AccountId(vote, Stake, seed)))
    ensures WalkStake(l, vote, lo, hi).Ok? <==>
      && AllLive(l, vote, Stake, lo, hi) && AllKeepRent(l, vote, lo, hi)
      && SumLamports(l, vote, Stake, lo, hi) <= MAX_U64
    ensures WalkStake(l, vote, lo, hi).Ok? ==>
      SumLamports(l', vote, Stake, lo, hi) == WalkStake(l, vote, lo, hi).value.observed - WalkStake(l, vote, lo, hi).value.excess
    decreases hi - lo
  {
    if lo < hi {
      WalkStakeFinds(l, l', vote, lo, hi - 1);
      var last := At(l, AccountId(vote, Stake, hi - 1));
      WalkStakeStep(l, vote, lo, hi);
      if last.Live? && STAKE_RENT <= last.balance.inactive {
        assert AllLive(l, vote, Stake, lo, hi) <==> AllLive(l, vote, Stake, lo, hi - 1);
        assert AllKeepRent(l, vote, lo, hi) <==> AllKeepRent(l, vote, lo, hi - 1);
        assert At(l', AccountId(vote, Stake, hi - 1)).Lamports() == last.Lamports() - (last.balance.inactive - STAKE_RENT);
      }
    }
  }

  lemma WalkStakeStep(l: Ledger, vote: Pubkey, lo: nat, hi: nat)
    requires lo < hi
    ensures WalkStake(l, vote, lo, hi).Ok? <==>
      && WalkStake(l, vote, lo, hi - 1).Ok?
      && At(l, AccountId(vote, Stake, hi - 1)).Live?
      && KeepsRent(At(l, AccountId(vote, Stake, hi - 1)))
      && WalkStake(l, vote, lo, hi - 1).value.observed + At(l, AccountId(vote, Stake, hi - 1)).Lamports() <= MAX_U64
    ensures WalkStake(l, vote, lo, hi).Ok? ==>
      var w, last := WalkStake(l, vote, lo, hi - 1).value, At(l, AccountId(vote, Stake, hi - 1));
      WalkStake(l, vote, lo, hi).value == StakeWalk(w.observed + last.Lamports(), w.excess + (last.balance.inactive - STAKE_RENT))
  {
  }

  /** The first seed in the range whose account is not fully inactive, or the
      end of the range. */
  predicate IsInactivePrefix(l: Ledger, vote: Pubkey, lo: nat, hi: nat, begin: nat) {
    && lo <= begin
    && (lo <= hi ==> begin <= hi)
    && (forall seed :: lo <= seed < begin && seed < hi ==> At(l, AccountId(vote, Unstake, seed)).FullyInactive())
    && (begin < hi ==> !At(l, AccountId(vote, Unstake, begin)).FullyInactive())
  }

  /** One more unstake account; what is removed never exceeds what is observed. */
  lemma WalkUnstakeStep(l: Ledger, vote: Pubkey, lo: nat, hi: nat)
    requires lo < hi
    ensures WalkUnstake(l, vote, lo, hi).Ok? <==>
      && WalkUnstake(l, vote, lo, hi - 1).Ok?
      && At(l, AccountId(vote, Unstake, hi - 1)).Live?
      && WalkUnstake(l, vote, lo, hi - 1).value.observed + At(l, AccountId(vote, Unstake, hi - 1)).Lamports() <= MAX_U64
    ensures WalkUnstake(l, vote, lo, hi).Ok? ==>
      var w, w', last := WalkUnstake(l, vote, lo, hi - 1).value, WalkUnstake(l, vote, lo, hi).value, At(l, AccountId(vote, Unstake, hi - 1));
      && w'.observed == w.observed + last.Lamports()
      && if w.begin == hi - 1 && last.FullyInactive() then w'.begin == hi && w'.removed == w.removed + last.Lamports()
         else w'.begin == w.begin && w'.removed == w.removed
  {
  }

  lemma {:induction false} WalkUnstakeSucceeds(l: Ledger, vote: Pubkey, lo: nat, hi: nat)
    requires lo <= hi
    ensures WalkUnstake(l, vote, lo, hi).Ok? <==>
      AllLive(l, vote, Unstake, lo, hi) && SumLamports(l, vote, Unstake, lo, hi) <= MAX_U64
    decreases hi - lo
  {
    if lo < hi {
      WalkUnstakeSucceeds(l, vote, lo, hi - 1);
      WalkUnstakeStep(l, vote, lo, hi);
      if At(l, AccountId(vote, Unstake, hi - 1)).Live? {
        assert AllLive(l, vote, Unstake, lo, hi) <==> AllLive(l, vote, Unstake, lo, hi - 1);
      }
    }
  }

  lemma {:induction false} WalkUnstakeRemoves(l: Ledger, vote: Pubkey, lo: nat, hi: nat)
    requires lo <= hi && WalkUnstake(l, vote, lo, hi).Ok?
    ensures var w := WalkUnstake(l, vote, lo, hi).value;
      && IsInactivePrefix(l, vote, lo, hi, w.begin)
      && w.removed == SumLamports(l, vote, Unstake, lo, w.begin)
    decreases hi - lo
  {
    if lo < hi {
      WalkUnstakeStep(l, vote, lo, hi);
      WalkUnstakeRemoves(l, vote, lo, hi - 1);
    }
  }

  /** The walk over the unstake accounts removes exactly the maximal prefix of
      fully inactive accounts, and succeeds exactly when every account is live
      and the total fits. */
  lemma WalkUnstakeFinds(l: Ledger, vote: Pubkey, lo: nat, hi: nat)
    requires lo <= hi
    ensures WalkUnstake(l, vote, lo, hi).Ok? <==>
      AllLive(l, vote, Unstake, lo, hi) && SumLamports(l, vote, Unstake, lo, hi) <= MAX_U64
    ensures WalkUnstake(l, vote, lo, hi).Ok? ==>
      var w := WalkUnstake(l, vote, lo, hi).value;
      && IsInactivePrefix(l, vote, lo, hi, w.begin)
      && w.removed == SumLamports(l, vote, Unstake, lo, w.begin)
  {
    WalkUnstakeSucceeds(l, vote, lo, hi);
    if WalkUnstake(l, vote, lo, hi).Ok? {
      WalkUnstakeRemoves(l, vote, lo, hi);
    }
  }

  /** The walks only look at their own accounts. */
  lemma {:induction false} WalkStakeFrame(l: Ledger, l': Ledger, vote: Pubkey, lo: nat, hi: nat)
    requires forall id: AccountId {:trigger At(l', id)} :: id.vote == vote && id.kind == Stake ==> At(l, id) == At(l', id)
    ensures WalkStake(l, vote, lo, hi) == WalkStake(l', vote, lo, hi)
    decreases hi - lo
  {
    if lo < hi {
      WalkStakeFrame(l, l', vote, lo, hi - 1);
    }
  }

  lemma {:induction false} WalkUnstakeFrame(l: Ledger, l': Ledger, vote: Pubkey, lo: nat, hi: nat)
    requires forall id: AccountId {:trigger At(l', id)} :: id.vote == vote && id.kind == Unstake ==> At(l, id) == At(l', id)
    ensures WalkUnstake(l, vote, lo, hi) == WalkUnstake(l', vote, lo, hi)
    decreases hi - lo
  {
    if lo < hi {
      WalkUnstakeFrame(l, l', vote, lo, hi - 1);
    }
  }

  /** An examination depends on the walks alone. */
  lemma SameWalks(l: Ledger, l': Ledger, v: Validator)
    requires WalkStake(l, v.voteAccount, v.stakeSeeds.begin, v.stakeSeeds.end)
          == WalkStake(l', v.voteAccount, v.stakeSeeds.begin, v.stakeSeeds.end)
    requires WalkUnstake(l, v.voteAccount, v.unstakeSeeds.begin, v.unstakeSeeds.end)
          == WalkUnstake(l', v.voteAccount, v.unstakeSeeds.begin, v.unstakeSeeds.end)
    ensures Examine(l, v) == Examine(l', v)
  {
  }
}
