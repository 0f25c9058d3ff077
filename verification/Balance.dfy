/** Keeping the pool balanced (program/src/balance.rs): the targets, and the
    choice of validators to stake with, to unstake from and to withdraw from. */
module Balance {
  import opened Results
  import opened Token
  import opened State
  import opened LedgerFacts
  import opened Instructions
  import opened Books
  import opened Placement
  import opened Solvency

  // ---------------------------------------------------------------- sums and counts

  function Sum(xs: seq<nat>): nat {
    if xs == [] then 0 else Sum(xs[..|xs| - 1]) + xs[|xs| - 1]
  }

  function ActiveCount(vs: seq<Validator>): nat {
    if vs == [] then 0 else ActiveCount(vs[..|vs| - 1]) + if vs[|vs| - 1].IsActive() then 1 else 0
  }

  lemma {:induction false} SumUpdate(xs: seq<nat>, i: nat, x: nat)
    requires i < |xs|
    ensures Sum(xs[i := x]) == Sum(xs) - xs[i] + x
  {
    var n := |xs| - 1;
    if i < n {
      SumUpdate(xs[..n], i, x);
      assert xs[i := x][..n] == xs[..n][i := x];
    } else {
      assert xs[i := x][..n] == xs[..n];
    }
  }

  lemma {:induction false} CountPrefix(vs: seq<Validator>, k: nat)
    requires k < |vs|
    ensures ActiveCount(vs[..k]) + (if vs[k].IsActive() then 1 else 0) == ActiveCount(vs[..k + 1]) <= ActiveCount(vs)
    decreases |vs|
  {
    assert vs[..k + 1][..k] == vs[..k];
    if k + 1 < |vs| {
      var front := vs[..|vs| - 1];
      CountPrefix(front, k);
      assert front[..k + 1] == vs[..k + 1] && front[..k] == vs[..k];
    } else {
      assert vs[..k + 1] == vs;
    }
  }

  lemma {:induction false} ActiveExists(vs: seq<Validator>, i: nat)
    requires i < |vs| && vs[i].IsActive()
    ensures ActiveCount(vs) > 0
  {
    if i < |vs| - 1 {
      ActiveExists(vs[..|vs| - 1], i);
    }
  }

  // ---------------------------------------------------------------- targets

  /** The same amount for all active validators, the first ones getting one more. */
  ghost predicate Even(vs: seq<Validator>, targets: seq<nat>) {
    && |targets| == |vs|
    && (forall i :: 0 <= i < |vs| && !vs[i].IsActive() ==> targets[i] == 0)
    && (forall i, j :: 0 <= i < j < |vs| && vs[i].IsActive() && vs[j].IsActive() ==> targets[j] <= targets[i] <= targets[j] + 1)
  }

  ghost predicate Targets(vs: seq<Validator>, undelegated: nat, targets: seq<nat>) {
    Even(vs, targets) && Sum(targets) == SumStake(vs) + undelegated
  }

  /** Every active validator's share, before the remainder. */
  function Shares(vs: seq<Validator>, share: nat): seq<nat> {
    seq(|vs|, i requires 0 <= i < |vs| => if vs[i].IsActive() then share else 0)
  }

  lemma {:induction false} SumOfShares(vs: seq<Validator>, share: nat)
    ensures Sum(Shares(vs, share)) == share * ActiveCount(vs)
  {
    if vs != [] {
      SumOfShares(vs[..|vs| - 1], share);
      assert Shares(vs, share)[..|vs| - 1] == Shares(vs[..|vs| - 1], share);
      MoreShares(share, ActiveCount(vs[..|vs| - 1]));
    }
  }

  lemma MoreShares(share: nat, n: nat)
    ensures share * (n + 1) == share * n + share
  {
  }

  /** What is left after every active validator got the quotient. */
  lemma RemainderFits(total: nat, n: nat, share: nat)
    requires n > 0 && IsFloor(share, total * 1, n)
    ensures share * n <= total < share * n + n
  {
  }

  /** The first `k` active validators have got one more each. */
  ghost predicate Distributed(vs: seq<Validator>, targets: seq<nat>, share: nat, k: nat) {
    && |targets| == |vs|
    && forall i :: 0 <= i < |vs| ==> targets[i] == if !vs[i].IsActive() then 0 else if i < k then share + 1 else share
  }

  /** The quotient per active validator exists. */
  lemma ShareExists(total: nat, active: nat)
    requires total <= MAX_U64 && 0 < active
    ensures Mul(total, Rational(1, active)).Ok?
    ensures var share := Mul(total, Rational(1, active)).value;
      share * active <= total < share * active + active
  {
    MulMonotone(1, active, MAX_U64 + 1);
    RemainderFits(total, active, Mul(total, Rational(1, active)).value);
  }

  /** Gives one more lamport to the first few active validators. */
  method DistributeRemainder(vs: seq<Validator>, share: nat, left: nat) returns (targets: seq<nat>)
    requires left < ActiveCount(vs)
    ensures Even(vs, targets)
    ensures Sum(targets) == share * ActiveCount(vs) + left
  {
    targets := Shares(vs, share);
    SumOfShares(vs, share);
    ghost var base := Sum(targets);
    var remainder: nat := left;
    var i := 0;
    assert vs[..0] == [];
    while i < |vs| && remainder != 0
      invariant 0 <= i <= |vs|
      invariant Distributed(vs, targets, share, i)
      invariant Sum(targets) + remainder == base + left
      invariant remainder + ActiveCount(vs[..i]) <= ActiveCount(vs)
    {
      CountPrefix(vs, i);
      if vs[i].IsActive() {
        SumUpdate(targets, i, targets[i] + 1);
        targets := targets[i := targets[i] + 1];
        remainder := remainder - 1;
      }
      i := i + 1;
    }
    assert vs[..|vs|] == vs;
  }

  /** The ideal balance of each validator. It fails exactly if the total does not
      fit, or if nobody is active. No lamport is lost or made up, nobody inactive
      has a target, and targets are as even as whole lamports allow. */
  method GetTargetBalance(undelegated: nat, vs: seq<Validator>) returns (r: Result<seq<nat>>)
    ensures r.Ok? <==> SumStake(vs) + undelegated <= MAX_U64 && ActiveCount(vs) > 0
    ensures r.Err? ==> r.error == if SumStake(vs) + undelegated <= MAX_U64 then NoActiveValidators else CalculationFailure
    ensures r.Ok? ==> Targets(vs, undelegated, r.value)
  {
    CheckedSumIsSum(vs);
    CheckedSumError(vs);
    var delegated :- CheckedSumStake(vs);
    var total :- Add(delegated, undelegated);
    var active := ActiveCount(vs);
    if active == 0 {
      return Err(NoActiveValidators);
    }
    ShareExists(total, active);
    var share := Mul(total, Rational(1, active)).Extract();
    SumOfShares(vs, share);
    var distributed := Sum(Shares(vs, share));
    var remainder: nat := total - distributed;
    assert remainder < active;
    var targets := DistributeRemainder(vs, share, remainder);
    assert Sum(targets) == total;
    r := Ok(targets);
  }

  /** There is only one way to divide a total evenly, so the properties of the
      targets determine them. */
  lemma {:induction false} TargetsAreUnique(vs: seq<Validator>, xs: seq<nat>, ys: seq<nat>)
    requires Even(vs, xs) && Even(vs, ys) && Sum(xs) == Sum(ys)
    ensures xs == ys
  {
    if xs != ys {
      var i :| 0 <= i < |xs| && xs[i] != ys[i];
      if xs[i] < ys[i] {
        SmallerSomewhere(vs, xs, ys, i);
      } else {
        SmallerSomewhere(vs, ys, xs, i);
      }
    }
  }

  /** If one even division gives less to somebody, it gives no more to anybody
      and so has a smaller total. */
  lemma SmallerSomewhere(vs: seq<Validator>, xs: seq<nat>, ys: seq<nat>, i: nat)
    requires Even(vs, xs) && Even(vs, ys) && i < |vs| && xs[i] < ys[i]
    ensures Sum(xs) < Sum(ys)
  {
    forall j | 0 <= j < |vs|
      ensures xs[j] <= ys[j]
    {
      if j < i && vs[j].IsActive() {
        assert xs[i] <= xs[j] <= xs[i] + 1 && ys[i] <= ys[j] <= ys[i] + 1;
      } else if i < j && vs[j].IsActive() {
        assert xs[j] <= xs[i] <= xs[j] + 1 && ys[j] <= ys[i] <= ys[j] + 1;
      }
    }
    SumStrict(xs, ys, i);
  }

  lemma {:induction false} SumStrict(xs: seq<nat>, ys: seq<nat>, i: nat)
    requires |xs| == |ys| && i < |xs| && xs[i] < ys[i]
    requires forall j :: 0 <= j < |xs| ==> xs[j] <= ys[j]
    ensures Sum(xs) < Sum(ys)
  {
    var n := |xs| - 1;
    if i < n {
      SumStrict(xs[..n], ys[..n], i);
    } else {
      SumMonotoneSeq(xs[..n], ys[..n]);
    }
  }

  lemma {:induction false} SumMonotoneSeq(xs: seq<nat>, ys: seq<nat>)
    requires |xs| == |ys| && forall j :: 0 <= j < |xs| ==> xs[j] <= ys[j]
    ensures Sum(xs) <= Sum(ys)
  {
    if xs != [] {
      SumMonotoneSeq(xs[..|xs| - 1], ys[..|ys| - 1]);
    }
  }

  // ---------------------------------------------------------------- choosing where to stake

  function Effective(v: Validator): nat {
    if v.ComputeEffective().Ok? then v.ComputeEffective().value else 0
  }

  function SaturatingSub(a: nat, b: nat): nat {
    if b <= a then a - b else 0
  }

  /** The first active validator with the least effective balance. */
  ghost predicate IsFirstMinimum(vs: seq<Validator>, index: nat) {
    && index < |vs| && vs[index].IsActive()
    && (forall j :: 0 <= j < |vs| && vs[j].IsActive() ==> Effective(vs[index]) <= Effective(vs[j]))
    && (forall j :: 0 <= j < index && vs[j].IsActive() ==> Effective(vs[index]) < Effective(vs[j]))
  }

  method GetMinimumStakeValidatorIndexAmount(vs: seq<Validator>, targets: seq<nat>) returns (index: nat, amount: nat)
    requires |vs| == |targets|
    requires ActiveCount(vs) > 0
    ensures IsFirstMinimum(vs, index)
    ensures amount == SaturatingSub(targets[index], Effective(vs[index]))
  {
    index := 0;
    assert vs[..0] == [];
    while !vs[index].IsActive()
      invariant index < |vs| && ActiveCount(vs[..index]) == 0
      invariant forall j :: 0 <= j < index ==> !vs[j].IsActive()
      decreases |vs| - index
    {
      CountPrefix(vs, index);
      assert vs[..|vs|] == vs;
      index := index + 1;
    }
    ghost var first := index;
    var lowest := Effective(vs[index]);
    amount := SaturatingSub(targets[index], lowest);
    for i := 0 to |vs|
      invariant first <= index < |vs| && vs[index].IsActive() && lowest == Effective(vs[index])
      invariant index < i || index == first
      invariant amount == SaturatingSub(targets[index], lowest)
      invariant forall j :: 0 <= j < i && vs[j].IsActive() ==> lowest <= Effective(vs[j])
      invariant forall j :: 0 <= j < index && vs[j].IsActive() ==> lowest < Effective(vs[j])
    {
      if vs[i].IsActive() && Effective(vs[i]) < lowest {
        index := i;
        amount := SaturatingSub(targets[i], Effective(vs[i]));
        lowest := Effective(vs[i]);
      }
    }
  }

  /** The off-chain choice passes the on-chain checks of a stake deposit. */
  lemma MinimumPassesCheck(s: State, index: nat)
    requires BooksInv(s) && IsFirstMinimum(s.validators, index)
    ensures MinimumActive(s.validators).Ok?
    ensures s.validators[index].effectiveStakeBalance <= MinimumActive(s.validators).value
  {
    MinimumActiveIsLeast(s.validators);
    forall i | 0 <= i < |s.validators|
      ensures Effective(s.validators[i]) == s.validators[i].effectiveStakeBalance
    {
      assert Accounted(s.accounts, s.validators[i]);
    }
  }

  /** In a reachable state, staking any amount from the minimum up to all of the
      available reserve with the chosen validator succeeds, unless the tracked
      balance would no longer fit, or somebody took over the address. */
  lemma ChosenStakeDepositSucceeds(s: State, index: nat, amount: nat, credits: nat)
    requires Inv(s) && IsFirstMinimum(s.validators, index)
    requires MINIMUM_STAKE_ACCOUNT_BALANCE <= amount && RESERVE_RENT + amount <= s.reserve
    ensures var v := s.validators[index];
      StakeDeposit(s, amount, index, v.voteAccount, Append(credits)).Ok? <==>
        && v.stakeAccountsBalance + amount <= MAX_U64
        && At(s.accounts, AccountId(v.voteAccount, Stake, v.stakeSeeds.end)).IsFree()
  {
    var v := s.validators[index];
    MinimumPassesCheck(s, index);
    assert Accounted(s.accounts, v);
    assert PlacedAt(s.accounts, s.gifts, v, AccountId(v.voteAccount, Stake, v.stakeSeeds.end));
  }

  lemma {:induction false} ActiveStakeBound(vs: seq<Validator>, low: nat)
    requires forall j :: 0 <= j < |vs| && vs[j].IsActive() ==> low <= vs[j].stakeAccountsBalance
    ensures low * ActiveCount(vs) <= SumStake(vs)
  {
    if vs != [] {
      ActiveStakeBound(vs[..|vs| - 1], low);
      MoreShares(low, ActiveCount(vs[..|vs| - 1]));
    }
  }

  lemma {:induction false} TargetsBound(vs: seq<Validator>, targets: seq<nat>, high: nat)
    requires |vs| == |targets|
    requires forall j :: 0 <= j < |vs| ==> targets[j] <= if vs[j].IsActive() then high else 0
    ensures Sum(targets) <= high * ActiveCount(vs)
  {
    if vs != [] {
      TargetsBound(vs[..|vs| - 1], targets[..|vs| - 1], high);
      MoreShares(high, ActiveCount(vs[..|vs| - 1]));
    }
  }

  /** With at least one undelegated lamport per active validator, the chosen
      validator is below its target. */
  lemma ShortfallIsPositive(vs: seq<Validator>, undelegated: nat, targets: seq<nat>, index: nat)
    requires Targets(vs, undelegated, targets) && IsFirstMinimum(vs, index)
    requires forall j :: 0 <= j < |vs| ==> vs[j].ComputeEffective().Ok?
    requires ActiveCount(vs) <= undelegated
    ensures Effective(vs[index]) < targets[index]
  {
    var n, low, target := ActiveCount(vs), Effective(vs[index]), targets[index];
    ActiveStakeBound(vs, low);
    if target <= low {
      forall j | 0 <= j < |vs|
        ensures targets[j] <= if vs[j].IsActive() then target + 1 else 0
      {
        assert j < index && vs[j].IsActive() ==> targets[j] <= target + 1;
        assert index < j && vs[j].IsActive() ==> targets[j] <= target;
      }
      TargetsBelow(vs, targets, target + 1, index);
      AverageBelow(low, target, n, SumStake(vs), undelegated);
    }
  }

  lemma AverageBelow(low: nat, target: nat, n: nat, staked: nat, undelegated: nat)
    requires low * n <= staked && n <= undelegated && staked + undelegated < (target + 1) * n
    ensures low < target
  {
    MoreShares(n, low);
    if target <= low {
      MulMonotone(target + 1, low + 1, n);
    }
  }

  /** A bound that somebody stays strictly below. */
  lemma {:induction false} TargetsBelow(vs: seq<Validator>, targets: seq<nat>, high: nat, index: nat)
    requires |vs| == |targets| && index < |vs| && vs[index].IsActive() && targets[index] < high
    requires forall j :: 0 <= j < |vs| ==> targets[j] <= if vs[j].IsActive() then high else 0
    ensures Sum(targets) < high * ActiveCount(vs)
  {
    var n := |vs| - 1;
    MoreShares(high, ActiveCount(vs[..n]));
    if index < n {
      TargetsBelow(vs[..n], targets[..n], high, index);
    } else {
      TargetsBound(vs[..n], targets[..n], high);
    }
  }

  // ---------------------------------------------------------------- choosing where to withdraw

  /** The last validator with the greatest value of a measure. */
  ghost predicate IsLastMaximum(measure: seq<nat>, index: nat) {
    && index < |measure|
    && (forall j :: 0 <= j < |measure| ==> measure[j] <= measure[index])
    && (forall j :: index < j < |measure| ==> measure[j] < measure[index])
  }

  function LastMaximum(measure: seq<nat>): (index: nat)
    requires measure != []
    ensures IsLastMaximum(measure, index)
  {
    var n := |measure| - 1;
    if n == 0 then 0
    else
      var front := LastMaximum(measure[..n]);
      if measure[n] >= measure[front] then n else front
  }

  function Measures(vs: seq<Validator>): seq<nat> {
    seq(|vs|, i requires 0 <= i < |vs| => Effective(vs[i]))
  }

  function GetValidatorToWithdraw(vs: seq<Validator>): Result<nat> {
    if vs == [] then Err(NoActiveValidators) else Ok(LastMaximum(Measures(vs)))
  }

  /** The choice is the last validator with the most effective stake, and there is one
      if there is any validator. */
  lemma WithdrawalChoice(vs: seq<Validator>)
    requires forall i :: 0 <= i < |vs| ==> vs[i].ComputeEffective().Ok?
    ensures GetValidatorToWithdraw(vs) == Err(NoActiveValidators) <==> vs == []
    ensures vs != [] ==>
      && GetValidatorToWithdraw(vs).Ok?
      && var index := GetValidatorToWithdraw(vs).value;
      && index < |vs|
      && (forall i :: 0 <= i < |vs| ==> ExcessOf(vs[i], 0) <= ExcessOf(vs[index], 0))
      && (forall i :: index < i < |vs| ==> ExcessOf(vs[i], 0) < ExcessOf(vs[index], 0))
  {
    forall i | 0 <= i < |vs|
      ensures Measures(vs)[i] == ExcessOf(vs[i], 0)
    {
    }
  }

  /** The off-chain choice passes the on-chain checks of a withdrawal, as far as
      they compare validators. */
  lemma MaximumPassesCheck(s: State)
    requires BooksInv(s) && GetValidatorToWithdraw(s.validators).Ok?
    ensures MaximumEffective(s.validators).Ok?
    ensures var index := GetValidatorToWithdraw(s.validators).value;
      index < |s.validators| && MaximumEffective(s.validators).value <= s.validators[index].effectiveStakeBalance
  {
    var vs := s.validators;
    MaximumEffectiveIsGreatest(vs);
    forall i | 0 <= i < |vs|
      ensures Measures(vs)[i] == vs[i].effectiveStakeBalance
    {
      assert Accounted(s.accounts, vs[i]);
    }
  }

  /** In a reachable state with an up-to-date rate, a withdrawal from the chosen
      validator of an amount within the limits, within what is tracked, and of more
      than the rent of the user's account, succeeds. */
  lemma ChosenWithdrawalSucceeds(s: State, amount: nat, sol: nat, payout: Payout)
    requires Inv(s) && GetValidatorToWithdraw(s.validators).Ok? && s.epoch <= s.rate.computedInEpoch
    requires var v := s.validators[GetValidatorToWithdraw(s.validators).value];
      var source := At(s.accounts, AccountId(v.voteAccount, Stake, v.stakeSeeds.begin)).Lamports();
      && 0 < v.effectiveStakeBalance && sol <= v.effectiveStakeBalance
      && CheckWithdrawAmount(source, sol).Ok? && payout.remainder.Total() + sol == source
      && CanReceive(payout.destination, sol)
    requires ExchangeStSol(s.rate, amount) == Ok(sol) && amount <= s.supply && WithdrawalObserved(s.metrics, amount, sol).Ok?
    ensures var index := GetValidatorToWithdraw(s.validators).value;
      Withdraw(s, amount, index, s.validators[index].voteAccount, payout).Ok?
  {
    var index := GetValidatorToWithdraw(s.validators).value;
    var v := s.validators[index];
    MaximumPassesCheck(s);
    StakedHasAccount(s.accounts, v);
    assert PlacedAt(s.accounts, s.gifts, v, AccountId(v.voteAccount, Stake, v.stakeSeeds.begin));
  }

  // ---------------------------------------------------------------- choosing where to unstake

  function Excesses(vs: seq<Validator>, targets: seq<nat>): seq<nat>
    requires |vs| == |targets|
  {
    seq(|vs|, i requires 0 <= i < |vs| => SaturatingSub(Effective(vs[i]), targets[i]))
  }

  /** Below its target by at least the threshold. */
  predicate FarBelow(v: Validator, target: nat, threshold: Rational) {
    target != 0 && AtLeast(Rational(SaturatingSub(target, Effective(v)), target), threshold)
  }

  predicate FarAbove(v: Validator, target: nat, threshold: Rational) {
    AtLeast(Rational(SaturatingSub(Effective(v), target), target), threshold)
  }

  predicate AnyFarBelow(vs: seq<Validator>, targets: seq<nat>, threshold: Rational)
    requires |vs| == |targets|
  {
    exists i :: 0 <= i < |vs| && FarBelow(vs[i], targets[i], threshold)
  }

  /** The validator that is furthest above its target, and by how much, if it or
      a validator below its target is far enough away. */
  function GetUnstakeValidatorIndex(vs: seq<Validator>, targets: seq<nat>, threshold: Rational): Option<(nat, nat)>
    requires |vs| == |targets|
  {
    if vs == [] then None
    else
      var index := LastMaximum(Excesses(vs, targets));
      var amount := SaturatingSub(Effective(vs[index]), targets[index]);
      if FarAbove(vs[index], targets[index], threshold) || AnyFarBelow(vs, targets, threshold)
      then Some((index, amount)) else None
  }

  /** How much stake a validator has above its target, if any. */
  function ExcessOf(v: Validator, target: nat): nat {
    var above := v.stakeAccountsBalance - v.unstakeAccountsBalance - target;
    if 0 <= above then above else 0
  }

  /** The proposal is to unstake all of the largest excess over a target, from the last
      validator that has it. */
  lemma UnstakeChoice(vs: seq<Validator>, targets: seq<nat>, threshold: Rational)
    requires |vs| == |targets| && GetUnstakeValidatorIndex(vs, targets, threshold).Some?
    requires forall i :: 0 <= i < |vs| ==> vs[i].ComputeEffective().Ok?
    ensures var (index, amount) := GetUnstakeValidatorIndex(vs, targets, threshold).value;
      && index < |vs| && amount == ExcessOf(vs[index], targets[index])
      && (forall i :: 0 <= i < |vs| ==> ExcessOf(vs[i], targets[i]) <= amount)
      && (forall i :: index < i < |vs| ==> ExcessOf(vs[i], targets[i]) < amount)
      && (!AnyFarBelow(vs, targets, threshold) && 0 < threshold.numerator ==> 0 < amount)
  {
    var index, excesses := Furthest(vs, targets), Excesses(vs, targets);
    forall i | 0 <= i < |vs|
      ensures excesses[i] == ExcessOf(vs[i], targets[i])
    {
    }
    if !AnyFarBelow(vs, targets, threshold) && excesses[index] == 0 {
      NothingIsNotFar(targets[index], threshold);
    }
  }

  lemma NothingIsNotFar(target: nat, threshold: Rational)
    requires AtLeast(Rational(0, target), threshold)
    ensures threshold.numerator == 0
  {
    if 0 < threshold.numerator {
      MulMonotone(1, threshold.numerator, target);
    }
  }

  predicate AnyFarAbove(vs: seq<Validator>, targets: seq<nat>, threshold: Rational)
    requires |vs| == |targets|
  {
    exists i :: 0 <= i < |vs| && FarAbove(vs[i], targets[i], threshold)
  }

  /** Some validator has a target of zero and stake: however large the threshold,
      it is further away. */
  predicate AnyStranded(vs: seq<Validator>, targets: seq<nat>)
    requires |vs| == |targets|
  {
    exists i :: 0 <= i < |vs| && targets[i] == 0 && Effective(vs[i]) > 0
  }

  /** The validator that is furthest above its target. */
  function Furthest(vs: seq<Validator>, targets: seq<nat>): (index: nat)
    requires |vs| == |targets| && vs != []
    ensures IsLastMaximum(Excesses(vs, targets), index)
  {
    LastMaximum(Excesses(vs, targets))
  }

  /** The reach of an excess on a target carries over to no smaller an excess on a
      target that is no larger; and to a larger one on a target that is larger by one,
      if the threshold is at most one. */
  lemma ReachCarriesOver(excess: nat, target: nat, excess': nat, target': nat, threshold: Rational)
    requires AtLeast(Rational(excess, target), threshold) && 0 < target'
    requires || (excess <= excess' && target' <= target)
      || (excess < excess' && target' <= target + 1 && threshold.numerator <= threshold.denominator)
    ensures AtLeast(Rational(excess', target'), threshold)
  {
    var n, d := threshold.numerator, threshold.denominator;
    if target' <= target {
      MulMonotone(target', target, n);
      MulMonotone(excess, excess', d);
    } else {
      MulMonotone(excess + 1, excess', d);
      Distributes(excess, 1, d);
      MulMonotone(target', target + 1, n);
      Distributes(target, 1, n);
    }
  }

  /** Somebody is far above a target that is no smaller than that of the furthest. */
  predicate FarAboveFurthest(vs: seq<Validator>, targets: seq<nat>, threshold: Rational)
    requires |vs| == |targets| && vs != []
  {
    exists i :: 0 <= i < |vs| && FarAbove(vs[i], targets[i], threshold) && 0 < targets[Furthest(vs, targets)] <= targets[i]
  }

  /** Unstaking is proposed exactly if somebody is far below the target, or somebody is
      far above it and is not hidden: the furthest validator has a target, and one that
      is no larger. */
  lemma UnstakeIff(vs: seq<Validator>, targets: seq<nat>, threshold: Rational)
    requires |vs| == |targets|
    ensures GetUnstakeValidatorIndex(vs, targets, threshold).Some? <==>
      vs != [] && (AnyFarBelow(vs, targets, threshold) || FarAboveFurthest(vs, targets, threshold))
  {
    if vs != [] {
      var index, excesses := Furthest(vs, targets), Excesses(vs, targets);
      if FarAbove(vs[index], targets[index], threshold) {
        assert FarAboveFurthest(vs, targets, threshold);
      }
      if FarAboveFurthest(vs, targets, threshold) {
        var i :| 0 <= i < |vs| && FarAbove(vs[i], targets[i], threshold) && 0 < targets[index] <= targets[i];
        assert excesses[i] <= excesses[index];
        ReachCarriesOver(excesses[i], targets[i], excesses[index], targets[index], threshold);
      }
    }
  }

  /** With the targets that the pool computes, and a threshold of at most one, a target
      that is larger by one hides nobody. */
  lemma EvenTargetsHideNobody(vs: seq<Validator>, targets: seq<nat>, threshold: Rational)
    requires Even(vs, targets) && threshold.numerator <= threshold.denominator && vs != []
    requires !AnyFarBelow(vs, targets, threshold)
    ensures GetUnstakeValidatorIndex(vs, targets, threshold).Some? <==>
      AnyFarAbove(vs, targets, threshold) && targets[Furthest(vs, targets)] > 0
  {
    var index, excesses := Furthest(vs, targets), Excesses(vs, targets);
    if AnyFarAbove(vs, targets, threshold) && targets[index] > 0 {
      var i :| 0 <= i < |vs| && FarAbove(vs[i], targets[i], threshold);
      assert vs[i].IsActive() && vs[index].IsActive();
      assert excesses[i] <= excesses[index] && (index < i ==> excesses[i] < excesses[index]);
      ReachCarriesOver(excesses[i], targets[i], excesses[index], targets[index], threshold);
    }
    if FarAbove(vs[index], targets[index], threshold) {
      assert AnyFarAbove(vs, targets, threshold);
    }
  }

  /** Some validator is at least the threshold away from its target. */
  predicate AnyAway(vs: seq<Validator>, targets: seq<nat>, threshold: Rational)
    requires |vs| == |targets|
  {
    AnyFarBelow(vs, targets, threshold) || AnyFarAbove(vs, targets, threshold) || AnyStranded(vs, targets)
  }

  /** A validator that is too far away is missed exactly if nobody is far below, and
      everybody who is far above is hidden by an excess that is no smaller, on no target
      or on a larger one. */
  lemma MissedIff(vs: seq<Validator>, targets: seq<nat>, threshold: Rational)
    requires |vs| == |targets| && AnyAway(vs, targets, threshold)
    ensures GetUnstakeValidatorIndex(vs, targets, threshold).None? <==>
      && !AnyFarBelow(vs, targets, threshold)
      && var target := targets[Furthest(vs, targets)];
      forall i :: 0 <= i < |vs| && FarAbove(vs[i], targets[i], threshold) ==> target == 0 || targets[i] < target
  {
    UnstakeIff(vs, targets, threshold);
  }

  /** With the pool's targets and a threshold of at most one, it is missed exactly if
      nobody is far below, and nobody with a target is far above or the largest excess
      belongs to an inactive validator. (With fewer lamports than active validators,
      some active ones have no target either.) */
  lemma MissedByPoolIff(vs: seq<Validator>, undelegated: nat, targets: seq<nat>, threshold: Rational)
    requires Targets(vs, undelegated, targets) && threshold.numerator <= threshold.denominator
    requires AnyAway(vs, targets, threshold)
    ensures GetUnstakeValidatorIndex(vs, targets, threshold).None? <==>
      && !AnyFarBelow(vs, targets, threshold)
      && (!AnyFarAbove(vs, targets, threshold) || targets[Furthest(vs, targets)] == 0)
    ensures ActiveCount(vs) <= SumStake(vs) + undelegated ==>
      (targets[Furthest(vs, targets)] == 0 <==> !vs[Furthest(vs, targets)].IsActive())
  {
    if !AnyFarBelow(vs, targets, threshold) {
      EvenTargetsHideNobody(vs, targets, threshold);
    }
    if ActiveCount(vs) <= SumStake(vs) + undelegated {
      ActiveHasTarget(vs, targets, Furthest(vs, targets));
    }
  }

  /** With a lamport for every active validator, the others are those without a target. */
  lemma ActiveHasTarget(vs: seq<Validator>, targets: seq<nat>, index: nat)
    requires Even(vs, targets) && ActiveCount(vs) <= Sum(targets) && index < |vs|
    ensures vs[index].IsActive() <==> targets[index] > 0
  {
    if vs[index].IsActive() && targets[index] == 0 {
      TargetsBelow(vs, targets, 1, index);
    }
  }

  /** A zero target compares with no threshold. */
  lemma ZeroTargetIsNeverFar(v: Validator, threshold: Rational)
    ensures !FarAbove(v, 0, threshold) && !FarBelow(v, 0, threshold)
  {
  }

  // ---------------------------------------------------------------- a missed validator

  function WithStake(stake: nat, status: Status): Validator {
    NewValidator(0).(stakeAccountsBalance := stake, effectiveStakeBalance := stake, status := status)
  }

  /** An inactive validator with 7 units, and active ones with 66, 55, 56 and 56. */
  function Hiding(unit: nat): seq<Validator> {
    [WithStake(7 * unit, StakesSuspended), WithStake(66 * unit, AcceptingStakes), WithStake(55 * unit, AcceptingStakes),
     WithStake(56 * unit, AcceptingStakes), WithStake(56 * unit, AcceptingStakes)]
  }

  function HidingTargets(unit: nat): seq<nat> {
    [0, 60 * unit, 60 * unit, 60 * unit, 60 * unit]
  }

  lemma SumSnoc(xs: seq<nat>, x: nat)
    ensures Sum(xs + [x]) == Sum(xs) + x
  {
    assert (xs + [x])[..|xs|] == xs;
  }

  lemma SumOfFive(a: nat, b: nat, c: nat, d: nat, e: nat)
    ensures Sum([a, b, c, d, e]) == a + b + c + d + e
  {
    SumSnoc([], a);
    assert [] + [a] == [a];
    SumSnoc([a], b);
    assert [a] + [b] == [a, b];
    SumSnoc([a, b], c);
    assert [a, b] + [c] == [a, b, c];
    SumSnoc([a, b, c], d);
    assert [a, b, c] + [d] == [a, b, c, d];
    SumSnoc([a, b, c, d], e);
    assert [a, b, c, d] + [e] == [a, b, c, d, e];
  }

  lemma {:induction false} SumStakeIsSum(vs: seq<Validator>)
    ensures SumStake(vs) == Sum(seq(|vs|, i requires 0 <= i < |vs| => vs[i].stakeAccountsBalance))
  {
    if vs != [] {
      var n := |vs| - 1;
      var stakes := seq(|vs|, i requires 0 <= i < |vs| => vs[i].stakeAccountsBalance);
      SumStakeIsSum(vs[..n]);
      assert stakes[..n] == seq(n, i requires 0 <= i < n => vs[..n][i].stakeAccountsBalance);
    }
  }

  lemma HiddenFurthest(unit: nat)
    requires 0 < unit
    ensures Furthest(Hiding(unit), HidingTargets(unit)) == 0
  {
    var excesses := Excesses(Hiding(unit), HidingTargets(unit));
    assert excesses[0] == 7 * unit && excesses[1] == 6 * unit;
    assert excesses[2] == 0 && excesses[3] == 0 && excesses[4] == 0;
  }

  /** Such a list has its targets, validator 1 is a tenth above its own, and still
      nothing is proposed: the inactive validator is furthest. */
  lemma HidingExample(unit: nat)
    requires 0 < unit
    ensures Targets(Hiding(unit), 0, HidingTargets(unit))
    ensures FarAbove(Hiding(unit)[1], HidingTargets(unit)[1], Rational(1, 10))
    ensures GetUnstakeValidatorIndex(Hiding(unit), HidingTargets(unit), Rational(1, 10)).None?
  {
    var vs, targets := Hiding(unit), HidingTargets(unit);
    SumOfFive(0, 60 * unit, 60 * unit, 60 * unit, 60 * unit);
    SumOfFive(7 * unit, 66 * unit, 55 * unit, 56 * unit, 56 * unit);
    SumStakeIsSum(vs);
    assert seq(|vs|, i requires 0 <= i < |vs| => vs[i].stakeAccountsBalance) == [7 * unit, 66 * unit, 55 * unit, 56 * unit, 56 * unit];
    HiddenFurthest(unit);
    assert !FarAbove(vs[0], targets[0], Rational(1, 10));
    assert !AnyFarBelow(vs, targets, Rational(1, 10));
  }
}
