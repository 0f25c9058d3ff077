/** With the rate fixed, the order of deposits and reward observations does not
    matter: every order arrives at the same state. */
module Order {
  import opened Bytes
  import opened Results
  import opened Token
  import opened State
  import opened Instructions
  import opened LedgerFacts
  import opened Books
  import opened Updates
  import opened Permutations

  // ---------------------------------------------------------------- what a step posts

  /** The part of the state that all deposits and observations add to. */
  datatype Totals = Totals(supply: nat, metrics: Metrics)

  /** An amount of stSOL to mint, and what to record with it. */
  datatype Entry = DepositEntry(amount: nat, minted: nat) | FeeEntry(payment: Payment)

  function Post(t: Totals, e: Entry): Result<Totals> {
    match e
    case DepositEntry(amount, minted) =>
      var supply :- Mint(t.supply, minted);
      var deposits :- Observed(t.metrics.deposits, amount);
      Ok(Totals(supply, t.metrics.(deposits := deposits)))
    case FeeEntry(payment) =>
      var supply :- MintFees(t.supply, payment);
      var metrics :- FeesObserved(t.metrics, payment);
      Ok(Totals(supply, metrics))
  }

  function PostBoth(t: Totals, e: Entry, f: Entry): Result<Totals> {
    var u :- Post(t, e);
    Post(u, f)
  }

  lemma FeePostFits(t: Totals, p: Payment)
    ensures Post(t, FeeEntry(p)).Ok? <==>
      && t.supply + p.treasury + p.developer <= MAX_U64
      && t.metrics.feeTreasurySol + p.fees.treasury <= MAX_U64 && t.metrics.feeTreasuryStSol + p.treasury <= MAX_U64
      && t.metrics.feeDeveloperSol + p.fees.developer <= MAX_U64 && t.metrics.feeDeveloperStSol + p.developer <= MAX_U64
      && t.metrics.appreciationSol + p.fees.appreciation <= MAX_U64
    ensures Post(t, FeeEntry(p)).Ok? ==>
      var m := t.metrics;
      Post(t, FeeEntry(p)).value == Totals(t.supply + p.treasury + p.developer, m.(
        feeTreasurySol := m.feeTreasurySol + p.fees.treasury, feeTreasuryStSol := m.feeTreasuryStSol + p.treasury,
        feeDeveloperSol := m.feeDeveloperSol + p.fees.developer, feeDeveloperStSol := m.feeDeveloperStSol + p.developer,
        appreciationSol := m.appreciationSol + p.fees.appreciation))
  {
  }

  lemma BucketsCommute(c: Counts, x: nat, y: nat)
    ensures Bucketed(Bucketed(c, x), y) == Bucketed(Bucketed(c, y), x)
  {
  }

  /** Posting in either order succeeds together and gives the same totals. */
  lemma PostsCommute(t: Totals, e: Entry, f: Entry)
    requires PostBoth(t, e, f).Ok?
    ensures PostBoth(t, f, e) == PostBoth(t, e, f)
  {
    match (e, f)
    case (DepositEntry(x, _), DepositEntry(y, _)) => BucketsCommute(t.metrics.deposits.counts, x, y);
    case (FeeEntry(p), FeeEntry(q)) => FeePostsCommute(t, p, q);
    case (DepositEntry(x, m), FeeEntry(q)) => DepositFeeCommute(t, x, m, q);
    case (FeeEntry(p), DepositEntry(y, m)) => DepositFeeCommute(t, y, m, p);
  }

  lemma FeePostsCommute(t: Totals, p: Payment, q: Payment)
    requires PostBoth(t, FeeEntry(p), FeeEntry(q)).Ok?
    ensures PostBoth(t, FeeEntry(q), FeeEntry(p)) == PostBoth(t, FeeEntry(p), FeeEntry(q))
  {
    FeePostFits(t, p);
    FeePostFits(t, q);
    FeePostFits(Post(t, FeeEntry(p)).value, q);
    FeePostFits(Post(t, FeeEntry(q)).value, p);
  }

  lemma DepositFeeCommute(t: Totals, x: nat, minted: nat, q: Payment)
    ensures PostBoth(t, DepositEntry(x, minted), FeeEntry(q)).Ok? <==> PostBoth(t, FeeEntry(q), DepositEntry(x, minted)).Ok?
    ensures PostBoth(t, DepositEntry(x, minted), FeeEntry(q)).Ok? ==>
      PostBoth(t, DepositEntry(x, minted), FeeEntry(q)).value == PostBoth(t, FeeEntry(q), DepositEntry(x, minted)).value
  {
    FeePostFits(t, q);
    if Post(t, DepositEntry(x, minted)).Ok? {
      FeePostFits(Post(t, DepositEntry(x, minted)).value, q);
    }
  }

  // ---------------------------------------------------------------- what a step does

  predicate OrderFree(step: Step) {
    step.DepositStep? || step.UpdateBalanceStep?
  }

  function TotalsOf(s: State): Totals {
    Totals(s.supply, s.metrics)
  }

  function Posted(s: State, t: Totals): State {
    s.(supply := t.supply, metrics := t.metrics)
  }

  /** A deposit posts one entry and adds to the reserve. */
  lemma DepositPosts(s: State, amount: nat)
    ensures Deposit(s, amount).Ok? <==>
      && amount != 0 && ExchangeSol(s.rate, amount).Ok?
      && Post(TotalsOf(s), DepositEntry(amount, ExchangeSol(s.rate, amount).value)).Ok?
    ensures Deposit(s, amount).Ok? ==>
      Deposit(s, amount).value
      == Posted(s, Post(TotalsOf(s), DepositEntry(amount, ExchangeSol(s.rate, amount).value)).value).(reserve := s.reserve + amount)
  {
  }

  /** Fees post one entry, if there are any rewards. */
  lemma FeesPost(s: State, rewards: nat)
    requires rewards > 0
    ensures DistributeFees(s, rewards).Ok? <==>
      FeePayment(s, rewards).Ok? && Post(TotalsOf(s), FeeEntry(FeePayment(s, rewards).value)).Ok?
    ensures DistributeFees(s, rewards).Ok? ==>
      DistributeFees(s, rewards).value == Posted(s, Post(TotalsOf(s), FeeEntry(FeePayment(s, rewards).value)).value)
  {
  }

  /** Two states on which conversions and fees are the same. */
  predicate SameTerms(s: State, t: State) {
    s.rate == t.rate && s.distribution == t.distribution && s.epoch == t.epoch
  }

  /** Fees depend only on the terms and the totals. */
  lemma FeesFrame(s: State, t: State, rewards: nat)
    requires SameTerms(s, t) && TotalsOf(s) == TotalsOf(t)
    ensures DistributeFees(s, rewards).Ok? <==> DistributeFees(t, rewards).Ok?
    ensures DistributeFees(s, rewards).Ok? ==>
      DistributeFees(t, rewards).value == Posted(t, TotalsOf(DistributeFees(s, rewards).value))
  {
  }

  lemma FeesCommute(s: State, x: nat, y: nat)
    requires DistributeFees(s, x).Ok? && DistributeFees(DistributeFees(s, x).value, y).Ok?
    ensures DistributeFees(s, y).Ok?
    ensures DistributeFees(DistributeFees(s, y).value, x) == DistributeFees(DistributeFees(s, x).value, y)
  {
    if x > 0 && y > 0 {
      FeesPost(s, x);
      FeesPost(s, y);
      var p, q := FeePayment(s, x).value, FeePayment(s, y).value;
      FeesPost(DistributeFees(s, x).value, y);
      PostsCommute(TotalsOf(s), FeeEntry(p), FeeEntry(q));
      FeesPost(DistributeFees(s, y).value, x);
    }
  }

  lemma DepositsCommute(s: State, x: nat, y: nat)
    requires Deposit(s, x).Ok? && Deposit(Deposit(s, x).value, y).Ok?
    ensures Deposit(s, y).Ok? && Deposit(Deposit(s, y).value, x) == Deposit(Deposit(s, x).value, y)
  {
    DepositPosts(s, x);
    DepositPosts(s, y);
    DepositPosts(Deposit(s, x).value, y);
    PostsCommute(TotalsOf(s), DepositEntry(x, ExchangeSol(s.rate, x).value), DepositEntry(y, ExchangeSol(s.rate, y).value));
    DepositPosts(Deposit(s, y).value, x);
  }

  /** A deposit and the distribution of fees, in either order. */
  lemma DepositFeesCommute(s: State, x: nat, rewards: nat)
    ensures Deposit(s, x).Ok? && DistributeFees(Deposit(s, x).value, rewards).Ok?
       <==> DistributeFees(s, rewards).Ok? && Deposit(DistributeFees(s, rewards).value, x).Ok?
    ensures Deposit(s, x).Ok? && DistributeFees(Deposit(s, x).value, rewards).Ok? ==>
      DistributeFees(Deposit(s, x).value, rewards) == Deposit(DistributeFees(s, rewards).value, x)
  {
    if rewards > 0 {
      DepositPosts(s, x);
      FeesPost(s, rewards);
      if ExchangeSol(s.rate, x).Ok? && FeePayment(s, rewards).Ok? {
        DepositFeeCommute(TotalsOf(s), x, ExchangeSol(s.rate, x).value, FeePayment(s, rewards).value);
      }
      if Deposit(s, x).Ok? {
        FeesPost(Deposit(s, x).value, rewards);
      }
      if DistributeFees(s, rewards).Ok? {
        DepositPosts(DistributeFees(s, rewards).value, x);
      }
    }
  }

  // ---------------------------------------------------------------- swapping two steps

  lemma DepositCollect(s: State, x: nat, index: nat, f: Findings)
    requires index < |s.validators|
    ensures Deposit(s, x).Ok? <==> Deposit(AfterCollecting(s, index, f), x).Ok?
    ensures Deposit(s, x).Ok? ==>
      && |Deposit(s, x).value.validators| == |s.validators|
      && AfterCollecting(Deposit(s, x).value, index, f) == Deposit(AfterCollecting(s, index, f), x).value
  {
    var c := AfterCollecting(s, index, f);
    DepositPosts(s, x);
    DepositPosts(c, x);
    assert TotalsOf(c) == TotalsOf(s) && c.rate == s.rate;
  }

  lemma DepositUpdateCommute(s: State, x: nat, index: nat, vote: Pubkey)
    ensures Deposit(s, x).Ok? && UpdateStakeAccountBalance(Deposit(s, x).value, index, vote).Ok?
       <==> UpdateStakeAccountBalance(s, index, vote).Ok? && Deposit(UpdateStakeAccountBalance(s, index, vote).value, x).Ok?
    ensures Deposit(s, x).Ok? && UpdateStakeAccountBalance(Deposit(s, x).value, index, vote).Ok? ==>
      UpdateStakeAccountBalance(Deposit(s, x).value, index, vote) == Deposit(UpdateStakeAccountBalance(s, index, vote).value, x)
  {
    if GetAt(s.validators, index, vote).Ok? && Examine(s.accounts, s.validators[index]).Ok? {
      var f := Examine(s.accounts, s.validators[index]).value;
      DepositCollect(s, x, index, f);
      DepositFeesCommute(AfterCollecting(s, index, f), x, f.rewards);
    }
  }

  /** Examining one validator does not depend on the accounts of another. */
  lemma ExamineFrame(l: Ledger, v: Validator, vote: Pubkey, stake: SeedRange, unstake: SeedRange)
    requires v.voteAccount != vote
    ensures Examine(Collected(l, vote, stake, unstake), v) == Examine(l, v)
  {
    var l' := Collected(l, vote, stake, unstake);
    WalkStakeFrame(l, l', v.voteAccount, v.stakeSeeds.begin, v.stakeSeeds.end);
    WalkUnstakeFrame(l, l', v.voteAccount, v.unstakeSeeds.begin, v.unstakeSeeds.end);
    SameWalks(l, l', v);
  }

  lemma CollectionsCommute(s: State, i: nat, f: Findings, j: nat, g: Findings)
    requires i < |s.validators| && j < |s.validators|
    requires s.validators[i].voteAccount != s.validators[j].voteAccount
    ensures AfterCollecting(AfterCollecting(s, i, f), j, g) == AfterCollecting(AfterCollecting(s, j, g), i, f)
  {
    var ij, ji := AfterCollecting(AfterCollecting(s, i, f), j, g), AfterCollecting(AfterCollecting(s, j, g), i, f);
    assert ij.accounts == ji.accounts;
    assert ij.validators == ji.validators;
  }

  /** Updating validator j after validator i: the fees come last. */
  lemma UpdateAfterUpdate(s: State, i: nat, f: Findings, j: nat, g: Findings)
    requires i < |s.validators| && j < |s.validators|
    requires s.validators[i].voteAccount != s.validators[j].voteAccount
    requires Examine(s.accounts, s.validators[i]) == Ok(f) && Examine(s.accounts, s.validators[j]) == Ok(g)
    requires DistributeFees(AfterCollecting(s, i, f), f.rewards).Ok?
    ensures var s' := DistributeFees(AfterCollecting(s, i, f), f.rewards).value;
      var both := AfterCollecting(AfterCollecting(s, i, f), j, g);
      && DistributeFees(both, f.rewards).Ok?
      && UpdateStakeAccountBalance(s', j, s.validators[j].voteAccount)
      == DistributeFees(DistributeFees(both, f.rewards).value, g.rewards)
  {
    var c := AfterCollecting(s, i, f);
    var s' := DistributeFees(c, f.rewards).value;
    var both := AfterCollecting(c, j, g);
    FeesKeepRest(c, f.rewards);
    ExamineFrame(s.accounts, s.validators[j], s.validators[i].voteAccount, s.validators[i].stakeSeeds,
                 SeedRange(s.validators[i].unstakeSeeds.begin, f.unstake.begin));
    FeesFrame(c, both, f.rewards);
    assert AfterCollecting(s', j, g) == DistributeFees(both, f.rewards).value;
  }

  lemma SecondExamined(s: State, i: nat, vote: Pubkey, j: nat, other: Pubkey)
    requires vote != other && UpdateStakeAccountBalance(s, i, vote).Ok?
    requires UpdateStakeAccountBalance(UpdateStakeAccountBalance(s, i, vote).value, j, other).Ok?
    ensures j < |s.validators| && s.validators[j].voteAccount == other && Examine(s.accounts, s.validators[j]).Ok?
  {
    var f := Examine(s.accounts, s.validators[i]).value;
    FeesKeepRest(AfterCollecting(s, i, f), f.rewards);
    assert j != i;
    ExamineFrame(s.accounts, s.validators[j], vote, s.validators[i].stakeSeeds,
                 SeedRange(s.validators[i].unstakeSeeds.begin, f.unstake.begin));
  }

  lemma UpdatesCommute(s: State, i: nat, vote: Pubkey, j: nat, other: Pubkey)
    requires vote != other && UpdateStakeAccountBalance(s, i, vote).Ok?
    requires UpdateStakeAccountBalance(UpdateStakeAccountBalance(s, i, vote).value, j, other).Ok?
    ensures UpdateStakeAccountBalance(s, j, other).Ok?
    ensures UpdateStakeAccountBalance(UpdateStakeAccountBalance(s, j, other).value, i, vote)
         == UpdateStakeAccountBalance(UpdateStakeAccountBalance(s, i, vote).value, j, other)
  {
    var f := Examine(s.accounts, s.validators[i]).value;
    SecondExamined(s, i, vote, j, other);
    var g := Examine(s.accounts, s.validators[j]).value;
    UpdateAfterUpdate(s, i, f, j, g);
    var both := AfterCollecting(AfterCollecting(s, i, f), j, g);
    FeesCommute(both, f.rewards, g.rewards);
    CollectionsCommute(s, i, f, j, g);
    var c := AfterCollecting(s, j, g);
    FeesFrame(both, c, g.rewards);
    UpdateAfterUpdate(s, j, g, i, f);
  }

  lemma SameVoteSameIndex(s: State, i: nat, j: nat, vote: Pubkey)
    requires BooksInv(s) && UpdateStakeAccountBalance(s, i, vote).Ok?
    requires UpdateStakeAccountBalance(UpdateStakeAccountBalance(s, i, vote).value, j, vote).Ok?
    ensures i == j
  {
    var f := Examine(s.accounts, s.validators[i]).value;
    FeesKeepRest(AfterCollecting(s, i, f), f.rewards);
  }

  /** Any two order-free steps can trade places. */
  lemma StepsCommute(s: State, a: Step, b: Step)
    requires BooksInv(s) && OrderFree(a) && OrderFree(b)
    requires Apply(s, a).Ok? && Apply(Apply(s, a).value, b).Ok?
    ensures Apply(s, b).Ok? && Apply(Apply(s, b).value, a) == Apply(Apply(s, a).value, b)
  {
    match (a, b)
    case (DepositStep(x), DepositStep(y)) => DepositsCommute(s, x, y);
    case (DepositStep(x), UpdateBalanceStep(j, other)) => DepositUpdateCommute(s, x, j, other);
    case (UpdateBalanceStep(i, vote), DepositStep(y)) => DepositUpdateCommute(s, y, i, vote);
    case (UpdateBalanceStep(i, vote), UpdateBalanceStep(j, other)) =>
      if vote != other {
        UpdatesCommute(s, i, vote, j, other);
      } else {
        SameVoteSameIndex(s, i, j, vote);
      }
  }

  // ---------------------------------------------------------------- permuting a whole run

  ghost predicate AllOrderFree(steps: seq<Step>) {
    forall i :: 0 <= i < |steps| ==> OrderFree(steps[i])
  }

  lemma OrderFreeStepsSwap()
    ensures Swappable(Apply, BooksInv, OrderFree)
  {
    forall s, a | BooksInv(s) && OrderFree(a) && Apply(s, a).Ok?
      ensures BooksInv(Apply(s, a).value)
    {
      StepKeepsBooks(s, a);
    }
    forall s, a, b | BooksInv(s) && OrderFree(a) && OrderFree(b) && Both(Apply, s, a, b).Ok?
      ensures Both(Apply, s, b, a) == Both(Apply, s, a, b)
    {
      StepsCommute(s, a, b);
    }
  }

  /** Order independence: whatever order a list of deposits and balance updates
      is run in, if one order succeeds then so does the other, with the same
      state in the end, down to the last recorded total. */
  lemma OrderDoesNotMatter(s: State, xs: seq<Step>, ys: seq<Step>)
    requires BooksInv(s) && AllOrderFree(xs) && multiset(xs) == multiset(ys)
    requires RunAll(Apply, s, xs).Ok?
    ensures RunAll(Apply, s, ys) == RunAll(Apply, s, xs)
  {
    OrderFreeStepsSwap();
    AnyOrder(Apply, BooksInv, OrderFree, s, xs, ys);
  }
}
