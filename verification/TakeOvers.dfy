/** What somebody gains who revives an emptied stake account and keeps it. A merging
    deposit goes through an address of its own epoch, so that taking such an address
    over stops nothing but merging deposits in the same epoch. Other addresses are
    used once, unless a validator is removed and added again. */
module TakeOvers {
  import opened Bytes
  import opened Results
  import opened State
  import opened Instructions
  import opened LedgerFacts
  import opened Books
  import opened Placement
  import opened Solvency
  import opened Imbalance
  import opened Acceptance

  // ---------------------------------------------------------------- one address less

  ghost predicate SameBut(l: Ledger, l': Ledger, id: AccountId) {
    forall x: AccountId :: x != id ==> (x in l <==> x in l') && (x in l && x in l' ==> l[x] == l'[x])
  }

  /** The states agree on everything but one address, and on what was given. */
  ghost predicate AgreeExcept(s: State, t: State, id: AccountId) {
    t == s.(accounts := t.accounts, gifts := t.gifts) && SameBut(s.accounts, t.accounts, id)
  }

  /** The step is a merging deposit through that address. */
  predicate MergesThrough(s: State, step: Step, id: AccountId) {
    && step.StakeDepositStep? && step.approach.Merge? && step.index < |s.validators|
    && id == AccountId(step.vote, Temporary(s.epoch), s.validators[step.index].stakeSeeds.end)
  }

  /** The step happens to that very address. */
  predicate Targets(step: Step, id: AccountId) {
    match step
    case RewardStep(at, _, _) => at == id
    case DonateToAccountStep(at, _) => at == id
    case TakeOverStep(at, _) => at == id
    case _ => false
  }

  /** The outcomes of a step are the same, up to that address. */
  ghost predicate SameOutcome(r: Result<State>, r': Result<State>, id: AccountId) {
    match (r, r')
    case (Ok(s), Ok(t)) => AgreeExcept(s, t, id)
    case (Err(e), Err(e')) => e == e'
    case _ => false
  }

  lemma AppendAgrees(s: State, t: State, id: AccountId, amount: nat, index: nat, vote: Pubkey, credits: nat)
    requires AgreeExcept(s, t, id) && id.kind.Temporary?
    ensures SameOutcome(StakeDeposit(s, amount, index, vote, Append(credits)), StakeDeposit(t, amount, index, vote, Append(credits)), id)
  {
  }

  lemma MergeDepositAgrees(s: State, t: State, id: AccountId, amount: nat, index: nat, vote: Pubkey, balance: StakeBalance)
    requires AgreeExcept(s, t, id) && id.kind.Temporary?
    requires index < |s.validators| ==> id != AccountId(vote, Temporary(s.epoch), s.validators[index].stakeSeeds.end)
    ensures SameOutcome(StakeDeposit(s, amount, index, vote, Merge(balance)), StakeDeposit(t, amount, index, vote, Merge(balance)), id)
  {
  }

  lemma StakeDepositAgrees(s: State, t: State, id: AccountId, amount: nat, index: nat, vote: Pubkey, approach: Approach)
    requires AgreeExcept(s, t, id) && id.kind.Temporary?
    requires !MergesThrough(s, StakeDepositStep(amount, index, vote, approach), id)
    ensures SameOutcome(StakeDeposit(s, amount, index, vote, approach), StakeDeposit(t, amount, index, vote, approach), id)
  {
    match approach
    case Append(credits) => AppendAgrees(s, t, id, amount, index, vote, credits);
    case Merge(balance) => MergeDepositAgrees(s, t, id, amount, index, vote, balance);
  }

  lemma UnstakeAgrees(s: State, t: State, id: AccountId, amount: nat, index: nat, vote: Pubkey, remainder: StakeBalance, balance: StakeBalance)
    requires AgreeExcept(s, t, id) && id.kind.Temporary?
    ensures SameOutcome(Unstaking(s, amount, index, vote, remainder, balance), Unstaking(t, amount, index, vote, remainder, balance), id)
  {
  }

  lemma MergeStakeAgrees(s: State, t: State, id: AccountId, index: nat, vote: Pubkey, balance: StakeBalance)
    requires AgreeExcept(s, t, id) && id.kind.Temporary?
    ensures SameOutcome(MergeStake(s, index, vote, balance), MergeStake(t, index, vote, balance), id)
  {
  }

  lemma WithdrawAgrees(s: State, t: State, id: AccountId, amount: nat, index: nat, vote: Pubkey, payout: Payout)
    requires AgreeExcept(s, t, id) && id.kind.Temporary?
    ensures SameOutcome(Withdraw(s, amount, index, vote, payout), Withdraw(t, amount, index, vote, payout), id)
  {
  }

  lemma CollectedAgrees(l: Ledger, l': Ledger, id: AccountId, vote: Pubkey, stake: SeedRange, unstake: SeedRange)
    requires SameBut(l, l', id)
    ensures SameBut(Collected(l, vote, stake, unstake), Collected(l', vote, stake, unstake), id)
  {
  }

  lemma WalksAgree(l: Ledger, l': Ledger, id: AccountId, v: Validator)
    requires SameBut(l, l', id) && id.kind.Temporary?
    ensures WalkStake(l, v.voteAccount, v.stakeSeeds.begin, v.stakeSeeds.end)
         == WalkStake(l', v.voteAccount, v.stakeSeeds.begin, v.stakeSeeds.end)
    ensures WalkUnstake(l, v.voteAccount, v.unstakeSeeds.begin, v.unstakeSeeds.end)
         == WalkUnstake(l', v.voteAccount, v.unstakeSeeds.begin, v.unstakeSeeds.end)
  {
    WalkStakeFrame(l, l', v.voteAccount, v.stakeSeeds.begin, v.stakeSeeds.end);
    WalkUnstakeFrame(l, l', v.voteAccount, v.unstakeSeeds.begin, v.unstakeSeeds.end);
  }

  lemma ExamineAgrees(l: Ledger, l': Ledger, id: AccountId, v: Validator)
    requires SameBut(l, l', id) && id.kind.Temporary?
    ensures Examine(l, v) == Examine(l', v)
  {
    WalksAgree(l, l', id, v);
    SameWalks(l, l', v);
  }

  lemma CollectingAgrees(s: State, t: State, id: AccountId, index: nat, f: Findings)
    requires AgreeExcept(s, t, id) && index < |s.validators|
    ensures AgreeExcept(AfterCollecting(s, index, f), AfterCollecting(t, index, f), id)
  {
    var v := s.validators[index];
    CollectedAgrees(s.accounts, t.accounts, id, v.voteAccount, v.stakeSeeds, SeedRange(v.unstakeSeeds.begin, f.unstake.begin));
  }

  lemma UpdateAgrees(s: State, t: State, id: AccountId, index: nat, vote: Pubkey)
    requires AgreeExcept(s, t, id) && id.kind.Temporary?
    ensures SameOutcome(UpdateStakeAccountBalance(s, index, vote), UpdateStakeAccountBalance(t, index, vote), id)
  {
    if Names(s.validators, index, vote) {
      ExamineAgrees(s.accounts, t.accounts, id, s.validators[index]);
      if Examine(s.accounts, s.validators[index]).Ok? {
        var f := Examine(s.accounts, s.validators[index]).value;
        CollectingAgrees(s, t, id, index, f);
        FeesAgree(AfterCollecting(s, index, f), AfterCollecting(t, index, f), id, f.rewards);
      }
    }
  }

  lemma FeesAgree(s: State, t: State, id: AccountId, rewards: nat)
    requires AgreeExcept(s, t, id)
    ensures SameOutcome(DistributeFees(s, rewards), DistributeFees(t, rewards), id)
  {
  }

  lemma EpochAgrees(s: State, t: State, id: AccountId, balances: map<AccountId, StakeBalance>)
    requires AgreeExcept(s, t, id)
    ensures SameOutcome(Apply(s, EpochStep(balances)), Apply(t, EpochStep(balances)), id)
  {
    assert SameBut(Redivided(s.accounts, balances), Redivided(t.accounts, balances), id);
  }

  lemma OutsideAgrees(s: State, t: State, id: AccountId, step: Step)
    requires AgreeExcept(s, t, id) && Outside(step) && !Targets(step, id)
    ensures SameOutcome(Apply(s, step), Apply(t, step), id)
  {
    match step
    case EpochStep(balances) => EpochAgrees(s, t, id, balances);
    case _ =>
  }

  /** One step, unless it is a merging deposit through the address or happens to it,
      succeeds or fails alike. */
  lemma StepAgrees(s: State, t: State, id: AccountId, step: Step)
    requires AgreeExcept(s, t, id) && id.kind.Temporary?
    requires !MergesThrough(s, step, id) && !Targets(step, id)
    ensures SameOutcome(Apply(s, step), Apply(t, step), id)
  {
    match step
    case StakeDepositStep(amount, index, vote, approach) => StakeDepositAgrees(s, t, id, amount, index, vote, approach);
    case UnstakeStep(amount, index, vote, remainder, balance) => UnstakeAgrees(s, t, id, amount, index, vote, remainder, balance);
    case MergeStakeStep(index, vote, balance) => MergeStakeAgrees(s, t, id, index, vote, balance);
    case UpdateBalanceStep(index, vote) => UpdateAgrees(s, t, id, index, vote);
    case WithdrawStep(amount, index, vote, payout) => WithdrawAgrees(s, t, id, amount, index, vote, payout);
    case _ => if Outside(step) { OutsideAgrees(s, t, id, step); }
  }

  // ---------------------------------------------------------------- taking over a temporary address

  /** Neither a merging deposit through the address nor an event at it in any state
      of the run. */
  predicate LeavesAlone(s: State, steps: seq<Step>, id: AccountId) {
    steps != [] ==>
      && LeavesAlone(s, steps[..|steps| - 1], id)
      && !MergesThrough(Run(s, steps[..|steps| - 1]), steps[|steps| - 1], id)
      && !Targets(steps[|steps| - 1], id)
  }

  /** Over a run that leaves the address alone, each step succeeds or fails alike. */
  lemma {:induction false} RunAgrees(s: State, t: State, id: AccountId, steps: seq<Step>)
    requires AgreeExcept(s, t, id) && id.kind.Temporary? && LeavesAlone(s, steps, id)
    ensures AgreeExcept(Run(s, steps), Run(t, steps), id)
  {
    if steps != [] {
      var front := steps[..|steps| - 1];
      RunAgrees(s, t, id, front);
      StepAgrees(Run(s, front), Run(t, front), id, steps[|steps| - 1]);
    }
  }

  lemma EpochNeverGoesBack(s: State, step: Step)
    ensures s.epoch <= Next(s, step).epoch
  {
  }

  lemma {:induction false} EpochAdvances(s: State, steps: seq<Step>)
    ensures s.epoch <= Run(s, steps).epoch
  {
    if steps != [] {
      EpochAdvances(s, steps[..|steps| - 1]);
      EpochNeverGoesBack(Run(s, steps[..|steps| - 1]), steps[|steps| - 1]);
    }
  }

  predicate NoneTargets(steps: seq<Step>, id: AccountId) {
    forall i :: 0 <= i < |steps| ==> !Targets(steps[i], id)
  }

  lemma {:induction false} LaterEpochsLeaveAlone(s: State, id: AccountId, steps: seq<Step>)
    requires id.kind.Temporary? && id.kind.epoch < s.epoch && NoneTargets(steps, id)
    ensures LeavesAlone(s, steps, id)
  {
    if steps != [] {
      LaterEpochsLeaveAlone(s, id, steps[..|steps| - 1]);
      EpochAdvances(s, steps[..|steps| - 1]);
    }
  }

  /** Once the epoch of a temporary address is over, no run of instructions is
      affected by whether somebody took the address over. */
  lemma DamageEndsWithEpoch(s: State, t: State, id: AccountId, steps: seq<Step>)
    requires AgreeExcept(s, t, id) && id.kind.Temporary? && id.kind.epoch < s.epoch && NoneTargets(steps, id)
    ensures AgreeExcept(Run(s, steps), Run(t, steps), id)
  {
    LaterEpochsLeaveAlone(s, id, steps);
    RunAgrees(s, t, id, steps);
  }

  /** The take-over changes nothing else. Afterwards a step is affected exactly if it
      is a merging deposit through the address: that one fails, and every other
      instruction, appending deposits among them, succeeds or fails as before. */
  lemma TakeOverStopsOnlyMerging(s: State, id: AccountId, amount: nat, step: Step)
    requires TakeOver(s, id, amount).Ok? && id.kind.Temporary? && !Outside(step)
    ensures var t := TakeOver(s, id, amount).value;
      && AgreeExcept(s, t, id)
      && (MergesThrough(s, step, id) ==> Apply(t, step).Err?)
      && (!MergesThrough(s, step, id) ==> SameOutcome(Apply(s, step), Apply(t, step), id))
  {
    var t := TakeOver(s, id, amount).value;
    if !MergesThrough(s, step, id) {
      StepAgrees(s, t, id, step);
    } else {
      TakenStopsMerging(t, id, step.amount, step.index, step.vote, step.approach);
    }
  }

  lemma TakenStopsMerging(t: State, id: AccountId, amount: nat, index: nat, vote: Pubkey, approach: Approach)
    requires At(t.accounts, id).Taken? && MergesThrough(t, StakeDepositStep(amount, index, vote, approach), id)
    ensures StakeDeposit(t, amount, index, vote, approach).Err?
  {
  }

  // ---------------------------------------------------------------- the other addresses

  /** The address is of the kind that seeds number, and behind the end of the range of
      a listed validator. */
  predicate Numbered(id: AccountId) {
    id.kind == Stake || id.kind == Unstake
  }

  predicate BehindEnd(v: Validator, id: AccountId) {
    v.voteAccount == id.vote && id.seed < (if id.kind == Stake then v.stakeSeeds.end else v.unstakeSeeds.end)
  }

  predicate Behind(vs: seq<Validator>, id: AccountId) {
    exists i :: 0 <= i < |vs| && BehindEnd(vs[i], id)
  }

  /** No numbered address of a validator was ever used but those behind the ends of
      its current ranges. */
  ghost predicate Untouched(s: State, vote: Pubkey) {
    forall id: AccountId {:trigger At(s.accounts, id)} ::
      id.vote == vote && Numbered(id) ==> At(s.accounts, id).Unused? || Behind(s.validators, id)
  }

  predicate Removes(step: Step, vote: Pubkey) {
    step.RemoveValidatorStep? && step.vote == vote
  }

  lemma StakedIsBehind(s: State, amount: nat, index: nat, vote: Pubkey, approach: Approach, id: AccountId)
    requires BooksInv(s) && StakeDeposit(s, amount, index, vote, approach).Ok? && Numbered(id) && At(s.accounts, id).Unused?
    ensures var s' := StakeDeposit(s, amount, index, vote, approach).value;
      At(s'.accounts, id).Unused? || Behind(s'.validators, id)
  {
    var s' := StakeDeposit(s, amount, index, vote, approach).value;
    assert !At(s'.accounts, id).Unused? ==> BehindEnd(s'.validators[index], id);
  }

  lemma UnstakedIsBehind(s: State, amount: nat, index: nat, vote: Pubkey, remainder: StakeBalance, balance: StakeBalance, id: AccountId)
    requires BooksInv(s) && Unstaking(s, amount, index, vote, remainder, balance).Ok? && Numbered(id) && At(s.accounts, id).Unused?
    ensures var s' := Unstaking(s, amount, index, vote, remainder, balance).value;
      At(s'.accounts, id).Unused? || Behind(s'.validators, id)
  {
    var s' := Unstaking(s, amount, index, vote, remainder, balance).value;
    assert !At(s'.accounts, id).Unused? ==> BehindEnd(s'.validators[index], id);
  }

  /** An update only empties live accounts. */
  lemma CollectedWasLive(s: State, index: nat, vote: Pubkey, id: AccountId)
    requires BooksInv(s) && UpdateStakeAccountBalance(s, index, vote).Ok? && At(s.accounts, id).Unused?
    ensures At(UpdateStakeAccountBalance(s, index, vote).value.accounts, id).Unused?
  {
    WalkUnstakeFinds(s.accounts, vote, s.validators[index].unstakeSeeds.begin, s.validators[index].unstakeSeeds.end);
  }

  lemma OutsideUsesNothing(s: State, step: Step, id: AccountId)
    requires Outside(step) && Apply(s, step).Ok? && At(s.accounts, id).Unused?
    ensures At(Apply(s, step).value.accounts, id).Unused?
  {
  }

  lemma RestUsesNothing(s: State, step: Step, id: AccountId)
    requires Apply(s, step).Ok? && At(s.accounts, id).Unused?
    requires !Outside(step) && !step.StakeDepositStep? && !step.UnstakeStep? && !step.UpdateBalanceStep?
    ensures At(Apply(s, step).value.accounts, id).Unused?
  {
  }

  /** Whatever a step makes of an unused address is behind an end. */
  lemma NewlyUsedIsBehind(s: State, step: Step, id: AccountId)
    requires BooksInv(s) && Apply(s, step).Ok? && Numbered(id) && At(s.accounts, id).Unused?
    ensures At(Apply(s, step).value.accounts, id).Unused? || Behind(Apply(s, step).value.validators, id)
  {
    match step
    case StakeDepositStep(amount, index, vote, approach) => StakedIsBehind(s, amount, index, vote, approach, id);
    case UnstakeStep(amount, index, vote, remainder, balance) => UnstakedIsBehind(s, amount, index, vote, remainder, balance, id);
    case UpdateBalanceStep(index, vote) => CollectedWasLive(s, index, vote, id);
    case _ => if Outside(step) { OutsideUsesNothing(s, step, id); } else { RestUsesNothing(s, step, id); }
  }

  lemma StaysBehind(s: State, step: Step, id: AccountId)
    requires BooksInv(s) && Apply(s, step).Ok? && !Removes(step, id.vote) && Behind(s.validators, id)
    ensures Behind(Apply(s, step).value.validators, id)
  {
    var vs, vs' := s.validators, Apply(s, step).value.validators;
    var i :| 0 <= i < |vs| && BehindEnd(vs[i], id);
    StepAdvances(s, step);
    StaysInList(s, step, i);
    var j :| 0 <= j < |vs'| && vs'[j].voteAccount == vs[i].voteAccount;
    assert Advances(vs[i], vs'[j]);
    assert BehindEnd(vs'[j], id);
  }

  lemma StaysInList(s: State, step: Step, i: nat)
    requires Apply(s, step).Ok? && i < |s.validators| && !Removes(step, s.validators[i].voteAccount)
    ensures HasKey(Apply(s, step).value.validators, s.validators[i].voteAccount)
  {
    var vs, vote := s.validators, s.validators[i].voteAccount;
    if step.RemoveValidatorStep? {
      KeysShrink(vs, step.index, vote);
    } else if step.AddValidatorStep? {
      KeysGrow(vs, NewValidator(step.vote), vote);
    } else if ChangesList(step) {
      KeyStays(s, step, i);
    } else {
      OthersKeepList(s, step);
    }
  }

  lemma KeyStays(s: State, step: Step, i: nat)
    requires ChangesList(step) && Apply(s, step).Ok? && i < |s.validators|
    requires !step.RemoveValidatorStep? && !step.AddValidatorStep?
    ensures var vs' := Apply(s, step).value.validators;
      i < |vs'| && vs'[i].voteAccount == s.validators[i].voteAccount
  {
    match step
    case UpdateBalanceStep(index, vote) => UpdateKeepsKey(s, index, vote, i);
    case WithdrawStep(amount, index, vote, payout) => WithdrawKeepsKey(s, amount, index, vote, payout, i);
    case StakeDepositStep(amount, index, vote, approach) => StakeDepositKeepsKey(s, amount, index, vote, approach, i);
    case _ =>
  }

  lemma UpdateKeepsKey(s: State, index: nat, vote: Pubkey, i: nat)
    requires UpdateStakeAccountBalance(s, index, vote).Ok? && i < |s.validators|
    ensures var vs' := UpdateStakeAccountBalance(s, index, vote).value.validators;
      i < |vs'| && vs'[i].voteAccount == s.validators[i].voteAccount
  {
  }

  lemma WithdrawKeepsKey(s: State, amount: nat, index: nat, vote: Pubkey, payout: Payout, i: nat)
    requires Withdraw(s, amount, index, vote, payout).Ok? && i < |s.validators|
    ensures var vs' := Withdraw(s, amount, index, vote, payout).value.validators;
      i < |vs'| && vs'[i].voteAccount == s.validators[i].voteAccount
  {
  }

  lemma StakeDepositKeepsKey(s: State, amount: nat, index: nat, vote: Pubkey, approach: Approach, i: nat)
    requires StakeDeposit(s, amount, index, vote, approach).Ok? && i < |s.validators|
    ensures var vs' := StakeDeposit(s, amount, index, vote, approach).value.validators;
      i < |vs'| && vs'[i].voteAccount == s.validators[i].voteAccount
  {
  }

  lemma StepKeepsUntouched(s: State, step: Step, vote: Pubkey)
    requires BooksInv(s) && Untouched(s, vote) && !Removes(step, vote) && Apply(s, step).Ok?
    ensures Untouched(Apply(s, step).value, vote)
  {
    var s' := Apply(s, step).value;
    forall id: AccountId | id.vote == vote && Numbered(id) && !At(s'.accounts, id).Unused?
      ensures Behind(s'.validators, id)
    {
      if At(s.accounts, id).Unused? {
        NewlyUsedIsBehind(s, step, id);
      } else {
        StaysBehind(s, step, id);
      }
    }
  }

  /** No attempt to remove the validator succeeds. */
  predicate NeverRemoved(s: State, steps: seq<Step>, vote: Pubkey) {
    steps != [] ==>
      && NeverRemoved(s, steps[..|steps| - 1], vote)
      && (Removes(steps[|steps| - 1], vote) ==> Apply(Run(s, steps[..|steps| - 1]), steps[|steps| - 1]).Err?)
  }

  lemma {:induction false} RunKeepsUntouched(s: State, steps: seq<Step>, vote: Pubkey)
    requires BooksInv(s) && Untouched(s, vote) && NeverRemoved(s, steps, vote)
    ensures Untouched(Run(s, steps), vote)
  {
    if steps != [] {
      var front := steps[..|steps| - 1];
      RunKeepsUntouched(s, front, vote);
      RunKeepsBooks(s, front);
      if Apply(Run(s, front), steps[|steps| - 1]).Ok? {
        StepKeepsUntouched(Run(s, front), steps[|steps| - 1], vote);
      }
    }
  }

  /** As long as a validator was never removed, nothing that anybody does keeps an
      appending deposit from its next address. */
  lemma FirstMembershipIsNeverBlocked(setup: Setup, steps: seq<Step>, amount: nat, index: nat, vote: Pubkey, credits: nat)
    requires Initialize(setup).Ok? && NeverRemoved(Initialize(setup).value, steps, vote)
    ensures var s := Run(Initialize(setup).value, steps);
      StakeDeposit(s, amount, index, vote, Append(credits)).Ok? <==> StakeAllowed(s, amount, index, vote)
  {
    var s := Run(Initialize(setup).value, steps);
    FirstMembership(setup, steps, vote);
    AppendAccepted(s, amount, index, vote, credits);
    if StakeAllowed(s, amount, index, vote) {
      NextIsUnused(s, index);
    }
  }

  lemma FirstMembership(setup: Setup, steps: seq<Step>, vote: Pubkey)
    requires Initialize(setup).Ok? && NeverRemoved(Initialize(setup).value, steps, vote)
    ensures Inv(Run(Initialize(setup).value, steps)) && Untouched(Run(Initialize(setup).value, steps), vote)
  {
    var init := Initialize(setup).value;
    InitializeInv(setup);
    RunKeepsInv(init, steps);
    RunKeepsUntouched(init, steps, vote);
  }

  /** Nor from its next unstake address. */
  lemma FirstMembershipCanUnstake(setup: Setup, steps: seq<Step>, amount: nat, index: nat, vote: Pubkey, remainder: StakeBalance, balance: StakeBalance)
    requires Initialize(setup).Ok? && NeverRemoved(Initialize(setup).value, steps, vote)
    ensures var s := Run(Initialize(setup).value, steps);
      Unstaking(s, amount, index, vote, remainder, balance).Ok? <==>
        && UnstakeAllowed(s, amount, index, vote)
        && var v := s.validators[index];
        && var into := Lamports(s, vote, Unstake, v.unstakeSeeds.end);
        && Divided(s, amount, v, remainder, balance) && 0 < amount && STAKE_RENT < into + amount
  {
    var s := Run(Initialize(setup).value, steps);
    FirstMembership(setup, steps, vote);
    UnstakeAccepted(s, amount, index, vote, remainder, balance);
    if UnstakeAllowed(s, amount, index, vote) {
      NextIsUnused(s, index);
    }
  }

  lemma NextIsUnused(s: State, index: nat)
    requires BooksInv(s) && index < |s.validators| && Untouched(s, s.validators[index].voteAccount)
    ensures var v := s.validators[index];
      && At(s.accounts, AccountId(v.voteAccount, Stake, v.stakeSeeds.end)).Unused?
      && At(s.accounts, AccountId(v.voteAccount, Unstake, v.unstakeSeeds.end)).Unused?
  {
    var v := s.validators[index];
    var next, nextUnstake := AccountId(v.voteAccount, Stake, v.stakeSeeds.end), AccountId(v.voteAccount, Unstake, v.unstakeSeeds.end);
    assert !Behind(s.validators, next) && !Behind(s.validators, nextUnstake);
    assert At(s.accounts, next) == At(s.accounts, next) && At(s.accounts, nextUnstake) == At(s.accounts, nextUnstake);
  }
}
