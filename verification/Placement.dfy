/** Seeds find every account: a live account is always inside a seed range of a
    listed validator, every account inside one is live, and outside the ranges
    there is nothing but what outsiders sent there. */
module Placement {
  import opened Bytes
  import opened State
  import opened Instructions
  import opened LedgerFacts
  import opened Books

  /** The account is one of the validator's current ones. */
  predicate Holds(v: Validator, id: AccountId) {
    && id.vote == v.voteAccount
    && ((id.kind == Stake && v.stakeSeeds.Contains(id.seed)) || (id.kind == Unstake && v.unstakeSeeds.Contains(id.seed)))
  }

  /** An address without a live account that holds nothing but gifts. */
  predicate OnlyGifts(l: Ledger, g: Gifts, id: AccountId) {
    !At(l, id).Live? && At(l, id).Lamports() <= g.To(id)
  }

  predicate PlacedAt(l: Ledger, g: Gifts, v: Validator, id: AccountId) {
    if Holds(v, id) then At(l, id).Live? && STAKE_RENT <= At(l, id).Lamports() else OnlyGifts(l, g, id)
  }

  ghost predicate Placed(l: Ledger, g: Gifts, v: Validator) {
    forall id: AccountId {:trigger PlacedAt(l, g, v, id)} :: id.vote == v.voteAccount ==> PlacedAt(l, g, v, id)
  }

  ghost predicate UnlistedOk(l: Ledger, g: Gifts, vs: seq<Validator>) {
    forall id: AccountId {:trigger OnlyGifts(l, g, id)} :: !HasKey(vs, id.vote) ==> OnlyGifts(l, g, id)
  }

  ghost predicate PlacementInv(s: State) {
    && UniqueKeys(s.validators)
    && (forall i :: 0 <= i < |s.validators| ==> Placed(s.accounts, s.gifts, s.validators[i]))
    && UnlistedOk(s.accounts, s.gifts, s.validators)
  }

  // ---------------------------------------------------------------- framing

  lemma SameKeys(vs: seq<Validator>, vs': seq<Validator>, vote: Pubkey)
    requires |vs| == |vs'| && forall i :: 0 <= i < |vs| ==> vs[i].voteAccount == vs'[i].voteAccount
    ensures HasKey(vs, vote) <==> HasKey(vs', vote)
  {
    if HasKey(vs, vote) {
      var i :| 0 <= i < |vs| && vs[i].voteAccount == vote;
      assert vs'[i].voteAccount == vote;
    }
  }

  /** Replacing one validator's entry and touching only its accounts. */
  lemma ReplaceKeepsPlacement(s: State, s': State, i: nat, ids: set<AccountId>)
    requires PlacementInv(s) && Replaced(s.validators, s'.validators, i) && s'.gifts == s.gifts
    requires ChangedAt(s.accounts, s'.accounts, ids) && OfVote(ids, s.validators[i].voteAccount)
    requires Placed(s'.accounts, s'.gifts, s'.validators[i])
    ensures PlacementInv(s')
  {
    forall j | 0 <= j < |s'.validators|
      ensures Placed(s'.accounts, s'.gifts, s'.validators[j])
    {
      if j != i {
        var v := s.validators[j];
        assert s'.validators[j] == v;
        assert v.voteAccount != s.validators[i].voteAccount;
        forall x: AccountId | x.vote == v.voteAccount
          ensures PlacedAt(s'.accounts, s'.gifts, v, x)
        {
          assert PlacedAt(s.accounts, s.gifts, v, x);
          assert At(s.accounts, x) == At(s'.accounts, x);
        }
      }
    }
    forall x: AccountId | !HasKey(s'.validators, x.vote)
      ensures OnlyGifts(s'.accounts, s'.gifts, x)
    {
      SameKeys(s.validators, s'.validators, x.vote);
      SameKeys(s'.validators, s.validators, x.vote);
      assert x.vote != s.validators[i].voteAccount;
      assert OnlyGifts(s.accounts, s.gifts, x);
      assert At(s.accounts, x) == At(s'.accounts, x);
    }
  }

  /** Accounts that did not change, and are held as before, stay placed. */
  lemma PlacedAfter(l: Ledger, l': Ledger, g: Gifts, v: Validator, v': Validator, ids: set<AccountId>)
    requires Placed(l, g, v) && v'.voteAccount == v.voteAccount && ChangedAt(l, l', ids)
    requires forall x: AccountId {:trigger Holds(v', x)} :: x.vote == v.voteAccount && x !in ids ==> (Holds(v', x) <==> Holds(v, x))
    requires forall x: AccountId {:trigger PlacedAt(l', g, v', x)} :: x.vote == v.voteAccount && x in ids ==> PlacedAt(l', g, v', x)
    ensures Placed(l', g, v')
  {
    forall x: AccountId | x.vote == v'.voteAccount
      ensures PlacedAt(l', g, v', x)
    {
      if x !in ids {
        assert PlacedAt(l, g, v, x);
        assert At(l, x) == At(l', x);
        assert Holds(v', x) <==> Holds(v, x);
      }
    }
  }

  // ---------------------------------------------------------------- every step keeps the placement

  lemma InitializeKeepsPlacement(setup: Setup)
    requires Initialize(setup).Ok?
    ensures PlacementInv(Initialize(setup).value)
  {
  }

  lemma StakeDepositKeepsPlacement(s: State, amount: nat, index: nat, vote: Pubkey, approach: Approach)
    requires BooksInv(s) && PlacementInv(s) && StakeDeposit(s, amount, index, vote, approach).Ok?
    ensures PlacementInv(StakeDeposit(s, amount, index, vote, approach).value)
  {
    var s' := StakeDeposit(s, amount, index, vote, approach).value;
    var v, v' := s.validators[index], s'.validators[index];
    var ids := if approach.Append? then {AccountId(vote, Stake, v.stakeSeeds.end)}
      else {AccountId(vote, Temporary(s.epoch), v.stakeSeeds.end), AccountId(vote, Stake, v.stakeSeeds.end - 1)};
    PlacedAfter(s.accounts, s'.accounts, s.gifts, v, v', ids);
    ReplaceKeepsPlacement(s, s', index, ids);
  }

  lemma UnstakeKeepsPlacement(s: State, amount: nat, index: nat, vote: Pubkey, remainder: StakeBalance, balance: StakeBalance)
    requires BooksInv(s) && PlacementInv(s) && Unstaking(s, amount, index, vote, remainder, balance).Ok?
    ensures PlacementInv(Unstaking(s, amount, index, vote, remainder, balance).value)
  {
    var s' := Unstaking(s, amount, index, vote, remainder, balance).value;
    var v, v' := s.validators[index], s'.validators[index];
    var ids := {AccountId(vote, Stake, v.stakeSeeds.begin), AccountId(vote, Unstake, v.unstakeSeeds.end)};
    PlacedAfter(s.accounts, s'.accounts, s.gifts, v, v', ids);
    ReplaceKeepsPlacement(s, s', index, ids);
  }

  lemma MergeStakeKeepsPlacement(s: State, index: nat, vote: Pubkey, balance: StakeBalance)
    requires BooksInv(s) && PlacementInv(s) && MergeStake(s, index, vote, balance).Ok?
    ensures PlacementInv(MergeStake(s, index, vote, balance).value)
  {
    var s' := MergeStake(s, index, vote, balance).value;
    var v, v' := s.validators[index], s'.validators[index];
    var ids := {AccountId(vote, Stake, v.stakeSeeds.begin), AccountId(vote, Stake, v.stakeSeeds.begin + 1)};
    assert PlacedAt(s.accounts, s.gifts, v, AccountId(vote, Stake, v.stakeSeeds.begin + 1));
    PlacedAfter(s.accounts, s'.accounts, s.gifts, v, v', ids);
    ReplaceKeepsPlacement(s, s', index, ids);
  }

  lemma WithdrawKeepsPlacement(s: State, amount: nat, index: nat, vote: Pubkey, payout: Payout)
    requires BooksInv(s) && PlacementInv(s) && Withdraw(s, amount, index, vote, payout).Ok?
    ensures PlacementInv(Withdraw(s, amount, index, vote, payout).value)
  {
    var s' := Withdraw(s, amount, index, vote, payout).value;
    var v, v' := s.validators[index], s'.validators[index];
    StakedHasAccount(s.accounts, v);
    var ids := {AccountId(vote, Stake, v.stakeSeeds.begin)};
    PlacedAfter(s.accounts, s'.accounts, s.gifts, v, v', ids);
    ReplaceKeepsPlacement(s, s', index, ids);
  }

  lemma CollectedPlaced(l: Ledger, g: Gifts, v: Validator, v': Validator, begin: nat)
    requires Placed(l, g, v) && Ordered(v) && v.unstakeSeeds.begin <= begin <= v.unstakeSeeds.end
    requires v'.voteAccount == v.voteAccount && v'.stakeSeeds == v.stakeSeeds
    requires v'.unstakeSeeds == SeedRange(begin, v.unstakeSeeds.end)
    ensures Placed(Collected(l, v.voteAccount, v.stakeSeeds, SeedRange(v.unstakeSeeds.begin, begin)), g, v')
  {
    var l' := Collected(l, v.voteAccount, v.stakeSeeds, SeedRange(v.unstakeSeeds.begin, begin));
    forall x: AccountId | x.vote == v.voteAccount
      ensures PlacedAt(l', g, v', x)
    {
      assert PlacedAt(l, g, v, x);
    }
  }

  lemma UpdateKeepsPlacement(s: State, index: nat, vote: Pubkey)
    requires BooksInv(s) && PlacementInv(s) && UpdateStakeAccountBalance(s, index, vote).Ok?
    ensures PlacementInv(UpdateStakeAccountBalance(s, index, vote).value)
  {
    var s' := UpdateStakeAccountBalance(s, index, vote).value;
    var v := s.validators[index];
    WalkUnstakeFinds(s.accounts, vote, v.unstakeSeeds.begin, v.unstakeSeeds.end);
    CollectedPlaced(s.accounts, s.gifts, v, s'.validators[index], Examine(s.accounts, v).value.unstake.begin);
    ReplaceKeepsPlacement(s, s', index, set id | id in s.accounts && id.vote == vote);
  }

  lemma KeysGrow(vs: seq<Validator>, v: Validator, vote: Pubkey)
    ensures HasKey(vs + [v], vote) <==> HasKey(vs, vote) || v.voteAccount == vote
  {
    var vs' := vs + [v];
    if HasKey(vs, vote) {
      var i :| 0 <= i < |vs| && vs[i].voteAccount == vote;
      assert vs'[i].voteAccount == vote;
    }
    assert vs'[|vs|] == v;
  }

  lemma KeysShrink(vs: seq<Validator>, index: nat, vote: Pubkey)
    requires index < |vs| && HasKey(vs, vote) && vote != vs[index].voteAccount
    ensures HasKey(SwapRemove(vs, index), vote)
  {
    var n := |vs| - 1;
    var vs' := SwapRemove(vs, index);
    var i :| 0 <= i < |vs| && vs[i].voteAccount == vote;
    assert vs'[if i == n then index else i].voteAccount == vote;
  }

  lemma AddKeepsPlacement(s: State, vote: Pubkey)
    requires BooksInv(s) && PlacementInv(s) && AddValidator(s, vote).Ok?
    ensures PlacementInv(AddValidator(s, vote).value)
  {
    AddKeepsBooks(s, vote);
    var vs := s.validators;
    var vs' := vs + [NewValidator(vote)];
    forall x: AccountId | x.vote == vote
      ensures PlacedAt(s.accounts, s.gifts, NewValidator(vote), x)
    {
      assert OnlyGifts(s.accounts, s.gifts, x);
    }
    forall x: AccountId | !HasKey(vs', x.vote)
      ensures OnlyGifts(s.accounts, s.gifts, x)
    {
      KeysGrow(vs, NewValidator(vote), x.vote);
    }
  }

  lemma RemoveKeepsPlacement(s: State, index: nat, vote: Pubkey)
    requires BooksInv(s) && PlacementInv(s) && RemoveValidator(s, index, vote).Ok?
    ensures PlacementInv(RemoveValidator(s, index, vote).value)
  {
    RemoveKeepsBooks(s, index, vote);
    var vs, n := s.validators, |s.validators| - 1;
    var vs' := SwapRemove(vs, index);
    assert forall i :: 0 <= i < n ==> vs'[i] == if i == index then vs[n] else vs[i];
    forall x: AccountId | !HasKey(vs', x.vote)
      ensures OnlyGifts(s.accounts, s.gifts, x)
    {
      if x.vote == vote {
        assert PlacedAt(s.accounts, s.gifts, vs[index], x);
      } else if HasKey(vs, x.vote) {
        KeysShrink(vs, index, x.vote);
      }
    }
  }

  lemma ChangeStatusKeepsPlacement(s: State, index: nat, vote: Pubkey, change: StatusChange)
    requires PlacementInv(s) && ChangeStatus(s, index, vote, change).Ok?
    ensures PlacementInv(ChangeStatus(s, index, vote, change).value)
  {
    var s' := ChangeStatus(s, index, vote, change).value;
    PlacedAfter(s.accounts, s.accounts, s.gifts, s.validators[index], s'.validators[index], {});
    ReplaceKeepsPlacement(s, s', index, {});
  }

  /** Outside events bring no account to life, and what they put at an unused
      address is a gift. */
  lemma OutsideKeepsPlacement(s: State, s': State)
    requires PlacementInv(s) && s'.validators == s.validators
    requires forall id {:trigger At(s'.accounts, id)} :: At(s.accounts, id).Live? == At(s'.accounts, id).Live? && (At(s.accounts, id).Live? ==> At(s.accounts, id).Lamports() <= At(s'.accounts, id).Lamports())
    requires forall id {:trigger OnlyGifts(s'.accounts, s'.gifts, id)} :: OnlyGifts(s.accounts, s.gifts, id) ==> OnlyGifts(s'.accounts, s'.gifts, id)
    ensures PlacementInv(s')
  {
    forall i | 0 <= i < |s'.validators|
      ensures Placed(s'.accounts, s'.gifts, s'.validators[i])
    {
      forall x: AccountId | x.vote == s.validators[i].voteAccount
        ensures PlacedAt(s'.accounts, s'.gifts, s.validators[i], x)
      {
        assert PlacedAt(s.accounts, s.gifts, s.validators[i], x);
        assert At(s'.accounts, x) == At(s'.accounts, x);
      }
    }
    forall x: AccountId | !HasKey(s'.validators, x.vote)
      ensures OnlyGifts(s'.accounts, s'.gifts, x)
    {
      assert OnlyGifts(s.accounts, s.gifts, x);
      assert At(s'.accounts, x) == At(s'.accounts, x);
    }
  }

  lemma EpochKeepsPlacement(s: State, balances: map<AccountId, StakeBalance>)
    requires PlacementInv(s)
    ensures PlacementInv(Apply(s, EpochStep(balances)).value)
  {
    var s' := Apply(s, EpochStep(balances)).value;
    assert s'.gifts == s.gifts && s'.accounts == Redivided(s.accounts, balances);
    OutsideKeepsPlacement(s, s');
  }

  lemma RewardKeepsPlacement(s: State, id: AccountId, amount: nat, credits: nat)
    requires PlacementInv(s) && Reward(s, id, amount, credits).Ok?
    ensures PlacementInv(Reward(s, id, amount, credits).value)
  {
    OutsideKeepsPlacement(s, Reward(s, id, amount, credits).value);
  }

  lemma DonationKeepsPlacement(s: State, id: AccountId, amount: nat)
    requires PlacementInv(s)
    ensures PlacementInv(DonateToAccount(s, id, amount))
  {
    OutsideKeepsPlacement(s, DonateToAccount(s, id, amount));
  }

  lemma StepKeepsPlacement(s: State, step: Step)
    requires BooksInv(s) && PlacementInv(s) && Apply(s, step).Ok?
    ensures PlacementInv(Apply(s, step).value)
  {
    match step
    case DepositStep(amount) =>
    case StakeDepositStep(amount, index, vote, approach) => StakeDepositKeepsPlacement(s, amount, index, vote, approach);
    case UnstakeStep(amount, index, vote, remainder, balance) => UnstakeKeepsPlacement(s, amount, index, vote, remainder, balance);
    case MergeStakeStep(index, vote, balance) => MergeStakeKeepsPlacement(s, index, vote, balance);
    case UpdateBalanceStep(index, vote) => UpdateKeepsPlacement(s, index, vote);
    case UpdateRateStep =>
    case WithdrawStep(amount, index, vote, payout) => WithdrawKeepsPlacement(s, amount, index, vote, payout);
    case AddValidatorStep(vote) => AddKeepsPlacement(s, vote);
    case RemoveValidatorStep(index, vote) => RemoveKeepsPlacement(s, index, vote);
    case ChangeStatusStep(index, vote, change) => ChangeStatusKeepsPlacement(s, index, vote, change);
    case ChangeDistributionStep(_) =>
    case EpochStep(balances) => EpochKeepsPlacement(s, balances);
    case RewardStep(id, amount, credits) => RewardKeepsPlacement(s, id, amount, credits);
    case DonateToReserveStep(_) => OutsideKeepsPlacement(s, Apply(s, step).value);
    case DonateToAccountStep(id, amount) => DonationKeepsPlacement(s, id, amount);
    case TakeOverStep(_, _) => OutsideKeepsPlacement(s, Apply(s, step).value);
    case BurnStep(_) =>
  }

  lemma {:induction false} RunKeepsPlacement(s: State, steps: seq<Step>)
    requires BooksInv(s) && PlacementInv(s)
    ensures PlacementInv(Run(s, steps))
  {
    if steps != [] {
      var before, step := Run(s, steps[..|steps| - 1]), steps[|steps| - 1];
      RunKeepsPlacement(s, steps[..|steps| - 1]);
      RunKeepsBooks(s, steps[..|steps| - 1]);
      if Apply(before, step).Ok? {
        StepKeepsPlacement(before, step);
      }
    }
  }
}
