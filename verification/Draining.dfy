/** Draining a stake account by withdrawals: which withdrawals from it succeed one
    after the other, and when they get it down to the minimum. */
module Draining {
  import opened Bytes
  import opened Results
  import opened Token
  import opened State
  import opened Instructions
  import opened Books
  import opened Solvency
  import opened Imbalance
  import opened Panics
  import opened Permutations
  import opened Acceptance

  // ---------------------------------------------------------------- plans

  /** What a payout has to exceed, to an address that holds some lamports. */
  function RentDue(held: nat): nat {
    if STAKE_RENT <= held then 0 else STAKE_RENT - held
  }

  function Converted(rate: ExchangeRate, amount: nat): nat {
    if ExchangeStSol(rate, amount).Ok? then ExchangeStSol(rate, amount).value else 0
  }

  /** The SOL that a list of stSOL amounts is worth. */
  function Paid(rate: ExchangeRate, plan: seq<nat>): nat {
    if plan == [] then 0 else Converted(rate, plan[0]) + Paid(rate, plan[1..])
  }

  function Burnt(plan: seq<nat>): nat {
    if plan == [] then 0 else plan[0] + Burnt(plan[1..])
  }

  /** One stSOL amount can be withdrawn from an account with this balance. */
  predicate FitsOnce(rate: ExchangeRate, amount: nat, balance: nat, held: nat) {
    && ExchangeStSol(rate, amount).Ok? && RentDue(held) < Converted(rate, amount)
    && MINIMUM_STAKE_ACCOUNT_BALANCE <= balance && Converted(rate, amount) <= LargestWithdrawal(balance)
  }

  /** The stSOL amounts can be withdrawn one after the other, each to an address that
      holds so many lamports. */
  predicate Fits(rate: ExchangeRate, plan: seq<nat>, balance: nat, held: nat)
    decreases |plan|
  {
    plan != [] ==>
      FitsOnce(rate, plan[0], balance, held) && Fits(rate, plan[1..], balance - Converted(rate, plan[0]), held)
  }

  lemma {:induction false} FitsLeavesMinimum(rate: ExchangeRate, plan: seq<nat>, balance: nat, held: nat)
    requires Fits(rate, plan, balance, held) && MINIMUM_STAKE_ACCOUNT_BALANCE <= balance
    ensures Paid(rate, plan) <= balance - MINIMUM_STAKE_ACCOUNT_BALANCE
    decreases |plan|
  {
    if plan != [] {
      FitsLeavesMinimum(rate, plan[1..], balance - Converted(rate, plan[0]), held);
    }
  }

  lemma OneMoreFits(rate: ExchangeRate, amount: nat, rest: seq<nat>, balance: nat, held: nat)
    requires FitsOnce(rate, amount, balance, held) && Fits(rate, rest, balance - Converted(rate, amount), held)
    ensures Fits(rate, [amount] + rest, balance, held)
    ensures Paid(rate, [amount] + rest) == Converted(rate, amount) + Paid(rate, rest)
  {
    assert ([amount] + rest)[1..] == rest;
  }

  /** The balance above the minimum can be withdrawn exactly. */
  ghost predicate CanDrain(rate: ExchangeRate, balance: nat, held: nat) {
    exists plan :: Fits(rate, plan, balance, held) && Paid(rate, plan) + MINIMUM_STAKE_ACCOUNT_BALANCE == balance
  }

  // ---------------------------------------------------------------- plans as runs

  /** Any way to divide the remaining lamports over the stake states. */
  ghost predicate Divides(divide: nat -> StakeBalance) {
    forall n: nat {:trigger divide(n)} :: divide(n).Total() == n
  }

  function Minus(a: nat, b: nat): nat {
    if b <= a then a - b else 0
  }

  /** The withdrawals of a plan; each goes to a new address like the given one. */
  function WithdrawSteps(rate: ExchangeRate, plan: seq<nat>, balance: nat, index: nat, vote: Pubkey, divide: nat -> StakeBalance, destination: StakeAccount): seq<Step>
    decreases |plan|
  {
    if plan == [] then []
    else
      var left := Minus(balance, Converted(rate, plan[0]));
      [WithdrawStep(plan[0], index, vote, Payout(divide(left), destination))]
      + WithdrawSteps(rate, plan[1..], left, index, vote, divide, destination)
  }

  /** The validator still has the most stake after so much was withdrawn from it, and
      supply and totals have room for it. */
  predicate Drainable(s: State, index: nat, vote: Pubkey, paid: nat, burnt: nat) {
    && s.epoch <= s.rate.computedInEpoch && Names(s.validators, index, vote)
    && paid <= s.validators[index].effectiveStakeBalance
    && (forall j :: 0 <= j < |s.validators| && j != index ==>
          s.validators[j].effectiveStakeBalance + paid <= s.validators[index].effectiveStakeBalance)
    && burnt <= s.supply
    && s.metrics.withdrawnStSol + burnt <= MAX_U64 && s.metrics.withdrawnSol + paid <= MAX_U64
  }

  /** One withdrawal succeeds exactly if its amount fits, and leaves the rest. */
  lemma WithdrawOnce(s: State, amount: nat, index: nat, vote: Pubkey, payout: Payout, paid: nat, burnt: nat)
    requires Inv(s) && Drainable(s, index, vote, Converted(s.rate, amount) + paid, amount + burnt)
    requires Oldest(s, index).Lamports() <= MAX_U64 && payout.destination.IsFree()
    requires payout.remainder.Total() == Minus(Oldest(s, index).Lamports(), Converted(s.rate, amount))
    ensures Withdraw(s, amount, index, vote, payout).Ok?
       <==> FitsOnce(s.rate, amount, Oldest(s, index).Lamports(), payout.destination.Lamports())
    ensures Withdraw(s, amount, index, vote, payout).Ok? ==>
      var t := Withdraw(s, amount, index, vote, payout).value;
      && t.rate == s.rate && Drainable(t, index, vote, paid, burnt)
      && Oldest(t, index).Lamports() == Oldest(s, index).Lamports() - Converted(s.rate, amount)
  {
    WithdrawAccepted(s, amount, index, vote, payout);
    assert Highest(s.validators, index);
    if Withdraw(s, amount, index, vote, payout).Ok? {
      assert Accounted(s.accounts, s.validators[index]);
    }
  }

  /** The withdrawals of a plan, one after the other. */
  function Withdrawals(s: State, rate: ExchangeRate, plan: seq<nat>, balance: nat, index: nat, vote: Pubkey, divide: nat -> StakeBalance, destination: StakeAccount): Result<State>
    decreases |plan|
  {
    if plan == [] then Ok(s)
    else
      var left := Minus(balance, Converted(rate, plan[0]));
      var t :- Withdraw(s, plan[0], index, vote, Payout(divide(left), destination));
      Withdrawals(t, rate, plan[1..], left, index, vote, divide, destination)
  }

  lemma {:induction false} RunIsWithdrawals(s: State, rate: ExchangeRate, plan: seq<nat>, balance: nat, index: nat, vote: Pubkey, divide: nat -> StakeBalance, destination: StakeAccount)
    ensures RunAll(Apply, s, WithdrawSteps(rate, plan, balance, index, vote, divide, destination))
         == Withdrawals(s, rate, plan, balance, index, vote, divide, destination)
    decreases |plan|
  {
    if plan != [] {
      var left := Minus(balance, Converted(rate, plan[0]));
      var step := WithdrawStep(plan[0], index, vote, Payout(divide(left), destination));
      RunAllFirst(Apply, s, step, WithdrawSteps(rate, plan[1..], left, index, vote, divide, destination));
      WithdrawIsStep(s, plan[0], index, vote, Payout(divide(left), destination));
      if Apply(s, step).Ok? {
        RunIsWithdrawals(Apply(s, step).value, rate, plan[1..], left, index, vote, divide, destination);
      }
    }
  }

  lemma WithdrawIsStep(s: State, amount: nat, index: nat, vote: Pubkey, payout: Payout)
    ensures Apply(s, WithdrawStep(amount, index, vote, payout)) == Withdraw(s, amount, index, vote, payout)
  {
  }

  /** A state in which the plan could be carried out, if its amounts fit. */
  ghost predicate Ready(s: State, rate: ExchangeRate, plan: seq<nat>, index: nat, vote: Pubkey) {
    && Inv(s) && s.rate == rate && Drainable(s, index, vote, Paid(rate, plan), Burnt(plan))
    && Oldest(s, index).Lamports() <= MAX_U64
  }

  lemma FirstWithdrawal(s: State, rate: ExchangeRate, plan: seq<nat>, index: nat, vote: Pubkey, payout: Payout)
    requires plan != [] && Ready(s, rate, plan, index, vote) && payout.destination.IsFree()
    requires payout.remainder.Total() == Minus(Oldest(s, index).Lamports(), Converted(rate, plan[0]))
    ensures var r := Withdraw(s, plan[0], index, vote, payout);
      && (r.Ok? <==> FitsOnce(rate, plan[0], Oldest(s, index).Lamports(), payout.destination.Lamports()))
      && (r.Ok? ==> Ready(r.value, rate, plan[1..], index, vote)
                    && Oldest(r.value, index).Lamports() + Converted(rate, plan[0]) == Oldest(s, index).Lamports())
  {
    WithdrawOnce(s, plan[0], index, vote, payout, Paid(rate, plan[1..]), Burnt(plan[1..]));
    if Withdraw(s, plan[0], index, vote, payout).Ok? {
      WithdrawIsStep(s, plan[0], index, vote, payout);
      NextKeepsInv(s, WithdrawStep(plan[0], index, vote, payout));
    }
  }

  /** What a carried-out plan leaves in the oldest stake account. */
  ghost predicate Leaves(r: Result<State>, index: nat, balance: nat, paid: nat) {
    r.Ok? ==> index < |r.value.validators| && Oldest(r.value, index).Lamports() + paid == balance
  }

  lemma {:induction false} WithdrawalsFit(s: State, rate: ExchangeRate, plan: seq<nat>, balance: nat, index: nat, vote: Pubkey, divide: nat -> StakeBalance, destination: StakeAccount)
    requires Ready(s, rate, plan, index, vote) && balance == Oldest(s, index).Lamports() && destination.IsFree() && Divides(divide)
    ensures var r := Withdrawals(s, rate, plan, balance, index, vote, divide, destination);
      (r.Ok? <==> Fits(rate, plan, balance, destination.Lamports())) && Leaves(r, index, balance, Paid(rate, plan))
    decreases |plan|
  {
    if plan != [] {
      var left := Minus(balance, Converted(rate, plan[0]));
      var payout := Payout(divide(left), destination);
      FirstWithdrawal(s, rate, plan, index, vote, payout);
      var first := Withdraw(s, plan[0], index, vote, payout);
      if first.Ok? {
        WithdrawalsFit(first.value, rate, plan[1..], left, index, vote, divide, destination);
      }
    }
  }

  /** The withdrawals of a plan all succeed exactly if the plan fits, and leave the
      oldest stake account with the rest. */
  lemma DrainRun(s: State, plan: seq<nat>, index: nat, vote: Pubkey, divide: nat -> StakeBalance, destination: StakeAccount)
    requires Ready(s, s.rate, plan, index, vote) && destination.IsFree() && Divides(divide)
    ensures var balance := Oldest(s, index).Lamports();
      var r := RunAll(Apply, s, WithdrawSteps(s.rate, plan, balance, index, vote, divide, destination));
      (r.Ok? <==> Fits(s.rate, plan, balance, destination.Lamports())) && Leaves(r, index, balance, Paid(s.rate, plan))
  {
    RunIsWithdrawals(s, s.rate, plan, Oldest(s, index).Lamports(), index, vote, divide, destination);
    WithdrawalsFit(s, s.rate, plan, Oldest(s, index).Lamports(), index, vote, divide, destination);
  }

  // ---------------------------------------------------------------- down to the minimum

  /** At every rate: a last bit that is no more than the rent cannot be withdrawn. */
  lemma DrainNeedsRent(rate: ExchangeRate, balance: nat, held: nat)
    requires MINIMUM_STAKE_ACCOUNT_BALANCE <= balance && CanDrain(rate, balance, held)
    ensures balance == MINIMUM_STAKE_ACCOUNT_BALANCE || RentDue(held) < balance - MINIMUM_STAKE_ACCOUNT_BALANCE
  {
  }

  /** A lamport of stSOL is worth a whole number of lamports. */
  predicate WholePrice(rate: ExchangeRate, price: nat) {
    0 < price && 0 < rate.stSolSupply && rate.solBalance == price * rate.stSolSupply
  }

  lemma Reassociate(a: nat, b: nat, c: nat)
    ensures a * (b * c) == (a * b) * c
  {
  }

  lemma ScaledFits(worth: nat, s: nat)
    requires 0 < s
    ensures worth * s < (MAX_U64 + 1) * s <==> worth <= MAX_U64
  {
    if worth <= MAX_U64 {
      MulMonotone(worth + 1, MAX_U64 + 1, s);
      Distributes(worth, 1, s);
    } else {
      MulMonotone(MAX_U64 + 1, worth, s);
    }
  }

  lemma FloorOfMultiple(q: nat, worth: nat, s: nat)
    requires 0 < s && IsFloor(q, worth * s, s)
    ensures q == worth
  {
    MulCancel(q, worth, s);
    MulCancel(worth, q, s);
  }

  lemma WholeConversion(rate: ExchangeRate, price: nat, amount: nat)
    requires WholePrice(rate, price)
    ensures ExchangeStSol(rate, amount).Ok? <==> amount * price <= MAX_U64
    ensures ExchangeStSol(rate, amount).Ok? ==> ExchangeStSol(rate, amount).value == amount * price
  {
    Reassociate(amount, price, rate.stSolSupply);
    ScaledFits(amount * price, rate.stSolSupply);
    if ExchangeStSol(rate, amount).Ok? {
      FloorOfMultiple(ExchangeStSol(rate, amount).value, amount * price, rate.stSolSupply);
    }
  }

  lemma {:induction false} PaidIsMultiple(rate: ExchangeRate, price: nat, plan: seq<nat>, balance: nat, held: nat)
    requires WholePrice(rate, price) && Fits(rate, plan, balance, held)
    ensures Paid(rate, plan) == Burnt(plan) * price
    decreases |plan|
  {
    if plan != [] {
      WholeConversion(rate, price, plan[0]);
      PaidIsMultiple(rate, price, plan[1..], balance - Converted(rate, plan[0]), held);
      Distributes(plan[0], Burnt(plan[1..]), price);
    }
  }

  lemma Subtracts(a: nat, b: nat, price: nat)
    requires b * price <= a * price && 0 < price
    ensures b <= a && (a - b) * price == a * price - b * price
  {
    MulCancel(b, a, price);
  }

  function Quotient(n: nat, d: nat): (q: nat)
    requires 0 < d
    ensures IsFloor(q, n, d)
  {
    n / d
  }

  /** How many of `units` to withdraw first: as many as the limits allow, unless that
      leaves a bit that is too small, then fewer. */
  lemma FirstUnits(price: nat, units: nat, due: nat) returns (first: nat)
    requires 0 < price <= 10 * LAMPORTS_PER_SOL && due <= STAKE_RENT && due < units * price
    ensures 0 < first <= units && due < first * price <= LargestWithdrawal(MINIMUM_STAKE_ACCOUNT_BALANCE + units * price)
    ensures first == units || due < (units - first) * price
  {
    var largest := LargestWithdrawal(MINIMUM_STAKE_ACCOUNT_BALANCE + units * price);
    first := units;
    if largest < units * price {
      first := Quotient(largest, price);
      Subtracts(units, first, price);
      MulMonotone(1, units - first, price);
      if (units - first) * price <= due {
        first := FewerUnits(price, units, due, first, largest);
      } else {
        MulCancel(1, first, price);
        MulMonotone(1, first, price);
      }
    }
  }

  lemma FewerUnits(price: nat, units: nat, due: nat, most: nat, largest: nat) returns (first: nat)
    requires 0 < price <= due <= STAKE_RENT && 10 * LAMPORTS_PER_SOL <= largest < units * price
    requires IsFloor(most, largest, price)
    ensures 0 < first <= units && due < first * price <= largest && due < (units - first) * price
  {
    var fewer := Quotient(due, price) + 1;
    Distributes(Quotient(due, price), 1, price);
    Subtracts(most, fewer, price);
    first := most - fewer;
    Subtracts(units, first, price);
    MulCancel(1, first, price);
  }

  lemma {:induction false} WholePlan(rate: ExchangeRate, price: nat, units: nat, held: nat) returns (plan: seq<nat>)
    requires WholePrice(rate, price) && price <= 10 * LAMPORTS_PER_SOL
    requires units == 0 || RentDue(held) < units * price
    requires MINIMUM_STAKE_ACCOUNT_BALANCE + units * price <= MAX_U64
    ensures Fits(rate, plan, MINIMUM_STAKE_ACCOUNT_BALANCE + units * price, held) && Paid(rate, plan) == units * price
    decreases units
  {
    plan := [];
    if units > 0 {
      var first := FirstUnits(price, units, RentDue(held));
      MulMonotone(first, units, price);
      Subtracts(units, first, price);
      WholeConversion(rate, price, first);
      assert FitsOnce(rate, first, MINIMUM_STAKE_ACCOUNT_BALANCE + units * price, held);
      var rest := WholePlan(rate, price, units - first, held);
      OneMoreFits(rate, first, rest, MINIMUM_STAKE_ACCOUNT_BALANCE + units * price, held);
      plan := [first] + rest;
    }
  }

  /** The excess over the minimum comes in whole prices, and is none or more than the
      rent due. */
  predicate WholeExcess(price: nat, excess: nat, held: nat)
    requires 0 < price
  {
    excess == 0 || (excess % price == 0 && RentDue(held) < excess)
  }

  lemma MultipleHasNoRemainder(a: nat, d: nat)
    requires 0 < d
    ensures (a * d) % d == 0
  {
    var q, r := a * d / d, a * d % d;
    assert q * d + r == a * d;
    MulCancel(q, a, d);
    MulCancel(a, q, d);
  }

  lemma NoRemainderIsMultiple(n: nat, d: nat, q: nat)
    requires 0 < d && n % d == 0 && IsFloor(q, n, d)
    ensures q * d == n
  {
    assert n / d * d == n;
    MulCancel(q, n / d, d);
    MulCancel(n / d, q, d);
  }

  lemma DrainNeedsWholeExcess(rate: ExchangeRate, price: nat, balance: nat, held: nat)
    requires WholePrice(rate, price) && MINIMUM_STAKE_ACCOUNT_BALANCE <= balance && CanDrain(rate, balance, held)
    ensures WholeExcess(price, balance - MINIMUM_STAKE_ACCOUNT_BALANCE, held)
  {
    var plan :| Fits(rate, plan, balance, held) && Paid(rate, plan) + MINIMUM_STAKE_ACCOUNT_BALANCE == balance;
    DrainNeedsRent(rate, balance, held);
    PaidIsMultiple(rate, price, plan, balance, held);
    MultipleHasNoRemainder(Burnt(plan), price);
  }

  lemma WholeExcessDrains(rate: ExchangeRate, price: nat, excess: nat, held: nat)
    requires WholePrice(rate, price) && price <= 10 * LAMPORTS_PER_SOL && WholeExcess(price, excess, held)
    requires MINIMUM_STAKE_ACCOUNT_BALANCE + excess <= MAX_U64
    ensures CanDrain(rate, MINIMUM_STAKE_ACCOUNT_BALANCE + excess, held)
  {
    var units := Quotient(excess, price);
    NoRemainderIsMultiple(excess, price, units);
    var plan := WholePlan(rate, price, units, held);
  }

  /** At every price of whole lamports up to 10 SOL, an account can be drained to exactly
      the minimum if and only if that is so. */
  lemma CanDrainIff(rate: ExchangeRate, price: nat, balance: nat, held: nat)
    requires WholePrice(rate, price) && price <= 10 * LAMPORTS_PER_SOL
    requires MINIMUM_STAKE_ACCOUNT_BALANCE <= balance <= MAX_U64
    ensures CanDrain(rate, balance, held) <==> WholeExcess(price, balance - MINIMUM_STAKE_ACCOUNT_BALANCE, held)
  {
    if CanDrain(rate, balance, held) {
      DrainNeedsWholeExcess(rate, price, balance, held);
    }
    if WholeExcess(price, balance - MINIMUM_STAKE_ACCOUNT_BALANCE, held) {
      WholeExcessDrains(rate, price, balance - MINIMUM_STAKE_ACCOUNT_BALANCE, held);
    }
  }

  // ---------------------------------------------------------------- at any price

  /** The most stSOL that converts to no more than a target. */
  function StSolFor(rate: ExchangeRate, target: nat): nat
    requires 0 < rate.solBalance
  {
    target * rate.stSolSupply / rate.solBalance
  }

  /** A lamport of stSOL is worth no more than that. */
  predicate CostsAtMost(rate: ExchangeRate, worth: nat) {
    rate.solBalance <= worth * rate.stSolSupply
  }

  /** It misses the target by no more than what one stSOL lamport is worth. */
  lemma TargetMissed(rate: ExchangeRate, target: nat, worth: nat)
    requires Proper(rate) && target <= MAX_U64 && CostsAtMost(rate, worth)
    ensures ExchangeStSol(rate, StSolFor(rate, target)).Ok?
    ensures Converted(rate, StSolFor(rate, target)) <= target <= Converted(rate, StSolFor(rate, target)) + worth
  {
    var b, s, a := rate.solBalance, rate.stSolSupply, StSolFor(rate, target);
    FloorFitsU64(target * s, b);
    assert a * b <= target * s < a * b + b;
    MulMonotone(target, MAX_U64, s);
    assert ExchangeStSol(rate, a).Ok?;
    var sol := Converted(rate, a);
    assert sol * s <= a * b < sol * s + s;
    MulCancel(sol, target, s);
    Distributes(sol, worth, s);
    MulCancel(target, sol + worth, s);
  }

  /** While more than that is left, as much as possible can be withdrawn: at least 5
      SOL, or so much that no more than the price is left. */
  lemma MoreCanBeDrained(rate: ExchangeRate, worth: nat, balance: nat, held: nat) returns (amount: nat)
    requires Proper(rate) && CostsAtMost(rate, worth) && worth <= 5 * LAMPORTS_PER_SOL
    requires balance <= MAX_U64 && MINIMUM_STAKE_ACCOUNT_BALANCE + RentDue(held) + worth < balance
    ensures FitsOnce(rate, amount, balance, held)
    ensures 5 * LAMPORTS_PER_SOL <= Converted(rate, amount) || balance - MINIMUM_STAKE_ACCOUNT_BALANCE <= Converted(rate, amount) + worth
  {
    amount := StSolFor(rate, LargestWithdrawal(balance));
    TargetMissed(rate, LargestWithdrawal(balance), worth);
  }

  /** At every price up to 5 SOL for a lamport of stSOL, an account can be drained up to
      that price and the rent of a payout, with one withdrawal for every started 5 SOL. */
  lemma {:induction false} DrainsClose(rate: ExchangeRate, worth: nat, balance: nat, held: nat) returns (plan: seq<nat>)
    requires Proper(rate) && CostsAtMost(rate, worth) && worth <= 5 * LAMPORTS_PER_SOL
    requires MINIMUM_STAKE_ACCOUNT_BALANCE <= balance <= MAX_U64
    ensures Fits(rate, plan, balance, held)
    ensures Paid(rate, plan) <= balance - MINIMUM_STAKE_ACCOUNT_BALANCE <= Paid(rate, plan) + RentDue(held) + worth
    ensures plan != [] ==> (|plan| - 1) * (5 * LAMPORTS_PER_SOL) <= balance - MINIMUM_STAKE_ACCOUNT_BALANCE
    ensures balance - MINIMUM_STAKE_ACCOUNT_BALANCE <= RentDue(held) + worth ==> plan == []
    decreases balance
  {
    plan := [];
    if MINIMUM_STAKE_ACCOUNT_BALANCE + RentDue(held) + worth < balance {
      var amount := MoreCanBeDrained(rate, worth, balance, held);
      var rest := DrainsClose(rate, worth, balance - Converted(rate, amount), held);
      OneMoreFits(rate, amount, rest, balance, held);
      plan := [amount] + rest;
    }
  }
}
