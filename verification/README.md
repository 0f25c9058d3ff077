# Solido: a model with proofs

Solido is a liquid-staking program: users deposit SOL and get stSOL, maintainers
stake the SOL with validators, and users turn stSOL back into staked SOL. This
project models the on-chain program as a state machine over what it stores (its
*books*) and what the chain holds for it (its *ledger*), together with the token
arithmetic, the byte-level account lists, the balancing algorithms and the
client's snapshot reader, and proves properties of them with Dafny 4.11:
`dafny verify dfyconfig.toml`.

## How the model is built

- `State` holds the data: the ledger (reserve lamports, stSOL supply, and a map
  from stake addresses to accounts: unused ones, live stake accounts whose lamports
  are divided into inactive, activating, active and deactivating, emptied ones, and
  emptied ones that somebody took over)
  and the books (exchange rate, metrics, and per validator two seed ranges, two
  tracked balances, the cached effective balance and the status).
- `Instructions` defines every instruction as a function from a state to the next
  state or an error, with the checks in the order of the program, and the outside
  events: a new epoch that divides balances anew, validation rewards, gifts to the
  reserve or to any stake address, somebody reviving an emptied stake account in the
  same transaction, and holders burning their stSOL. `Run` attempts
  any sequence of steps; a failing step is rolled back.
- `Processor` has the program's own form: a class `Solido` whose methods update
  the fields in place, with the loops of the program, each proved to compute the
  transition of its instruction; `Execute` is the transaction that undoes a failed
  instruction. So what is proved about transitions holds for the methods.
- `Books`, `Placement`, `Solvency`, `Updates`, `Imbalance`, `Order`, `Panics`,
  `Acceptance`, `TakeOvers`, `Draining` and `Retirement` prove the properties over steps
  and runs; `Effects` states what every step does to the whole state, and `Refusals` that
  every error is given for a reason that holds;
  `Restart` and `Examples` hold the runs in which something fails. `LedgerFacts` and
  `Permutations` are what they share.
- `Token` and `TokenText` hold the arithmetic, and printing and parsing;
  `Balance` the balancing algorithms; `Bytes`, `BigVec` and `AccountList` the
  vector in a raw byte buffer and the list on top of it; `Snapshot` the client.

The invariant of all reachable states (`Solvency.Inv`) has four parts: the books
never claim more than the ledger holds, every program-owned lamport sits inside a
seed range, the pool's SOL equals the recorded totals, and every stSOL is backed at
a price no lower than the recorded one.

## What turned out to be false

- The doc comment of `get_unstake_validator_index` (`program/src/balance.rs:106-110`)
  says that it tries to unstake if any validator is too far from its target. It misses
  one exactly if nobody is far below and everybody far above is hidden by an
  excess that is no smaller, on a larger target or on none (`Balance.MissedIff`). With the pool's own
  targets and a threshold of at most one, only a target of zero hides others, such as
  that of an inactive validator, which compares with no threshold
  (`Balance.MissedByPoolIff`, with the list of `Balance.HidingExample`).
- The comment in `process_withdraw` (`program/src/processor.rs:1109-1113`) says that the
  minimum can be reached in a finite number of withdrawals. But stSOL amounts convert to
  certain amounts of SOL only, and each must exceed the rent that is due for the account
  it goes to, which is none if that account holds the rent already. At every price of
  whole lamports up to 10 SOL the minimum is reached exactly if the excess over it is a
  multiple of the price, and none or more than the rent due (`Draining.CanDrainIff`); at
  other prices `Draining.DrainsClose` says how close one gets.
- `can_merge` (`program/src/stake_account.rs:250-279`) follows the rules in its comments,
  but for stake that activates over several epochs: its comments restrict merging to
  the activation epoch, and it does not look at stake that is active already
  (`State.CanMergeIff`, with `State.ProposedButNeverMerged`).
- The comment in `process_stake_deposit` (`program/src/processor.rs:315-321`) says that
  reviving an emptied stake account affects only the current epoch. That holds for the
  temporary accounts it is about (`TakeOvers.TakeOverStopsOnlyMerging`,
  `TakeOvers.DamageEndsWithEpoch`). Numbered stake accounts are opened once in a
  membership, so appending is never blocked for a validator that was never removed
  (`TakeOvers.FirstMembershipIsNeverBlocked`); one that is added again starts over with
  seed zero, and may find the address taken (`Examples.AppendBlockedExample`).
- `compute_effective_stake_balance` expects that unstaked balance never exceeds the
  total (`program/src/state/validator.rs:81-84`). `Unstake` can break that: an
  inactive validator must have its oldest stake account unstaked as a whole, and if
  that account holds more than is tracked, because of rewards or gifts that no
  update has found, every attempt aborts until the next update. `Panics.InactiveUnstakeIff`
  says exactly when, `Examples.UnstakeAbortsExample` is a run that gets there with one
  donated lamport, and `Panics.ExactIsSafe` says that an update cures it.
- The SOL/stSOL price is kept only while the recorded supply stays nonzero. When all
  stSOL is burnt and SOL remains, the next depositor starts again at one to one;
  `Restart.PriceFallsIff` says exactly when that lowers the price, and
  `Restart.PriceFallsExample` is a run in which it does.
- `FromStr` does not reject amounts that exceed 64 bits. Builds that trap on overflow
  abort, builds that wrap return the amount modulo 2^64, and the release profile does
  not enable trapping. `TokenText.FromStr` covers both kinds of build.

## Model

| member | source | states |
|---|---|---|
| Solvency.ReachableInv | program/src/processor.rs:61-1174 | in every state reachable from any set-up by any run of instructions and outside events, all four invariants hold |
| Solvency.RunKeepsInv | program/src/processor.rs:180-1174 | any run from a state with the invariants ends in one |
| Solvency.AlwaysBacked | program/src/state.rs:413-447 | in every reachable state pool SOL is at least the stSOL supply, and the rate with stSOL but no SOL never arises, recorded or current |
| Solvency.PriceNeverFalls | program/src/processor.rs:597-630 | over any run in which the recorded supply stays nonzero, neither the recorded price nor the price that could be recorded now is below an earlier recorded one |
| Solvency.StepKeepsPrice | program/src/processor.rs:624-627 | one step never records a lower price |
| Solvency.StepKeepsSolvent | program/src/processor.rs:180-1174 | each successful step keeps the supply backed, at the recorded price or better |
| Solvency.UpdateRateSolvent | program/src/processor.rs:608-627 | an update of the rate records exactly the epoch, the supply and the pool's SOL, and keeps the pool solvent |
| Solvency.FeesKeepSolvent | program/src/logic.rs:343-399 | minting fees on rewards never outruns the rewards, with both roundings |
| Solvency.MintKeepsSolvent | program/src/processor.rs:204-214 | adding SOL with at most a fair share of new stSOL keeps backing and price |
| Solvency.WithdrawKeepsSolvent | program/src/processor.rs:1099-1146 | paying out at most the recorded value of burnt stSOL keeps backing and price |
| Solvency.StepFlow | program/src/state.rs:820-837 | each step changes pool SOL by exactly its flow: deposits and gifts to the reserve add, withdrawals subtract, updates add the rewards, everything else is neutral |
| Solvency.StakeDepositFlow | program/src/processor.rs:355-417 | staking moves SOL from the reserve to a stake account without changing pool SOL, in both approaches |
| Solvency.UnstakeFlow | program/src/processor.rs:523-592 | unstaking changes no pool SOL |
| Solvency.MergeStakeFlow | program/src/process_management.rs:394-466 | merging changes no pool SOL |
| Solvency.WithdrawFlow | program/src/processor.rs:1099-1163 | a withdrawal lowers pool SOL by exactly the converted amount |
| Solvency.UpdateFlow | program/src/processor.rs:1005-1026 | an update raises pool SOL by exactly the rewards, whatever it moves to the reserve |
| Solvency.ListFlow | program/src/process_management.rs:70-103 | adding, removing and changing the status of a validator change no pool SOL; a removed validator has no tracked balance |
| Solvency.RewardsRecorded | program/src/metrics.rs:94-131 | the three fee totals together grow by exactly the rewards that an update finds |
| Solvency.FeesAddUp | program/src/logic.rs:361-396 | fee distribution touches only supply and metrics, and books every lamport of a reward in one of the three totals |
| Solvency.StepKeepsAccounting | program/src/metrics.rs:94-235 | pool SOL always equals initial reserve, gifts, deposits and observed rewards minus withdrawals, as the recorded totals have them |
| Solvency.InitializeInv | program/src/processor.rs:61-178 | a freshly set-up pool has all invariants, also when lamports were sent to its addresses before |
| Restart.PriceFallsIff | program/src/state.rs:413-418 | after all stSOL is burnt and a rate without stSOL is recorded, the price after the next deposit is below the earlier recorded one exactly when the deposit is large enough against the SOL that was left |
| Restart.AfterStartingOver | program/src/processor.rs:204-214 | that run ends with one stSOL per deposited lamport and with all of the old SOL |
| Restart.PriceFallsExample | program/src/state.rs:413-418 | from every set-up whose reserve leaves room for 200 more lamports, a run leads to a lower price |
| Books.RunKeepsBooks | program/src/processor.rs:180-1174 | in every state of every run each validator's effective balance is at most the lamports at its stake seeds, its unstaked balance at most those at its unstake seeds, the cached effective balance is the recomputed one, seed ranges are ordered with at most 3 unstake accounts, keys are unique and the list is within capacity |
| Books.StepKeepsBooks | program/src/processor.rs:180-1174 | each step keeps that |
| Books.InitializeKeepsBooks | program/src/processor.rs:71-178 | it holds at first |
| Books.StakeDepositKeepsBooks | program/src/processor.rs:383-417 | staking keeps it, in both approaches |
| Books.UnstakeKeepsBooks | program/src/processor.rs:507-592 | unstaking keeps it, for active and inactive validators |
| Books.MergeStakeKeepsBooks | program/src/process_management.rs:394-466 | merging keeps it: lamports of the account that disappears are in the one that stays |
| Books.WithdrawKeepsBooks | program/src/processor.rs:1068-1163 | withdrawing keeps it: the same amount leaves the books and the oldest account |
| Books.UpdateKeepsBooks | program/src/processor.rs:891-1026 | an update keeps it |
| Books.UpdateAccounted | program/src/processor.rs:1015-1024 | after collecting, tracked balances equal the lamports at the remaining seeds exactly |
| Books.AddKeepsBooks | program/src/process_management.rs:70-71 | adding keeps it, keys stay unique |
| Books.RemoveKeepsBooks | program/src/process_management.rs:94-102 | removing keeps it, with the last entry moved into the gap |
| Books.ChangeStatusKeepsBooks | program/src/state/validator.rs:205-229 | deactivating, activating and enqueueing keep it |
| Books.StakedHasAccount | program/src/processor.rs:1068-1096 | a nonzero effective balance implies that the seed a withdrawal uses is inside the stake range |
| Books.ExamineFailsOnlyOutside | program/src/processor.rs:941-1022 | within the invariant no observed balance is below the tracked one and no expectation about rewards fails: an update examines successfully exactly when all accounts are live with their rent and the total fits 64 bits |
| Placement.RunKeepsPlacement | program/src/processor.rs:416-592 | in every state of every run, also if emptied accounts are revived by others, a pool account with its rent is at an address exactly if that is inside a seed range of a listed validator, and all other stake addresses hold nothing but what outsiders put there |
| Placement.StepKeepsPlacement | program/src/processor.rs:416-592 | each step keeps that |
| Placement.StakeDepositKeepsPlacement | program/src/processor.rs:386-467 | a new account appears exactly at the end seed; after a merging deposit the temporary address is empty and nothing is lost there |
| Placement.UnstakeKeepsPlacement | program/src/processor.rs:560-592 | the split-off account is inside the unstake range, and a used-up source is outside the stake range |
| Placement.MergeStakeKeepsPlacement | program/src/process_management.rs:396-466 | the merged-away account is empty and outside |
| Placement.WithdrawKeepsPlacement | program/src/processor.rs:1133-1163 | a withdrawal never uses up its source |
| Placement.UpdateKeepsPlacement | program/src/processor.rs:978-997 | emptied unstake accounts leave the range, without holes |
| Placement.RemoveKeepsPlacement | program/src/process_management.rs:94-102 | a removed validator leaves no live account behind |
| Effects.UpdateKeepsStake | program/src/processor.rs:905-997 | an update takes only inactive lamports out of stake accounts, down to the rent; activating, active and deactivating stake and delegations stay, the emptied prefix of unstake accounts is closed, and every other address is as before |
| Effects.UpdateKeepsTheRest | program/src/processor.rs:1015-1028 | besides reserve, accounts, supply, fee totals and the entry of the validator an update changes nothing |
| Effects.UpdatePaysFees | program/src/logic.rs:343-399 | an update pays fees on exactly what its accounts held beyond the tracked balance: each share rounded down and converted at the recorded rate into its own totals, appreciation the rest, the supply by what is minted |
| Effects.FeesEffect | program/src/logic.rs:361-396 | what distributing fees records and mints |
| Effects.AppendEffect | program/src/processor.rs:353-417 | an appending deposit delegates: at the old end seed only the rent is inactive and all else activating, with the current epoch and credits; reserve and entry change by the amount, nothing else does |
| Effects.MergeDepositEffect | program/src/processor.rs:418-466 | a merging deposit moves the amount and what the temporary address held to the newest account, which keeps its delegation |
| Effects.UnstakeEffect | program/src/processor.rs:521-592 | both parts of a split have the runtime's divisions and the old delegation, an emptied source is closed, the entry moves the amount, nothing else changes |
| Effects.MergeStakeEffect | program/src/process_management.rs:394-466 | the second oldest account has all lamports and the delegation of stake in effect, the oldest is closed, nothing else changes |
| Effects.WithdrawEffect | program/src/processor.rs:1098-1163 | the burnt stSOL, the SOL rounded down, both totals, the count, and the oldest account: the rest of it stays delegated as it was |
| Effects.DepositEffect | program/src/processor.rs:195-226 | a deposit adds to the reserve, mints at the recorded rate rounded down, or one to one, and is recorded |
| Effects.InitializeEffect | program/src/processor.rs:71-168 | when a pool can be set up, and under which terms it starts |
| Effects.InitializeRecordsNothing | program/src/processor.rs:163 | all totals and counts start at zero |
| Effects.InitializeLeavesAddresses | program/src/processor.rs:377-381 | no stake address has an account yet, and each holds what it was sent |
| Effects.HistogramCounts | program/src/metrics.rs:157-204 | after any list of deposits each bucket has counted exactly those up to its bound, and the total is their sum |
| Effects.LastBucketCountsAll | program/src/metrics.rs:206-210 | every observation falls in the last bucket |
| Effects.BucketsGrowTenfold | program/src/metrics.rs:145-184 | the bounds increment by a factor of ten, from a ten-thousandth of a SOL |
| Effects.AddEffect | program/src/process_management.rs:70-71 | a new validator comes last and has nothing |
| Effects.RemoveEffect | program/src/big_vec.rs:71-102 | removal drops one entry, moves the last one to its place, and leaves the others |
| Effects.ChangeStatusEffect | program/src/state/validator.rs:205-229 | activation and deactivation exchange two statuses, and do not touch a validator that is pending removal |
| Effects.ChangeDistributionEffect | program/src/process_management.rs:25-42 | the new shares replace the old ones, and nothing else changes |
| Effects.EpochEffect | program/src/stake_account.rs:187-227 | a new epoch divides lamports anew and moves none |
| Effects.RewardEffect | program/src/state.rs:364-371 | a reward is active stake of a live account |
| Effects.GiftEffect | program/src/processor.rs:377-381 | a gift to an address is inactive lamports of a live account, and otherwise just there |
| Effects.TakeOverEffect | program/src/processor.rs:315-321 | exactly an emptied address can be taken over, and nothing else changes |
| Refusals.StakeDepositRefused | program/src/processor.rs:248-466 | every error of a stake deposit names a cause that holds |
| Refusals.UnstakeRefused | program/src/processor.rs:499-592 | every error of unstaking names a cause that holds |
| Refusals.MergeStakeRefused | program/src/process_management.rs:394-466 | every error of merging names a cause that holds |
| Refusals.WithdrawRefused | program/src/processor.rs:1043-1163 | every error of a withdrawal names a cause that holds |
| Refusals.DepositRefused | program/src/processor.rs:187-225 | every error of a deposit names a cause that holds |
| Refusals.RateUpdateRefused | program/src/processor.rs:608-627 | every error of a rate update names a cause that holds |
| Refusals.UpdateRefused | program/src/processor.rs:889-1026 | every error of an update names a cause that holds |
| Refusals.AddRefused | program/src/state.rs:241-257 | a full list or a duplicate is what is reported |
| Refusals.RemoveRefused | program/src/state/validator.rs:107-120 | every error of removal names a cause that holds |
| Refusals.ChangeStatusRefused | program/src/state.rs:259-280 | only an index or key that does not match is refused |
| Updates.UpdateLeaves | program/src/processor.rs:905-1028 | after an update the books are exact, stake accounts keep only rent besides what is at stake, exactly the maximal prefix of fully inactive unstake accounts is emptied and out of range, and no lamport is lost between accounts and reserve |
| Updates.UpdateIsIdempotent | program/src/processor.rs:867-1029 | a second update right afterwards finds zero rewards and changes nothing |
| Updates.UpdateFailsOnlyOutside | program/src/processor.rs:930-1022 | in a reachable state the examination of a listed validator fails only if an account lost its rent or the SOL does not fit 64 bits |
| Updates.RemovalFindsNoBalance | program/src/state/validator.rs:107-120 | the assertion that a removable validator has no balance never fails |
| LedgerFacts.WalkStakeFinds | program/src/processor.rs:905-939 | the walk over stake accounts succeeds exactly when all are live with rent and the total fits, and takes out exactly what skimming each to its rent takes out |
| LedgerFacts.WalkUnstakeFinds | program/src/processor.rs:950-997 | the walk over unstake accounts removes exactly the maximal fully inactive prefix |
| LedgerFacts.GetSolBalanceIsPoolSol | program/src/state.rs:820-837 | the checked sum is the pool's SOL and fails only if that does not fit 64 bits |
| LedgerFacts.MinimumActiveIsLeast | program/src/processor.rs:262-268 | the minimum found is the least effective balance of an active validator, and exists exactly if there is one |
| LedgerFacts.MaximumEffectiveIsGreatest | program/src/processor.rs:1056-1061 | the maximum found is the greatest effective balance of all validators |
| Panics.PanicCauses | program/src/state/validator.rs:81-84 | in a reachable state the only expectations about the books that can fail are named, each with its cause |
| Panics.ExactIsSafe | program/src/processor.rs:590-591 | right after an update no unstake or withdrawal can take out more than is tracked |
| Panics.InactiveUnstakeIff | program/src/processor.rs:574-591 | an inactive validator's oldest account can be unstaked exactly when it holds no more than the tracked effective balance, and only as a whole |
| Acceptance.AppendAccepted | program/src/processor.rs:248-416 | in a reachable state a stake deposit into a new account succeeds exactly for an amount between the minimum and the available reserve, an active validator that no active one is below, a tracked balance that fits, and an address that was not taken over, whatever it was sent |
| Acceptance.MergeDepositAccepted | program/src/processor.rs:418-466 | merging into the newest account needs exactly, besides, that this epoch's temporary address is free, that the newest account is inactive or in its activation epoch, and a division that adds up |
| Acceptance.UnstakeAccepted | program/src/processor.rs:499-592 | unstaking succeeds exactly within the tracked balance and 3 unstake accounts, leaving the minimum for an active validator and taking everything for an inactive one, with more than the rent in the new account |
| Acceptance.WithdrawAccepted | program/src/processor.rs:1043-1163 | a withdrawal succeeds exactly with an up-to-date rate, from a validator that none has more stake than, within its tracked balance, the supply and the limits of its oldest account, to a free account that ends up with more than its rent |
| Acceptance.MergeStakeAccepted | program/src/process_management.rs:394-466 | merging succeeds exactly for a validator whose two oldest stake accounts the stake program merges, with a division that adds up |
| Acceptance.RemoveAccepted | program/src/state/validator.rs:107-120 | removal succeeds exactly for a listed validator that is pending removal and has no accounts |
| Acceptance.DepositAccepted | program/src/processor.rs:187-225 | the conversion of a deposit never fails, so a nonzero deposit succeeds exactly if supply and total fit |
| Acceptance.RateUpdateAccepted | program/src/processor.rs:608-627 | the rate can be updated exactly if it was not yet in this epoch and the pool's SOL fits 64 bits |
| Acceptance.UpdateAccepted | program/src/processor.rs:867-1029 | an update succeeds exactly for a listed validator whose stake accounts have their rent, whose lamports fit, and for which the fees on untracked lamports, if there are any, can be minted and recorded with an up-to-date rate and nonzero shares |
| Acceptance.FeesAccepted | program/src/logic.rs:343-399 | fee distribution fails only for an outdated rate, zero shares, or totals that do not fit |
| TakeOvers.TakeOverStopsOnlyMerging | program/src/processor.rs:315-324 | taking over a temporary address makes merging deposits through it fail, and every other instruction has the same outcome as without it |
| TakeOvers.DamageEndsWithEpoch | program/src/processor.rs:315-324 | once the epoch of the address is over, no run of instructions is affected at all |
| TakeOvers.RunAgrees | program/src/processor.rs:315-324 | over every run without a merging deposit through the address, all steps have the same outcome, whatever is at the address |
| TakeOvers.FirstMembershipIsNeverBlocked | program/src/logic.rs:128-132 | over every run in which no removal of a validator succeeds, gifts and take-overs included, appending is accepted by the books alone |
| TakeOvers.FirstMembershipCanUnstake | program/src/processor.rs:499-592 | over every such run, unstaking is accepted by the books, the divisions and the rent of the new account alone |
| Retirement.CanBeRemoved | program/src/process_management.rs:73-79 | from every reachable state with a validator that is pending removal, with free addresses ahead and room for what its updates can find, some run of instructions and outside events empties and removes it |
| Retirement.FirstMembershipCanEnd | program/src/process_management.rs:105-134 | in a first membership the addresses are always free, so whatever happened, it can be ended |
| Examples.AppendBlockedExample | program/src/processor.rs:335-341 | a run after which a validator that was removed and added again cannot be staked with |
| Examples.UnstakeAbortsExample | program/src/processor.rs:574-591 | from every set-up with room for a validator and for every amount, a run after which unstaking the only allowed amount aborts |
| Draining.DrainRun | program/src/processor.rs:1109-1163 | a run of withdrawals from one validator succeeds exactly if each amount converts, exceeds the rent due and is within the limits of what is left, and leaves exactly the rest in the oldest account |
| Draining.CanDrainIff | program/src/processor.rs:1109-1113 | at every price of whole lamports up to 10 SOL an account can be drained to exactly the minimum if and only if the excess is a multiple of the price, and none or more than the rent due |
| Draining.DrainNeedsRent | program/tests/tests/withdrawals.rs:72-87 | at every price, no plan of withdrawals removes a last bit that is no more than the rent |
| Draining.DrainsClose | program/src/processor.rs:1109-1113 | at every price up to 5 SOL for a stSOL lamport, an account can be drained up to that price and the rent of a payout, with one withdrawal per started 5 SOL |
| Imbalance.BoundedImbalance | program/src/processor.rs:257-291 | over any run of stake deposits and withdrawals the spread between active validators never exceeds the larger of the initial spread and the largest amount moved |
| Imbalance.StakeDepositSpread | program/src/processor.rs:280-291 | one stake deposit keeps such a bound |
| Imbalance.WithdrawSpread | program/src/processor.rs:1073-1084 | one withdrawal keeps such a bound |
| Imbalance.SeedsNeverGoBack | program/src/processor.rs:416-594 | while a validator stays listed, no run moves either end of its seed ranges back, and pending removal is final |
| Imbalance.StepAdvances | program/src/processor.rs:416-594 | one step moves no seed back, and takes no pending removal back |
| Imbalance.WithdrawalLimit | program/src/processor.rs:1109-1140 | an amount passes both limit checks exactly if it is at most the smaller of a tenth plus 10 SOL and what lies above the minimum |
| Imbalance.DrainingReachesMinimum | program/src/processor.rs:1109-1113 | as far as the program's own limits go, withdrawing the most allowed reaches exactly the minimum within one withdrawal per started 10 SOL above it |
| Order.OrderDoesNotMatter | program/src/state.rs:354-362 | any reordering of a list of deposits and balance updates succeeds together with it and ends in the same state, totals and fees included |
| Order.StepsCommute | program/src/state.rs:338-362 | any two such steps can trade places |
| Order.UpdatesCommute | program/src/state.rs:347-362 | observing the rewards of two validators in either order gives the same state |
| Order.DepositUpdateCommute | program/src/state.rs:354-362 | a deposit and an observation of rewards can trade places, failures included |
| Order.PostsCommute | program/src/logic.rs:361-396 | minting and recording two amounts in either order succeeds together with the same totals |
| Permutations.AnyOrder | program/src/state.rs:358-362 | steps that can trade places pairwise give the same result in every order |
| State.FromDelegatedAccount | program/src/stake_account.rs:187-227 | the division of an account's lamports adds up to them, exists exactly if the delegation fits the account, and is fully inactive exactly if nothing is effective or activating |
| State.EveryDivisionOccurs | program/src/stake_account.rs:187-227 | every division is that of some delegation, so the model may use any |
| State.CanMergeIff | program/src/stake_account.rs:248-279 | a merge is proposed exactly if the stake program does it, except for stake that activates over several epochs; merging is symmetric |
| State.ProposedButNeverMerged | program/src/stake_account.rs:257-263 | accounts of every scale for which a merge is proposed and never done |
| Processor.Solido.PayReward | program/src/stake_account.rs:262-264 | a reward adds active stake to a live account and new credits |
| Processor.Solido.TakeAddressOver | program/src/processor.rs:315-321 | only an address whose account was emptied can be taken over |
| Processor.Solido.ProcessInitialize | program/src/processor.rs:71-177 | sets up a new pool, or fails for a reserve without rent, an already used mint or a commission over 100 |
| Processor.Solido.ProcessDeposit | program/src/processor.rs:180-227 | computes the deposit transition; no check of the epoch |
| Processor.Solido.ObserveDeposit | program/src/metrics.rs:194-204 | counts the deposit in exactly the buckets whose bound it does not exceed, and adds it to the total |
| Processor.Solido.ProcessStakeDeposit | program/src/processor.rs:229-470 | computes the stake-deposit transition: books, reserve, accounts and error |
| Processor.Solido.ProcessUnstake | program/src/processor.rs:474-595 | computes the unstake transition |
| Processor.Solido.ProcessMergeStake | program/src/process_management.rs:379-469 | computes the merge transition |
| Processor.Solido.VisitStakeAccount | program/src/processor.rs:930-938 | skims one stake account to its rent into the reserve |
| Processor.Solido.VisitUnstakeAccount | program/src/processor.rs:976-996 | empties one unstake account exactly if it is the oldest and fully inactive |
| Processor.Solido.CollectStake | program/src/processor.rs:905-939 | the loop over stake accounts computes the walk, and moves its excess to the reserve |
| Processor.Solido.CollectUnstake | program/src/processor.rs:950-997 | the loop over unstake accounts computes the walk, and moves what it removes to the reserve |
| Processor.Solido.ObserveAccounts | program/src/processor.rs:891-1024 | both loops and the checks between them arrive at the examined rewards and balances |
| Processor.Solido.ObserveFees | program/src/metrics.rs:94-131 | records the parts of a reward in the totals |
| Processor.Solido.ProcessFees | program/src/logic.rs:343-399 | computes the distribution of fees |
| Processor.Solido.ProcessUpdateStakeAccountBalance | program/src/processor.rs:867-1029 | computes the update transition |
| Processor.Solido.SumBalances | program/src/token.rs:160-168 | the summing loop computes the checked sum |
| Processor.Solido.ProcessUpdateExchangeRate | program/src/processor.rs:597-630 | computes the rate update; a failure half-way leaves the epoch changed until it is rolled back |
| Processor.Solido.ProcessWithdraw | program/src/processor.rs:1034-1174 | computes the withdrawal transition |
| Processor.Solido.ProcessAddValidator | program/src/state.rs:241-257 | appends a new validator if there is space and its key is new |
| Processor.Solido.ProcessRemoveValidator | program/src/process_management.rs:79-103 | removes first and checks afterwards, and together with the rollback computes the removal transition |
| Processor.Solido.ProcessChangeStatus | program/src/process_management.rs:110-164 | computes a change of status |
| Processor.Solido.Process | program/src/processor.rs:180-1174 | each instruction's method computes its transition |
| Processor.Solido.Happen | program/src/state.rs:364-371 | each outside event changes the chain as its step says |
| Processor.Solido.Execute | program/src/process_management.rs:94-101 | a transaction ends in the state after its step, and in the old state if the step fails at any point |
| Token.CompareLaws | program/src/token.rs:31-41 | rationals are incomparable exactly for a zero denominator, compare over one denominator as their numerators do, whatever they are expanded by, and the other way around when exchanged |
| Token.Mul | program/src/token.rs:106-118 | the quotient rounded down; fails exactly for a zero denominator or a result over 64 bits |
| Token.ProductFitsU128 | program/src/token.rs:109-113 | the intermediate product never wraps |
| Token.ExchangeRoundTrip | program/src/state.rs:413-447 | converting SOL to stSOL and back cannot fail the second time, never gains, and loses less than one unit of each in value |
| Token.SplitDeposit | program/src/state.rs:413-429 | splitting a deposit in two never mints more, and at most one unit less |
| Token.ExchangeDirection | program/src/state.rs:413-447 | with at least as much SOL as stSOL, converting to stSOL never gains units and converting to SOL never loses any |
| Token.RewardSplit | program/src/state.rs:1043-1063 | a split fails exactly if the shares sum to zero; the parts sum to the reward, fees are rounded down, appreciation gets its exact share and less than 2 lamports more; the assertion holds |
| TokenText.FromStr | program/src/token.rs:176-221 | accepts exactly the texts that denote an amount the build can hold, with that value (modulo 2^64 if the build wraps), and rejects only texts that denote none, with a message that is true of the text |
| TokenText.ScaleUp | program/src/token.rs:211-217 | the scaling loop multiplies by the missing power of ten, with the build's overflow behaviour |
| TokenText.PrintShape | program/src/token.rs:88-98 | the printed form is the whole part without leading zeros, a point, and as many digits of the rest as there are decimals |
| TokenText.PrintParseRoundTrip | program/src/token.rs:88-98 | the printed form of every 64-bit amount with up to 9 decimals denotes that amount |
| TokenText.ParsePrinted | program/src/token.rs:169-221 | parsing what was printed gives the amount in both builds, without any intermediate overflow |
| TokenText.UnderscoresIgnored | program/src/token.rs:198 | texts that differ only in underscores denote the same amount, or both none |
| Balance.GetTargetBalance | program/src/balance.rs:20-104 | fails exactly on overflow or without active validators; targets sum to all SOL, are zero for inactive validators, differ by at most one lamport and never increase along the list; neither assertion can fail |
| Balance.DistributeRemainder | program/src/balance.rs:81-92 | the remainder loop hands out the whole remainder, one lamport each |
| Balance.TargetsAreUnique | program/src/balance.rs:48-101 | those properties determine the targets |
| Balance.GetMinimumStakeValidatorIndexAmount | program/src/balance.rs:167-206 | returns the first active validator with the least recomputed balance, and its shortfall |
| Balance.MinimumPassesCheck | program/src/processor.rs:262-291 | that choice passes the on-chain check for a validator with less stake |
| Balance.ChosenStakeDepositSucceeds | program/src/processor.rs:248-417 | in a reachable state, staking an allowed amount with the chosen validator succeeds exactly if the tracked balance fits 64 bits and the address was not taken over |
| Balance.ShortfallIsPositive | program/src/balance.rs:184-191 | with at least one undelegated lamport per active validator, the chosen one is below its target |
| Balance.LastMaximum | program/src/balance.rs:211-215 | the selected index is the last of the greatest |
| Balance.MaximumPassesCheck | program/src/processor.rs:1056-1084 | the validator chosen for a withdrawal passes the on-chain check for a validator with more stake |
| Balance.ChosenWithdrawalSucceeds | program/src/processor.rs:1052-1163 | in a reachable state with an up-to-date rate, an amount within limits and tracked balance, and above the rent of the receiving account, can be withdrawn from it |
| Balance.UnstakeIff | program/src/balance.rs:111-161 | for all targets and thresholds, unstaking is proposed exactly if somebody is far below the target, or far above one that is no smaller than that of the validator with the largest excess, which has one |
| Balance.UnstakeChoice | program/src/balance.rs:136-157 | what is proposed is the largest excess over a target, and the last validator that has it; it is positive if nobody is far below and the threshold is positive |
| Balance.WithdrawalChoice | program/src/balance.rs:208-216 | the choice is the last validator with the most effective stake, and fails exactly without validators |
| Balance.MissedIff | program/src/balance.rs:106-110 | for all targets and thresholds, a validator that is too far away is missed exactly if nobody is far below, and everybody far above is hidden by an excess that is no smaller, on no target or on a larger one |
| Balance.MissedByPoolIff | program/src/balance.rs:106-110 | with the pool's targets and a threshold of at most one, it is missed exactly if nobody is far below, and nobody is far above or the largest excess is on no target, which means an inactive validator if there is a lamport for every active one |
| Balance.HidingExample | program/src/balance.rs:136-160 | lists of every scale, with their targets, in which an active validator is a tenth above its target and nothing is proposed |
| Balance.ZeroTargetIsNeverFar | program/src/balance.rs:127-156 | a zero target is never far, on either side, whatever the threshold |
| BigVec.Vector.Len | program/src/big_vec.rs:26-29 | the stored count is the number of records |
| BigVec.Vector.GetSliceBounds | program/src/big_vec.rs:43-62 | gives the bounds of a record inside the buffer, and fails exactly for an index out of range |
| BigVec.Vector.Get | program/src/big_vec.rs:65-69 | reads exactly the record at the index |
| BigVec.Vector.Set | program/src/big_vec.rs:65-69 | a write through the reference changes that record alone |
| BigVec.Vector.SwapRemoveAt | program/src/big_vec.rs:74-102 | returns the record, moves the last one into its place and drops the end; a failure changes nothing |
| BigVec.Vector.Push | program/src/big_vec.rs:105-123 | appends the record if the buffer has room, and otherwise changes nothing |
| BigVec.Vector.Find | program/src/big_vec.rs:148-162 | finds the first matching record, or none matches |
| BigVec.Vector.Collect | program/src/big_vec.rs:174-190 | the iterator yields all records in order |
| BigVec.Appended | program/src/big_vec.rs:110-121 | bytes behind the records plus a bumped count are one more record, all others unchanged |
| BigVec.Removed | program/src/big_vec.rs:79-99 | overwriting a record with the last one and lowering the count removes it from the sequence |
| AccountList.CapacityIsLargest | program/src/state.rs:161-169 | the computed capacity is the largest number of entries whose required bytes fit |
| AccountList.RequiredIsRoom | program/src/state.rs:156-169 | the required bytes are those of the header and of a vector with so many records |
| AccountList.PackedFields | program/src/state/validator.rs:50-77 | where each field of a validator is in its record, and the byte of each status |
| AccountList.RunKeepsDistinct | program/src/state.rs:241-287 | over every run of list operations keys stay pairwise distinct and the length within `max_entries` |
| AccountList.List.Push | program/src/state.rs:241-257 | on bytes, appends exactly if there is space and no record has the key |
| AccountList.List.GetMut | program/src/state.rs:272-280 | on bytes, finds the record at the index if it has the expected key |
| AccountList.List.Write | program/src/state.rs:272-280 | on bytes, a write through that reference replaces that record alone |
| AccountList.List.Remove | program/src/state.rs:283-287 | on bytes, removes the record at the index if it has the expected key, and otherwise changes nothing |
| AccountList.UnpackPack | program/src/state/validator.rs:234-244 | reading back a packed validator gives the same validator |
| AccountList.ListRefinesSequence | program/src/state.rs:214-288 | the sequence of validators used by the instructions and the packed list have the same outcomes for adding, looking up, writing and removing |
| Bytes.ToLeFromLe | program/src/big_vec.rs:26-29 | a number that fits survives the little-endian bytes |
| Bytes.FromLeToLe | program/src/big_vec.rs:26-29 | bytes survive the number that they denote |
| Snapshot.OrderedSet.Push | cli/common/src/snapshot.rs:111-116 | appends exactly if new, and keeps vector and set in step without duplicates |
| Snapshot.OrderedSet.UnionWith | cli/common/src/snapshot.rs:122-126 | keeps its order and appends the new elements in the order of the other |
| Snapshot.Snapshot.GetAccount | cli/common/src/snapshot.rs:203-218 | tells an account that does not exist from one that was not queried, and records the reference either way |
| Snapshot.Snapshot.AccountExists | cli/common/src/snapshot.rs:188-198 | likewise, without failing for an account that does not exist |
| Snapshot.TraceReads | cli/common/src/snapshot.rs:159-169 | a callback that finishes read only queried accounts, also if it went on after accounts that do not exist; one that misses an account referred to one outside the query |
| Snapshot.SnapshotClient.GetChunks | cli/common/src/snapshot.rs:596-607 | reads chunk by chunk in query order; a refusal proves the chunks too large, and teaches a limit below them but at or above the server's; it fails only if the server was down |
| Snapshot.SnapshotClient.GetMultipleAccountsChunked | cli/common/src/snapshot.rs:571-631 | terminates without its assertion firing, returns the accounts in query order, each as it was at some moment of the call, all from one moment if the query fits the server's limit; it fails only if the server was down during the call |
| Snapshot.SnapshotClient.RunCallback | cli/common/src/snapshot.rs:671-671 | records exactly the referenced accounts, in order of first reference |
| Snapshot.SnapshotClient.Attempt | cli/common/src/snapshot.rs:651-671 | one round: a success is one on values that the server served during the round, all from one moment if it answers so many at once; a missing account was not in the query; it gives up only if the server was down or the callback does on such values |
| Snapshot.SnapshotClient.WithSnapshot | cli/common/src/snapshot.rs:646-732 | terminates for a callback that reads from a finite set; a success is the callback's on values that the server served during the call, and the query is then exactly what it referred to; it gives up only if the server was down during the call or the callback does on such values, and then the query has lost no account |

## Left out

- Processor.Solido.ProcessStakeDeposit: of the stake program's rules, the model has which accounts can be merged and that accounts get their rent; how a merged or split account is divided over the four stake states is an argument, and any division with the right total is allowed.
- Processor.Solido.ProcessUnstake: how much of a split comes out of the delegation, and refusals because of that, are not modelled.
- Processor.Solido.ProcessMergeStake: that both accounts are delegated to the same vote account, with the same authorities, is taken for granted.
- Processor.Solido.TakeAddressOver: an emptied address can be taken over at any later time, which is more than what the runtime allows.
- Processor.Solido.ProcessWithdraw: the user's token account is not modelled, so burning is only checked against the supply; the split-off stake leaves the model, and the account that gets it is an argument.
- Processor.Solido.ProcessUpdateStakeAccountBalance: the number and the addresses of the accounts passed in are not modelled; the right accounts are always passed.
- Processor.Solido.ProcessChangeStatus: which performance of a validator leads to a change of status is not modelled, only what the change does.
- Processor.Solido.ProcessInitialize: sizes, owners and keys of the accounts are not checked, and the fee recipients are not modelled.
- Processor.Solido.ObserveDeposit: the counts, like the count of withdrawals and the seeds, are unbounded; the original wraps or traps after 2^64 of them. Lamports on the ledger are unbounded too.
- Snapshot.SnapshotClient.RunCallback: a callback is a function from what it has read to its next read with a bound on the number of reads; it may handle that an account does not exist, but must pass up that one is not in the snapshot. Other side effects, sending transactions and block hashes are not modelled.
- Snapshot.SnapshotClient.WithSnapshot: the reload of validator identities is not modelled; the server's limit is fixed.
- AccountList.UnpackPack: the status is stored as its signed memory representation, which the program reads through a pointer cast.
- BigVec.Vector.Set: a mutable reference becomes a read and a write of a whole record; alignment of the buffer is not modelled.
- Acceptance.WithdrawAccepted: the lamports of the source account are assumed to fit 64 bits, as all lamports on the chain do.
- Cross-program calls, address derivation, bump seeds, signers and the checks of manager, maintainers and account keys; rent is two constants.
- The warm-up and cool-down of stake, and floating-point rates.
- The maintainer list, the performance list and the criteria.
- Decoding of vote and stake accounts, the header's type and version bytes, migration, deprecated instructions, and version 1 of the state.
- Multisig, command-line parsing, the maintenance daemon, metrics output, the listener and the scripts.
