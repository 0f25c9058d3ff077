/** Outcomes of instructions. A failing instruction leaves nothing behind, so an
    error carries only its cause. */
module Results {

  /** The errors of program/src/error.rs that the modelled code can return, the
      refusals of the runtime, and one constructor for all panics. */
  datatype Error =
    | InvalidAmount
    | InvalidArgument
    | CalculationFailure
    | WrongStakeState
    | MaximumNumberOfAccountsExceeded
    | DuplicatedEntry
    | ReserveIsNotRentExempt
    | AmountExceedsReserve
    | NoActiveValidators
    | InvalidStakeAccount
    | ExchangeRateAlreadyUpToDate
    | ExchangeRateNotUpdatedInThisEpoch
    | ValidatorBalanceDecreased
    | ValidatorWithMoreStakeExists
    | ValidatorWithLessStakeExists
    | ValidatorHasNoStake
    | StakeToInactiveValidator
    | ValidatorIsStillActive
    | ValidatorShouldHaveNoStakeAccounts
    | ValidatorShouldHaveNoUnstakeAccounts
    | MaxUnstakeAccountsReached
    | AccountListIndexOutOfBounds
    | PubkeyIndexMismatch
    | AccountDataTooSmall
    | AccountNotRentExempt
    | InvalidMint
    | ValidationCommissionOutOfBounds
    | RuntimeRejected
    | Panicked(cause: PanicCause)

  /** The `expect`s and `assert!`s that the modelled code runs into. */
  datatype PanicCause =
    | UnstakeExceedsStake      // compute_effective_stake_balance
    | TrackedExceedsObserved   // rewards in UpdateStakeAccountBalance
    | StakeExceedsAccount      // balances of a delegated stake account
    | LessThanRent             // stake account without its rent
    | BalanceOverflow          // new tracked balance in UpdateStakeAccountBalance
    | FeesExceedReward         // split_reward
    | RemovedWithBalance       // check_can_be_removed
    | LimitOverflow            // a tenth of the source account in Withdraw
    | SourceBelowMinimum       // the log line of a refused Withdraw

  datatype Result<+T> = Ok(value: T) | Err(error: Error) {
    predicate IsFailure() {
      Err?
    }

    function PropagateFailure<U>(): Result<U>
      requires Err?
    {
      Err(error)
    }

    function Extract(): T
      requires Ok?
    {
      value
    }
  }

  datatype Option<+T> = None | Some(value: T)

  /** A check without a value, for `:- Need(condition, error)`. */
  datatype Check = Pass | Fail(error: Error) {
    predicate IsFailure() {
      Fail?
    }

    function PropagateFailure<U>(): Result<U>
      requires Fail?
    {
      Err(error)
    }
  }

  function Need(condition: bool, error: Error): Check {
    if condition then Pass else Fail(error)
  }
}
