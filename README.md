# useReducer bank account, in Dafny

This project models the bank-account reducer of `src/App.js`: the account
state (`balance`, `loan`, `isActive`), its initial value, and the pure
transition function `reducer(state, action)` that the page drives through
React's `useReducer`. The reducer never mutates a state: it returns either
the state it was given (the inactive-account guard) or a new object built by
spreading the old one, so the model is functional: a `datatype State`,
a `datatype Action`, and `BankAccount.Reduce(s, a): Result<State>`, whose
`Err` arm is the `"Action is unknown"` exception of the default case.

Modules:

- `Wrappers` (`wrappers.dfy`): the `Result` type (new state or thrown error).
- `BankAccount` (`bank_account.dfy`): the state, `InitialState`, the actions,
  the string dispatch of the `switch` (`FromTag`, `TagOf`), the reducer, and
  one lemma per rule of the transition table.
- `DispatchHistory` (`dispatch_history.dfy`): `Run`, a history of dispatches
  folded through the reducer (ending at the first thrown error), and the
  properties that hold over whole histories, proved by induction.

Behaviour kept as the code has it:

- The inactive-account guard runs before the `switch`, so an unknown action
  on an inactive account is a no-op, not an error.
- Opening an already active account is allowed and resets the balance to 500;
  only the page's disabled button keeps users from doing it.
- The loan case is spelled `"requesLoan"`, as is the tag the page dispatches;
  the spelling `"requestLoan"` used in the comment above the reducer falls
  through to the error arm. `Action.RequesLoan` keeps the code's spelling and
  `Action.Unknown(tag)` carries every unhandled tag (its type `UnhandledTag`
  excludes the six handled ones).
- No amount is checked for sign: negative deposits, withdrawals and loans are
  accepted. `loan` may be negative: with no loan outstanding, `requesLoan` of
  -100 sets `loan` to -100 (`NegativeLoanAccepted`). "At most one loan" means
  `loan != 0`, not `loan > 0`.
- Closing only flips `isActive`; since it succeeds only when balance and loan
  are already 0, the closed state equals the initial state (`ClosedIsInitial`).

## Model

| member | source | states |
|---|---|---|
| BankAccount.Reduce | src/App.js:29-72 | an inactive account returns the state unchanged for every action but opening; the result is an error, with message "Action is unknown", exactly when the account is active and the action is unknown |
| BankAccount.TagOf | src/App.js:32-70 | an action's tag is one of the six handled tags exactly when the action is not unknown; an unknown action is dispatched under its own tag |
| BankAccount.FromTag | src/App.js:32-70 | a tag selects an unknown action exactly when it is not one of the six handled tags, and the action selected is dispatched under that same tag |
| BankAccount.DispatchRoundTrip | src/App.js:32-70 | every action, unknown ones included, is recovered from its tag and payload |
| BankAccount.CorrectSpellingIsUnknown | src/App.js:49-70 | "requestLoan" is an unknown tag and raises the error on an active account, while "requesLoan" selects the loan request |
| BankAccount.InactiveIgnoresUnknown | src/App.js:30 | on an inactive account an unknown action returns the state unchanged instead of raising the error |
| BankAccount.ActiveRejectsUnhandledTag | src/App.js:69-70 | on an active account every tag outside the six handled ones raises "Action is unknown" |
| BankAccount.OpenSetsOpeningBalance | src/App.js:33-38 | opening yields balance 500 and an active account, with the loan untouched, whether or not the account was already active |
| BankAccount.OpenFromInitial | src/App.js:22-38 | opening from the initial state yields balance 500, loan 0, active |
| BankAccount.ReopenOverwritesBalance | src/App.js:33-38 | re-opening an active account succeeds, overwrites its balance with 500 and keeps its loan and everything else |
| BankAccount.DepositAddsToBalance | src/App.js:39-43 | on an active account a deposit adds its amount to the balance and changes nothing else |
| BankAccount.WithdrawSubtractsFromBalance | src/App.js:44-48 | on an active account a withdrawal subtracts its amount from the balance and changes nothing else |
| BankAccount.WithdrawHasNoFloor | src/App.js:44-48 | on an active account, withdrawing one more than the balance leaves the balance at -1: there is no floor |
| BankAccount.NegativeDepositIsWithdrawal | src/App.js:39-48 | amounts are not sign-checked: depositing -x has the same outcome as withdrawing x, on any account |
| BankAccount.DepositThenWithdraw | src/App.js:39-48 | depositing and then withdrawing the same amount returns the original state |
| BankAccount.RequestWithoutLoan | src/App.js:49-57 | on an active account with no loan outstanding, a request sets the loan to the amount and credits it to the balance |
| BankAccount.RequestWithLoanIsNoOp | src/App.js:49-57 | with a loan outstanding, a request returns a state equal to the input |
| BankAccount.NegativeLoanAccepted | src/App.js:49-57 | a negative loan amount is registered and credited like any other |
| BankAccount.AtMostOneLoan | src/App.js:49-63 | no action replaces a nonzero loan by a different nonzero loan: it either stays or becomes 0 |
| BankAccount.PayLoanClearsLoan | src/App.js:58-63 | on an active account, paying takes the loan out of the balance, sets the loan to 0 and leaves activity unchanged |
| BankAccount.PayLoanIdempotent | src/App.js:58-63 | a second payment changes nothing |
| BankAccount.RequestThenPayRestores | src/App.js:49-63 | from no loan, requesting any amount and paying it back restores the original state |
| BankAccount.CloseOnlyWhenEmpty | src/App.js:64-68 | closing an active account deactivates it if and only if balance and loan are both 0, and never changes balance or loan |
| BankAccount.ClosedIsInitial | src/App.js:64-68 | a successful close yields a state equal to the initial state |
| BankAccount.OnlyOpenActivates | src/App.js:30-38 | an inactive account becomes active only by opening it |
| BankAccount.OnlyEmptyCloseDeactivates | src/App.js:30-68 | an active account becomes inactive only by closing it with balance and loan both 0 |
| BankAccount.OnlyLoanActionsChangeLoan | src/App.js:30-68 | the loan changes only by requesting or paying a loan |
| BankAccount.ReducePreservesEmptyWhenInactive | src/App.js:22-68 | no action leaves an inactive account holding money or a loan, if it held none before |
| DispatchHistory.Run | src/App.js:75-78 | a history of dispatches ends in an error only if it contains an unknown action, and the error is "Action is unknown" |
| DispatchHistory.RunAppend | src/App.js:75-78 | dispatching two histories one after the other is dispatching their concatenation |
| DispatchHistory.InactiveIgnoresHistory | src/App.js:30 | an inactive account is unchanged by any history that does not open it, unknown actions included |
| DispatchHistory.RunPreservesEmptyWhenInactive | src/App.js:30-68 | from a state in which an inactive account holds nothing, no history leaves an inactive account holding money or a loan |
| DispatchHistory.ReachableInactiveIsInitial | src/App.js:22-26 | every inactive state reached from the initial state equals the initial state |
| DispatchHistory.LoanFrame | src/App.js:49-63 | a history without loan requests or payments leaves the loan as it was |
| DispatchHistory.LoanKeptUntilPaid | src/App.js:49-63 | an outstanding loan keeps its exact amount until it is paid, whatever else is requested |
| DispatchHistory.UnknownOnActiveFails | src/App.js:69-70 | an unknown action dispatched while the account is active ends the whole history in the "Action is unknown" error |
| DispatchHistory.FailsOnlyOnActiveUnknown | src/App.js:30-70 | a history ends in the error only if some unknown action in it is reached with the account active; with UnknownOnActiveFails this is an if-and-only-if |
| DispatchHistory.SampleSession | src/App.js:29-72 | from the initial state, open, deposit 200, withdraw 100, borrow 1000, borrow 1000 again (ignored), repay and close (ignored, money left) ends with balance 600, loan 0, still active |

## Left out

- The `App` component (src/App.js:74-180): the input fields and their state hooks, the button handlers and the rendering are page code, not the reducer. Only the folding of dispatches through the reducer is modelled, as `DispatchHistory.Run`.
- The page's disabled buttons (`disabled={isActive}` on "Open account", `disabled={!isActive}` on the others): they are why re-opening an active account cannot be reached from the page, but they do not constrain the reducer.
- `Number(action.payload)`: the text-to-number conversion (IEEE-754 doubles, `NaN` for malformed text, `""` as 0) is floating-point behaviour; payloads are modelled as already converted integers.
- Floating-point arithmetic on balances and loans: amounts are unbounded integers, so rounding of large or fractional amounts is not modelled. In particular `DepositThenWithdraw` and `RequestThenPayRestores` hold in the page only for integer amounts below 2^53: with IEEE doubles, 0.1 + 0.2 - 0.2 is 0.10000000000000003, so the round trip can fail for fractional amounts.
- What React does with a thrown reducer error (error boundaries, aborted render): `Run` just ends the history with the error.
- Object identity of the returned state: the guard returns the same object, the other no-op paths (a loan request with a loan outstanding, a close that does not succeed) return an equal copy, and React's `useReducer` tells the two apart with `Object.is`; `Ok(s)` is value equality only.
- The stylesheet import (src/App.js:1): styling only.
