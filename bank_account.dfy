/**
  The bank-account reducer: a pure transition function from an account
  state and an action to the next account state, or to the
  "Action is unknown" error for an action tag it does not handle on an
  active account.
 */
module BankAccount {

  import opened Wrappers

  /**
    The whole account. The reducer never mutates a state: it returns either
    the state it was given or a new one. States are compared by value here.
   */
  datatype State = State(balance: int, loan: int, isActive: bool)

  /** The state the account starts from, and returns to when it is closed. */
  const InitialState := State(0, 0, false)

  /** Opening an account puts this minimum deposit on it. */
  const OpeningBalance := 500

  /** The message of the one error the reducer raises. */
  const UnknownActionMessage := "Action is unknown"

  /**
    An action after its tag has been dispatched. The loan request keeps the
    tag's spelling ("requesLoan"); any other tag becomes `Unknown`.
    Amounts are already converted to numbers.
   */
  datatype Action =
    | OpenAccount
    | Deposit(amount: int)
    | Withdraw(amount: int)
    | RequesLoan(amount: int)
    | PayLoan
    | CloseAccount
    | Unknown(tag: UnhandledTag)

  /** The six tags the reducer's switch handles. */
  const HandledTags: set<string> :=
    {"openAccount", "deposit", "withdraw", "requesLoan", "payLoan", "closeAccount"}

  /** A tag that reaches the default arm of the switch. */
  type UnhandledTag = t: string | t !in HandledTags witness ""

  /** The tag under which an action is dispatched. */
  function TagOf(a: Action): (tag: string)
    ensures a.Unknown? ==> tag == a.tag
    ensures tag in HandledTags <==> !a.Unknown?
  {
    match a
    case OpenAccount => "openAccount"
    case Deposit(_) => "deposit"
    case Withdraw(_) => "withdraw"
    case RequesLoan(_) => "requesLoan"
    case PayLoan => "payLoan"
    case CloseAccount => "closeAccount"
    case Unknown(t) => t
  }

  /** The payload an action carries; actions without one are given 0. */
  function PayloadOf(a: Action): (x: int) {
    match a
    case Deposit(x) => x
    case Withdraw(x) => x
    case RequesLoan(x) => x
    case _ => 0
  }

  /**
    The string comparison of the reducer's switch: a tag selects one of the
    six cases or none. Payloads are read only by the three cases that use one.
   */
  function FromTag(tag: string, payload: int): (a: Action)
    ensures a.Unknown? <==> tag !in HandledTags
    ensures TagOf(a) == tag
  {
    if tag == "openAccount" then OpenAccount
    else if tag == "deposit" then Deposit(payload)
    else if tag == "withdraw" then Withdraw(payload)
    else if tag == "requesLoan" then RequesLoan(payload)
    else if tag == "payLoan" then PayLoan
    else if tag == "closeAccount" then CloseAccount
    else Unknown(tag)
  }

  /**
    The reducer. An inactive account ignores every action but opening,
    before the action is even looked at; an active account raises the error
    for exactly the unknown actions.
   */
  function Reduce(s: State, a: Action): (r: Result<State>)
    ensures !s.isActive && !a.OpenAccount? ==> r == Ok(s)
    ensures r.Err? <==> s.isActive && a.Unknown?
    ensures r.Err? ==> r.message == UnknownActionMessage
  {
    if !s.isActive && !a.OpenAccount? then Ok(s)
    else
      match a
      case OpenAccount =>
        Ok(s.(balance := OpeningBalance, isActive := true))
      case Deposit(x) =>
        Ok(s.(balance := s.balance + x))
      case Withdraw(x) =>
        Ok(s.(balance := s.balance - x))
      case RequesLoan(x) =>
        Ok(s.(balance := if s.loan == 0 then s.balance + x else s.balance,
              loan := if s.loan == 0 then x else s.loan))
      case PayLoan =>
        Ok(s.(balance := s.balance - s.loan, loan := 0))
      case CloseAccount =>
        Ok(s.(isActive := if s.balance == 0 && s.loan == 0 then false else true))
      case Unknown(_) =>
        Err(UnknownActionMessage)
  }

  // ---------------------------------------------------------------------
  // Dispatch by tag

  /** Every action survives being dispatched by its tag and payload. */
  lemma DispatchRoundTrip(a: Action)
    ensures FromTag(TagOf(a), PayloadOf(a)) == a
  {
  }

  /**
    The loan request is dispatched as "requesLoan"; the spelling
    "requestLoan" reaches the error arm on an active account.
   */
  lemma CorrectSpellingIsUnknown(s: State, payload: int)
    requires s.isActive
    ensures FromTag("requestLoan", payload) == Unknown("requestLoan")
    ensures Reduce(s, FromTag("requestLoan", payload)) == Err(UnknownActionMessage)
    ensures FromTag("requesLoan", payload) == RequesLoan(payload)
  {
  }

  // ---------------------------------------------------------------------
  // The guard and the error

  /** On an inactive account, even an unknown action is a no-op rather than an error. */
  lemma InactiveIgnoresUnknown(s: State, tag: UnhandledTag)
    requires !s.isActive
    ensures Reduce(s, Unknown(tag)) == Ok(s)
  {
  }

  /** On an active account, any tag outside the six handled ones raises the error. */
  lemma ActiveRejectsUnhandledTag(s: State, tag: string, payload: int)
    requires s.isActive && tag !in HandledTags
    ensures Reduce(s, FromTag(tag, payload)) == Err(UnknownActionMessage)
  {
  }

  // ---------------------------------------------------------------------
  // Opening

  /** Opening yields an active account holding the opening balance, whatever the loan. */
  lemma OpenSetsOpeningBalance(s: State)
    ensures Reduce(s, OpenAccount) == Ok(State(OpeningBalance, s.loan, true))
  {
  }

  /** From the initial state, opening gives balance 500, no loan, active. */
  lemma OpenFromInitial()
    ensures Reduce(InitialState, OpenAccount) == Ok(State(500, 0, true))
  {
  }

  /**
    Re-opening an active account is not blocked: the balance is overwritten
    with the opening balance and the loan is kept.
   */
  lemma ReopenOverwritesBalance(s: State)
    requires s.isActive
    ensures Reduce(s, OpenAccount) == Ok(s.(balance := OpeningBalance))
  {
  }

  // ---------------------------------------------------------------------
  // Deposit and withdrawal

  /** On an active account, a deposit adds its amount to the balance and changes nothing else. */
  lemma DepositAddsToBalance(s: State, x: int)
    requires s.isActive
    ensures Reduce(s, Deposit(x)) == Ok(s.(balance := s.balance + x))
  {
  }

  /** On an active account, a withdrawal subtracts its amount and changes nothing else. */
  lemma WithdrawSubtractsFromBalance(s: State, x: int)
    requires s.isActive
    ensures Reduce(s, Withdraw(x)) == Ok(s.(balance := s.balance - x))
  {
  }

  /** A withdrawal has no floor: any active account can be overdrawn. */
  lemma WithdrawHasNoFloor(s: State)
    requires s.isActive
    ensures Reduce(s, Withdraw(s.balance + 1)).value.balance == -1
  {
  }

  /** No amount is checked for sign: a negative deposit is a withdrawal. */
  lemma NegativeDepositIsWithdrawal(s: State, x: int)
    ensures Reduce(s, Deposit(-x)) == Reduce(s, Withdraw(x))
  {
  }

  /** Depositing then withdrawing the same amount gives back the original state. */
  lemma DepositThenWithdraw(s: State, x: int)
    ensures Reduce(s, Deposit(x)).Ok?
    ensures Reduce(Reduce(s, Deposit(x)).value, Withdraw(x)) == Ok(s)
  {
  }

  // ---------------------------------------------------------------------
  // Loans

  /** With no loan outstanding, a request registers the amount and credits it. */
  lemma RequestWithoutLoan(s: State, x: int)
    requires s.isActive && s.loan == 0
    ensures Reduce(s, RequesLoan(x)) == Ok(State(s.balance + x, x, true))
  {
  }

  /** With a loan outstanding, a request returns a state equal to the input. */
  lemma RequestWithLoanIsNoOp(s: State, x: int)
    requires s.loan != 0
    ensures Reduce(s, RequesLoan(x)) == Ok(s)
  {
  }

  /** The loan amount is not checked either: a negative loan is accepted. */
  lemma NegativeLoanAccepted(x: int)
    requires x < 0
    ensures Reduce(State(0, 0, true), RequesLoan(x)) == Ok(State(x, x, true))
  {
  }

  /** At most one loan: no action replaces a nonzero loan by a different nonzero loan. */
  lemma AtMostOneLoan(s: State, a: Action)
    requires s.loan != 0
    requires Reduce(s, a).Ok?
    ensures Reduce(s, a).value.loan == s.loan || Reduce(s, a).value.loan == 0
  {
  }

  /** Paying the loan takes it out of the balance and clears it; activity is unchanged. */
  lemma PayLoanClearsLoan(s: State)
    requires s.isActive
    ensures Reduce(s, PayLoan) == Ok(State(s.balance - s.loan, 0, s.isActive))
  {
  }

  /** Paying twice is paying once. */
  lemma PayLoanIdempotent(s: State)
    ensures Reduce(s, PayLoan).Ok?
    ensures Reduce(Reduce(s, PayLoan).value, PayLoan) == Reduce(s, PayLoan)
  {
  }

  /** Requesting a loan with none outstanding and paying it back restores the state. */
  lemma RequestThenPayRestores(s: State, x: int)
    requires s.loan == 0
    ensures Reduce(s, RequesLoan(x)).Ok?
    ensures Reduce(Reduce(s, RequesLoan(x)).value, PayLoan) == Ok(s)
  {
  }

  // ---------------------------------------------------------------------
  // Closing

  /**
    Closing an active account deactivates it exactly when it holds neither
    money nor a loan, and never touches balance or loan.
   */
  lemma CloseOnlyWhenEmpty(s: State)
    requires s.isActive
    ensures Reduce(s, CloseAccount).Ok?
    ensures !Reduce(s, CloseAccount).value.isActive <==> s.balance == 0 && s.loan == 0
    ensures Reduce(s, CloseAccount).value.balance == s.balance
    ensures Reduce(s, CloseAccount).value.loan == s.loan
  {
  }

  /** A successful close leaves a state equal in value to the initial state. */
  lemma ClosedIsInitial(s: State)
    requires s.isActive
    requires !Reduce(s, CloseAccount).value.isActive
    ensures Reduce(s, CloseAccount) == Ok(InitialState)
  {
  }

  // ---------------------------------------------------------------------
  // What each action may change

  /** Only opening makes an account active. */
  lemma OnlyOpenActivates(s: State, a: Action)
    requires !s.isActive && Reduce(s, a).Ok? && Reduce(s, a).value.isActive
    ensures a == OpenAccount
  {
  }

  /** Only a close of an account with neither money nor loan makes it inactive. */
  lemma OnlyEmptyCloseDeactivates(s: State, a: Action)
    requires s.isActive && Reduce(s, a).Ok? && !Reduce(s, a).value.isActive
    ensures a == CloseAccount && s.balance == 0 && s.loan == 0
  {
  }

  /** Only the loan request and the loan payment change the loan. */
  lemma OnlyLoanActionsChangeLoan(s: State, a: Action)
    requires Reduce(s, a).Ok? && Reduce(s, a).value.loan != s.loan
    ensures a.RequesLoan? || a.PayLoan?
  {
  }

  /** An inactive account holds neither money nor a loan. */
  predicate EmptyWhenInactive(s: State) {
    !s.isActive ==> s.balance == 0 && s.loan == 0
  }

  /** Every action keeps inactive accounts empty. */
  lemma ReducePreservesEmptyWhenInactive(s: State, a: Action)
    requires EmptyWhenInactive(s) && Reduce(s, a).Ok?
    ensures EmptyWhenInactive(Reduce(s, a).value)
  {
  }
}
