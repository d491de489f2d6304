/**
  A history of dispatches folded through the reducer, starting from a given
  state, as the component's reducer hook does from the initial state. The
  first action that makes the reducer throw ends the history with that error.
 */
module DispatchHistory {

  import opened Wrappers
  import opened BankAccount

  /** The state after dispatching `actions` in order, or the first error raised. */
  function Run(s: State, actions: seq<Action>): (r: Result<State>)
    ensures r.Err? ==> exists i :: 0 <= i < |actions| && actions[i].Unknown?
    ensures r.Err? ==> r.message == UnknownActionMessage
    decreases |actions|
  {
    if actions == [] then Ok(s)
    else
      match Reduce(s, actions[0])
      case Err(m) => Err(m)
      case Ok(t) => Run(t, actions[1..])
  }

  /** No action of the history is `OpenAccount`. */
  predicate NoOpen(actions: seq<Action>) {
    forall i :: 0 <= i < |actions| ==> !actions[i].OpenAccount?
  }

  /** No action of the history touches the loan. */
  predicate NoLoanAction(actions: seq<Action>) {
    forall i :: 0 <= i < |actions| ==> !actions[i].RequesLoan? && !actions[i].PayLoan?
  }

  /** No action of the history pays the loan. */
  predicate NoPayLoan(actions: seq<Action>) {
    forall i :: 0 <= i < |actions| ==> !actions[i].PayLoan?
  }

  /** Dispatching one history after another is dispatching their concatenation. */
  lemma {:induction false} RunAppend(s: State, xs: seq<Action>, ys: seq<Action>)
    ensures Run(s, xs + ys) == (if Run(s, xs).Ok? then Run(Run(s, xs).value, ys) else Run(s, xs))
    decreases |xs|
  {
    if xs != [] {
      assert (xs + ys)[0] == xs[0];
      assert (xs + ys)[1..] == xs[1..] + ys;
      if Reduce(s, xs[0]).Ok? {
        RunAppend(Reduce(s, xs[0]).value, xs[1..], ys);
      }
    } else {
      assert xs + ys == ys;
    }
  }

  /** An inactive account ignores every history that does not open it, unknown actions included. */
  lemma {:induction false} InactiveIgnoresHistory(s: State, actions: seq<Action>)
    requires !s.isActive && NoOpen(actions)
    ensures Run(s, actions) == Ok(s)
    decreases |actions|
  {
    if actions != [] {
      assert !actions[0].OpenAccount?;
      InactiveIgnoresHistory(s, actions[1..]);
    }
  }

  /**
    From a state where an inactive account is empty, no history leaves an
    inactive account holding money or a loan.
   */
  lemma {:induction false} RunPreservesEmptyWhenInactive(s: State, actions: seq<Action>)
    requires EmptyWhenInactive(s) && Run(s, actions).Ok?
    ensures EmptyWhenInactive(Run(s, actions).value)
    decreases |actions|
  {
    if actions != [] {
      ReducePreservesEmptyWhenInactive(s, actions[0]);
      RunPreservesEmptyWhenInactive(Reduce(s, actions[0]).value, actions[1..]);
    }
  }

  /** Every inactive state reachable from the initial state is the initial state. */
  lemma ReachableInactiveIsInitial(actions: seq<Action>)
    requires Run(InitialState, actions).Ok? && !Run(InitialState, actions).value.isActive
    ensures Run(InitialState, actions) == Ok(InitialState)
  {
    RunPreservesEmptyWhenInactive(InitialState, actions);
  }

  /** A history without loan actions leaves the loan as it was. */
  lemma {:induction false} LoanFrame(s: State, actions: seq<Action>)
    requires NoLoanAction(actions) && Run(s, actions).Ok?
    ensures Run(s, actions).value.loan == s.loan
    decreases |actions|
  {
    if actions != [] {
      assert !actions[0].RequesLoan? && !actions[0].PayLoan?;
      LoanFrame(Reduce(s, actions[0]).value, actions[1..]);
    }
  }

  /** An outstanding loan stays exactly as it is until it is paid, whatever else is requested. */
  lemma {:induction false} LoanKeptUntilPaid(s: State, actions: seq<Action>)
    requires s.loan != 0 && NoPayLoan(actions) && Run(s, actions).Ok?
    ensures Run(s, actions).value.loan == s.loan
    decreases |actions|
  {
    if actions != [] {
      assert !actions[0].PayLoan?;
      LoanKeptUntilPaid(Reduce(s, actions[0]).value, actions[1..]);
    }
  }

  /** An unknown action that reaches an active account ends the history in the error. */
  lemma UnknownOnActiveFails(s: State, xs: seq<Action>, i: nat)
    requires i < |xs| && xs[i].Unknown?
    requires Run(s, xs[..i]).Ok? && Run(s, xs[..i]).value.isActive
    ensures Run(s, xs) == Err(UnknownActionMessage)
  {
    assert xs == xs[..i] + xs[i..];
    RunAppend(s, xs[..i], xs[i..]);
  }

  /** The converse: the error comes from an unknown action reached with the account active. */
  lemma {:induction false} FailsOnlyOnActiveUnknown(s: State, xs: seq<Action>)
    requires Run(s, xs).Err?
    ensures exists i :: 0 <= i < |xs| && xs[i].Unknown?
                        && Run(s, xs[..i]).Ok? && Run(s, xs[..i]).value.isActive
    decreases |xs|
  {
    assert xs[..0] == [];
    match Reduce(s, xs[0])
    case Err(_) =>
      assert xs[0].Unknown? && Run(s, xs[..0]) == Ok(s);
    case Ok(t) =>
      FailsOnlyOnActiveUnknown(t, xs[1..]);
      var j :| 0 <= j < |xs[1..]| && xs[1..][j].Unknown?
               && Run(t, xs[1..][..j]).Ok? && Run(t, xs[1..][..j]).value.isActive;
      assert xs[..j + 1] == [xs[0]] + xs[1..][..j];
      assert xs[..j + 1][1..] == xs[1..][..j];
  }

  /**
    An example session: open, deposit, withdraw, borrow, borrow again
    (ignored), repay, then try to close with money still on the account
    (ignored).
   */
  lemma SampleSession()
    ensures Run(InitialState, [OpenAccount, Deposit(200), Withdraw(100), RequesLoan(1000),
                               RequesLoan(1000), PayLoan, CloseAccount])
         == Ok(State(600, 0, true))
  {
  }
}
