/** How a run ends. */
module RunStatus {

  datatype Outcome = Succeeded | Failed | TimedOut | BudgetExceeded | Blocked | Cancelled

  datatype Status = Running | Done(outcome: Outcome)
}
