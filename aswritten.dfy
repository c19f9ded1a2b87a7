/** Handlers as the repository writes them where a name they use is never
    imported or a lookup uses the wrong key. Each is set beside the corrected
    member that the rest of the model uses, with a lemma exhibiting an input
    on which the two differ. */
module AsWritten {
  import opened Common
  import opened Validators
  import opened Ledger
  import opened Schema
  import NotificationViews
  import RepaymentViews

  // ---- views/repayment.py: `Member` and `datetime` are not imported ----

  /** `create_repayment` as written: its first statement after reading the
      identity looks the caller up through `Member`, which the file never
      imports, so every request ends in a NameError and a 500. */
  function CreateRepaymentAsWritten(loan: Option<Loan>, caller: nat, prior: real, amount: NumberField, now: int)
    : (r: Result<Receipt>)
    ensures r.Err? && StatusCode(r.reason) == 500
  {
    Err(UncaughtException)
  }

  /** The owner's first repayment of 3000 on an approved 5000 loan is
      accepted by the corrected decision and fails as written. */
  lemma RepaymentRefusedAsWritten(loan: Loan, now: int)
    requires loan.amount == 5000.0 && loan.interestRate == 12.0 && loan.status == Approved
    ensures Repay(loan, loan.memberId, 0.0, Parsed(3000.0), now).Ok?
    ensures CreateRepaymentAsWritten(Some(loan), loan.memberId, 0.0, Parsed(3000.0), now).Err?
  {
  }

  /** The repayment decision as written once the caller is found: the payoff
      branch stamps the due date with `datetime.utcnow()`, and `datetime` is
      not imported either, so a repayment that reaches the total due raises
      instead of marking the loan paid. */
  function RepayAsWritten(loan: Loan, caller: nat, prior: real, amount: NumberField, now: int): (r: Result<Receipt>)
    ensures r.Ok? ==> r.value.loan.status != Paid
    ensures r.Ok? <==> Repay(loan, caller, prior, amount, now).Ok? && Repay(loan, caller, prior, amount, now).value.loan.status != Paid
    ensures r.Ok? ==> r == Repay(loan, caller, prior, amount, now)
  {
    match Repay(loan, caller, prior, amount, now)
    case Err(e) => Err(e)
    case Ok(receipt) => if receipt.loan.status == Paid then Err(UncaughtException) else Ok(receipt)
  }

  /** Paying off a 5000 loan at 12% with a final 2600: the corrected decision
      marks it paid, the code as written answers 500 and no loan is ever paid. */
  lemma PayoffRaisesAsWritten(loan: Loan, now: int)
    requires loan.amount == 5000.0 && loan.interestRate == 12.0 && loan.status == Approved
    ensures Repay(loan, loan.memberId, 3000.0, Parsed(2600.0), now).Ok?
    ensures Repay(loan, loan.memberId, 3000.0, Parsed(2600.0), now).value.loan.status == Paid
    ensures RepayAsWritten(loan, loan.memberId, 3000.0, Parsed(2600.0), now) == Err(UncaughtException)
  {
  }

  /** `repayment_summary` as written: the caller lookup names `Member`, so the
      summary is never produced. */
  function RepaymentSummaryAsWritten(loans: map<nat, Loan>, rows: seq<Repayment>, caller: nat)
    : (r: Result<seq<SummaryRow>>)
    ensures r.Err? && StatusCode(r.reason) == 500
  {
    Err(UncaughtException)
  }

  /** A member with one approved loan has a one-row summary, which the code as
      written never returns. */
  lemma SummaryRefusedAsWritten(loan: Loan, rows: seq<Repayment>)
    requires loan.status == Approved
    ensures RepaymentViews.ActiveLoans(map[0 := loan], loan.memberId) == {0}
    ensures RepaymentSummaryAsWritten(map[0 := loan], rows, loan.memberId).Err?
  {
    assert 0 in RepaymentViews.ActiveLoans(map[0 := loan], loan.memberId);
  }

  // ---- views/notification.py: `desc` and `Member` are not imported ----

  /** `get_user_notifications` as written: ordering by `desc(...)` names a
      function the file never imports, so every listing ends in a 500. */
  function ListingAsWritten(ns: seq<Notification>, caller: nat, unreadOnly: bool, kind: Option<string>, loanId: Option<nat>)
    : (r: Result<seq<Notification>>)
    ensures r.Err? && StatusCode(r.reason) == 500
  {
    Err(UncaughtException)
  }

  /** A member with one notification sees it in the corrected listing and
      gets an error as written. */
  lemma ListingRefusedAsWritten(n: Notification)
    ensures n in NotificationViews.Listing([n], n.recipientId, false, None, None)
    ensures ListingAsWritten([n], n.recipientId, false, None, None).Err?
  {
  }

  /** `delete_notification`'s permission check as written: for a caller who is
      not the recipient, the admin test looks the caller up through `Member`,
      which the file never imports, so the request raises instead of letting
      an admin through or refusing anyone else. */
  function MayDeleteAsWritten(n: Notification, caller: nat, members: map<nat, Member>): (r: Result<()>)
    ensures r.Ok? <==> n.recipientId == caller
    ensures r.Err? ==> StatusCode(r.reason) == 500
  {
    if n.recipientId == caller then Ok(()) else Err(UncaughtException)
  }

  /** An admin deleting someone else's notification is allowed by the
      corrected check and fails as written. */
  lemma AdminDeleteRefusedAsWritten(n: Notification, admin: nat, members: map<nat, Member>)
    requires IsAdmin(members, admin) && n.recipientId != admin
    ensures NotificationViews.MayDelete(n, admin, members).Ok?
    ensures MayDeleteAsWritten(n, admin, members).Err?
  {
  }

  // ---- views/admin.py: the caller is looked up by username ----

  /** Whether some member's username is `name`. */
  predicate UsernameHeld(members: map<nat, Member>, name: string) {
    exists id :: id in members && members[id].username == name
  }

  /** `manage_repayment`'s permission check as written: the decorator admits
      admins by id, then the view looks the identity up as a username. A
      member id matches only a username that is its decimal text, and
      otherwise the lookup yields `None` and reading `is_admin` from it
      raises. */
  function ManageRepaymentAccessAsWritten(members: map<nat, Member>, caller: nat): (r: Result<()>)
    ensures !IsAdmin(members, caller) ==> r == Err(AdminRequired)
    ensures IsAdmin(members, caller) && !UsernameHeld(members, IntToString(caller)) ==> r == Err(UncaughtException)
    ensures r.Ok? ==> IsAdmin(members, caller)
  {
    if !IsAdmin(members, caller) then Err(AdminRequired)
    else if !UsernameHeld(members, IntToString(caller)) then Err(UncaughtException)
    else if exists id :: id in members && members[id].username == IntToString(caller) && members[id].isAdmin then Ok(())
    else Err(AdminRequired)
  }

  /** The only member is an admin with id 1 and username "alice": the
      corrected check admits them, and the code as written answers 500. */
  lemma AdminRefusedAsWritten(m: Member)
    requires m.username == "alice" && m.isAdmin
    ensures IsAdmin(map[1 := m], 1)
    ensures ManageRepaymentAccessAsWritten(map[1 := m], 1) == Err(UncaughtException)
  {
    assert IntToString(1) == "1";
    assert !UsernameHeld(map[1 := m], "1");
  }
}
