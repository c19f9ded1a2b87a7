/** Applying for a loan: the required fields, the guarantor rule, the new
    pending loan, and the notifications to the applicant and every admin. */
module LoanViews {
  import opened Common
  import opened Ledger
  import opened Schema

  /** The term of a loan whose application gives none. */
  const DefaultTermMonths: int := 6

  /** Python truthiness of the amount: absent, null and 0 are false. */
  predicate AmountGiven(amount: Option<real>) {
    amount.Some? && amount.value != 0.0
  }

  /** The amount is tested for truthiness only: 0 is refused as missing, and
      a negative amount passes. */
  lemma AmountTruthiness(applicant: Member, purpose: string, usernames: set<string>, a: real)
    requires purpose != ""
    ensures CheckLoanApplication(applicant, Some(0.0), Some(purpose), None, usernames) == Err(MissingAmountOrPurpose)
    ensures a < 0.0 ==> CheckLoanApplication(applicant, Some(a), Some(purpose), None, usernames) == Ok(())
  {
  }

  function Usernames(members: map<nat, Member>): (names: set<string>)
    ensures forall id :: id in members ==> members[id].username in names
    ensures forall u :: u in names <==> exists id :: id in members && members[id].username == u
  {
    set id | id in members :: members[id].username
  }

  /** The checks of `create_loan` once the applicant is known: amount and
      purpose must be given; a guarantor, when named, must be an existing
      username other than the applicant's own. */
  function CheckLoanApplication(applicant: Member, amount: Option<real>, purpose: Option<string>,
                                guarantor: Option<string>, usernames: set<string>)
    : (r: Result<()>)
    ensures !AmountGiven(amount) || !Truthy(purpose) ==> r == Err(MissingAmountOrPurpose)
    ensures r.Ok? <==> && AmountGiven(amount) && Truthy(purpose)
                       && (Truthy(guarantor) ==> guarantor.value in usernames && guarantor.value != applicant.username)
    ensures r == Err(GuarantorNotFound) <==>
              AmountGiven(amount) && Truthy(purpose) && Truthy(guarantor) && guarantor.value !in usernames
    ensures r == Err(SelfGuarantor) ==> guarantor == Some(applicant.username)
    ensures (AmountGiven(amount) && Truthy(purpose) && Truthy(guarantor) && guarantor.value in usernames
             && guarantor.value == applicant.username) ==> r == Err(SelfGuarantor)
  {
    if !AmountGiven(amount) || !Truthy(purpose) then Err(MissingAmountOrPurpose)
    else if Truthy(guarantor) && guarantor.value !in usernames then Err(GuarantorNotFound)
    else if Truthy(guarantor) && guarantor.value == applicant.username then Err(SelfGuarantor)
    else Ok(())
  }

  /** With usernames unique, the guarantor found by username is the applicant
      exactly when the username is the applicant's own, so comparing names
      decides the same as comparing member ids. */
  lemma SelfGuarantorIsSameMember(members: map<nat, Member>, caller: nat, guarantorId: nat)
    requires UniqueLogins(members) && caller in members && guarantorId in members
    ensures guarantorId == caller <==> members[guarantorId].username == members[caller].username
  {
  }

  /** The loan row an accepted application creates: pending, with the default
      term when none is given. */
  function NewLoan(caller: nat, amount: real, purpose: string, termMonths: Option<int>, guarantor: Option<string>,
                   interestRate: real): (loan: Loan)
    ensures loan.status == Pending && loan.memberId == caller && loan.amount == amount
    ensures termMonths.None? ==> loan.termMonths == DefaultTermMonths
    ensures termMonths.Some? ==> loan.termMonths == termMonths.value
  {
    Loan(caller, amount, purpose, if termMonths.Some? then termMonths.value else DefaultTermMonths,
         guarantor, interestRate, Pending, None, None, None)
  }

  function Admins(members: map<nat, Member>): (admins: set<nat>)
    ensures forall id :: id in admins <==> IsAdmin(members, id)
  {
    set id | id in members && members[id].isAdmin
  }

  /** The alerts about application `loanId`, one per admin, numbered from
      `firstId` in order. */
  predicate AdminAlerts(batch: seq<Notification>, loanId: nat, firstId: nat) {
    forall i :: 0 <= i < |batch| ==>
      batch[i] == NewNotice(firstId + i, batch[i].recipientId, None, "New Loan Application", "", "admin_loan_alert", Some(loanId))
  }

  /** Adding a pending loan under an unused id keeps every loan's status in
      agreement with its repayments: the new loan has none. */
  lemma AddPendingLoanKeepsLedger(loans: map<nat, Loan>, rows: seq<Repayment>, id: nat, loan: Loan, nextId: nat)
    requires LedgerAgrees(loans, rows) && RepaymentsWellFormed(rows, loans, id) && id <= nextId
    requires id !in loans && loan.status == Pending
    ensures LedgerAgrees(loans[id := loan], rows)
    ensures RepaymentsWellFormed(rows, loans[id := loan], nextId)
  {
    forall i | 0 <= i < |rows|
      ensures rows[i].loanId != id
    {
    }
    RepaidOfUnusedLoan(rows, id);
  }

  /** Stores a pending loan under the next id. */
  method AddLoan(db: Db, loan: Loan) returns (loanId: nat)
    requires db.Valid() && loan.status == Pending
    modifies db
    ensures db.Valid()
    ensures loanId == old(db.nextId) && loanId !in old(db.loans)
    ensures db.loans == old(db.loans)[loanId := loan]
    ensures db.nextId == old(db.nextId) + 1
    ensures db.members == old(db.members) && db.accounts == old(db.accounts) && db.notifications == old(db.notifications)
    ensures db.repayments == old(db.repayments) && db.transactions == old(db.transactions)
  {
    loanId := db.nextId;
    AddPendingLoanKeepsLedger(db.loans, db.repayments, loanId, loan, loanId + 1);
    db.loans, db.nextId := db.loans[loanId := loan], loanId + 1;
  }

  /** The writes of an accepted application: the pending loan under the next
      id, the applicant's notification, then one alert per admin. */
  method Submit(db: Db, caller: nat, loan: Loan) returns (loanId: nat, sent: nat)
    requires db.Valid() && loan.status == Pending
    modifies db
    ensures db.Valid()
    ensures loanId == old(db.nextId) && loanId !in old(db.loans)
    ensures db.loans == old(db.loans)[loanId := loan]
    ensures sent == |Admins(old(db.members))| + 1
    ensures |db.notifications| == |old(db.notifications)| + sent
    ensures db.notifications[..|old(db.notifications)|] == old(db.notifications)
    ensures db.notifications[|old(db.notifications)|] ==
              NewNotice(loanId + 1, caller, None, "Loan Application Submitted", "", "loan_application", Some(loanId))
    ensures Recipients(db.notifications[|old(db.notifications)| + 1..]) == Admins(old(db.members))
    ensures AdminAlerts(db.notifications[|old(db.notifications)| + 1..], loanId, loanId + 2)
    ensures db.nextId == old(db.nextId) + 1 + sent
    ensures db.members == old(db.members) && db.accounts == old(db.accounts)
    ensures db.repayments == old(db.repayments) && db.transactions == old(db.transactions)
  {
    loanId := AddLoan(db, loan);
    var admins := Admins(db.members);
    var template := NewNotice(0, 0, None, "New Loan Application", "", "admin_loan_alert", Some(loanId));
    var batch := FanOut(admins, template, loanId + 2);
    var applicantNotice := NewNotice(loanId + 1, caller, None, "Loan Application Submitted", "", "loan_application", Some(loanId));
    var before := db.notifications;
    AppendNotifications(db, [applicantNotice]);
    AppendNotifications(db, batch);
    SplitAppend(before + [applicantNotice], batch);
    SplitAppend(before, [applicantNotice]);
    sent := |admins| + 1;
  }

  /** `create_loan`: when the applicant exists and the application passes
      `CheckLoanApplication`, one pending loan is added, the applicant gets one
      "loan_application" notification and every admin one "admin_loan_alert";
      the answer is the loan id and the number of notifications, which is the
      number of admins plus one. A rejected application changes nothing.
      `interestRate` is the rate the new loan row is stored with. */
  method CreateLoan(db: Db, caller: nat, amount: Option<real>, purpose: Option<string>, termMonths: Option<int>,
                    guarantor: Option<string>, interestRate: real)
    returns (r: Result<(nat, nat)>)
    requires db.Valid()
    modifies db
    ensures db.Valid()
    ensures caller !in old(db.members) ==> r == Err(MemberNotFound)
    ensures caller in old(db.members) ==>
              var d := CheckLoanApplication(old(db.members)[caller], amount, purpose, guarantor, Usernames(old(db.members)));
              (d.Err? ==> r == Err(d.reason)) && (d.Ok? ==> r.Ok?)
    ensures r.Err? ==> unchanged(db)
    ensures r.Ok? ==>
              var (loanId, sent) := r.value;
              var n := |old(db.notifications)|;
              && loanId == old(db.nextId) && loanId !in old(db.loans)
              && db.loans == old(db.loans)[loanId := NewLoan(caller, amount.value, purpose.value, termMonths, guarantor, interestRate)]
              && sent == |Admins(old(db.members))| + 1
              && |db.notifications| == n + sent
              && db.notifications[..n] == old(db.notifications)
              && db.notifications[n] == NewNotice(loanId + 1, caller, None, "Loan Application Submitted", "", "loan_application", Some(loanId))
              && Recipients(db.notifications[n + 1..]) == Admins(old(db.members))
              && AdminAlerts(db.notifications[n + 1..], loanId, loanId + 2)
              && db.nextId == old(db.nextId) + 1 + sent
    ensures db.members == old(db.members) && db.accounts == old(db.accounts)
    ensures db.repayments == old(db.repayments) && db.transactions == old(db.transactions)
  {
    if caller !in db.members {
      return Err(MemberNotFound);
    }
    var d := CheckLoanApplication(db.members[caller], amount, purpose, guarantor, Usernames(db.members));
    if d.Err? {
      return Err(d.reason);
    }
    var loan := NewLoan(caller, amount.value, purpose.value, termMonths, guarantor, interestRate);
    var loanId, sent := Submit(db, caller, loan);
    r := Ok((loanId, sent));
  }
}
