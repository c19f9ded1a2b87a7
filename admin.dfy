/** The administrator's handlers: reviewing a pending loan (approve with
    disbursement, or reject), deleting a repayment and re-deriving the loan's
    status, sending one notification, and broadcasting one to every other
    member. Every handler first requires the caller to be an administrator. */
module AdminViews {
  import opened Common
  import opened Ledger
  import opened Schema

  const ApproveAction: string := "approve"
  const RejectAction: string := "reject"

  // ---- approve_loan ----

  /** The review decision on a loan that exists: only a pending loan may be
      reviewed, the action must be "approve" or "reject", and approval needs
      the member's account (`hasAccount`). The result is the new status. */
  function Review(loan: Loan, action: Option<string>, hasAccount: bool): (r: Result<LoanStatus>)
    ensures loan.status != Pending ==> r == Err(AlreadyProcessed)
    ensures loan.status == Pending && action != Some(ApproveAction) && action != Some(RejectAction) ==> r == Err(InvalidAction)
    ensures loan.status == Pending && action == Some(ApproveAction) && !hasAccount ==> r == Err(AccountNotFound)
    ensures r == Ok(Approved) <==> loan.status == Pending && action == Some(ApproveAction) && hasAccount
    ensures r == Ok(Rejected) <==> loan.status == Pending && action == Some(RejectAction)
    ensures r.Ok? ==> r.value == Approved || r.value == Rejected
  {
    if loan.status != Pending then Err(AlreadyProcessed)
    else if action == Some(ApproveAction) then (if hasAccount then Ok(Approved) else Err(AccountNotFound))
    else if action == Some(RejectAction) then Ok(Rejected)
    else Err(InvalidAction)
  }

  /** A reviewed loan still agrees with its (empty) repayment record. */
  lemma ReviewKeepsAgreement(loan: Loan, action: Option<string>, hasAccount: bool, repaid: real)
    requires StatusAgrees(loan, repaid)
    requires Review(loan, action, hasAccount).Ok?
    ensures repaid == 0.0
    ensures StatusAgrees(loan.(status := Review(loan, action, hasAccount).value), repaid)
  {
  }

  /** The loan row after a successful review. */
  function Reviewed(loan: Loan, status: LoanStatus, admin: nat, now: int): (l: Loan)
    ensures l.status == status
    ensures status == Approved ==> l == loan.(status := Approved, approvalDate := Some(now), approvedBy := Some(admin))
    ensures status != Approved ==> l == loan.(status := status)
  {
    if status == Approved then loan.(status := Approved, approvalDate := Some(now), approvedBy := Some(admin))
    else loan.(status := status)
  }

  /** The action word of the request that reached `status`. */
  function ActionWord(status: LoanStatus): string {
    if status == Approved then ApproveAction else RejectAction
  }

  /** Python's `str.title()` on one lower-case word: the first letter in
      upper case. */
  function TitleWord(w: string): string {
    if w != [] && 'a' <= w[0] <= 'z' then [(w[0] as int - 32) as char] + w[1..] else w
  }

  function ReviewTitle(status: LoanStatus): string {
    if status == Approved then "Loan Approve" else "Loan Reject"
  }

  function ReviewKind(status: LoanStatus): string {
    if status == Approved then "loan_approve" else "loan_reject"
  }

  /** The review notice is titled "Loan " and the title-cased action, and
      its type is "loan_" and the action. */
  lemma ReviewNoticeNames(status: LoanStatus)
    ensures ReviewTitle(status) == "Loan " + TitleWord(ActionWord(status))
    ensures ReviewKind(status) == "loan_" + ActionWord(status)
  {
  }

  /** Replaces a loan row by one whose status still agrees with its
      repayments. */
  method ReplaceLoan(db: Db, loanId: nat, loan: Loan)
    requires db.Valid() && loanId in db.loans
    requires StatusAgrees(loan, Repaid(db.repayments, loanId))
    modifies db
    ensures db.Valid()
    ensures db.loans == old(db.loans)[loanId := loan]
    ensures db.members == old(db.members) && db.accounts == old(db.accounts) && db.repayments == old(db.repayments)
    ensures db.transactions == old(db.transactions) && db.notifications == old(db.notifications)
    ensures db.nextId == old(db.nextId)
  {
    db.loans := db.loans[loanId := loan];
  }

  /** Credits member `m`'s account with a loan's principal and logs the
      disbursement. */
  method Disburse(db: Db, m: nat, amount: real, loanId: nat)
    requires db.Valid() && m in db.accounts
    modifies db
    ensures db.Valid()
    ensures db.accounts == old(db.accounts)[m := old(db.accounts)[m].(balance := old(db.accounts)[m].balance + amount)]
    ensures db.transactions == old(db.transactions) + [TxRecord("loan_disbursement", amount, m, Some(loanId))]
    ensures db.members == old(db.members) && db.loans == old(db.loans) && db.repayments == old(db.repayments)
    ensures db.notifications == old(db.notifications) && db.nextId == old(db.nextId)
  {
    var account := db.accounts[m];
    db.accounts := db.accounts[m := account.(balance := account.balance + amount)];
    db.transactions := db.transactions + [TxRecord("loan_disbursement", amount, m, Some(loanId))];
  }

  /** `approve_loan`: an approval moves the loan to approved, credits the
      member's account with exactly the principal, records one
      "loan_disbursement" transaction of that amount and answers with the new
      balance; a rejection moves it to rejected and touches no account. Both
      notify the member. Any rejection of the request changes nothing (an
      approval without an account is answered before anything is committed). */
  method ApproveLoan(db: Db, caller: nat, loanId: nat, action: Option<string>, now: int)
    returns (r: Result<Option<real>>)
    requires db.Valid()
    modifies db
    ensures db.Valid()
    ensures !IsAdmin(old(db.members), caller) ==> r == Err(AdminRequired)
    ensures IsAdmin(old(db.members), caller) && loanId !in old(db.loans) ==> r == Err(LoanNotFound)
    ensures IsAdmin(old(db.members), caller) && loanId in old(db.loans) ==>
              var loan := old(db.loans)[loanId];
              var d := Review(loan, action, loan.memberId in old(db.accounts));
              (d.Err? ==> r == Err(d.reason)) && (d.Ok? ==> r.Ok? && (r.value.Some? <==> d.value == Approved))
    ensures r.Err? ==> unchanged(db)
    ensures r.Ok? ==>
              && loanId in old(db.loans)
              && var loan := old(db.loans)[loanId];
                 var m := loan.memberId;
                 var status := Review(loan, action, m in old(db.accounts)).value;
                 && db.loans == old(db.loans)[loanId := Reviewed(loan, status, caller, now)]
                 && db.notifications == old(db.notifications)
                      + [NewNotice(old(db.nextId), m, None, ReviewTitle(status), "", ReviewKind(status), Some(loanId))]
                 && db.nextId == old(db.nextId) + 1
                 && (status == Approved ==>
                       && m in old(db.accounts)
                       && db.accounts == old(db.accounts)[m := old(db.accounts)[m].(balance := old(db.accounts)[m].balance + loan.amount)]
                       && r.value == Some(db.accounts[m].balance)
                       && db.transactions == old(db.transactions) + [TxRecord("loan_disbursement", loan.amount, m, Some(loanId))])
                 && (status == Rejected ==>
                       db.accounts == old(db.accounts) && db.transactions == old(db.transactions) && r.value == None)
    ensures db.members == old(db.members) && db.repayments == old(db.repayments)
  {
    if !IsAdmin(db.members, caller) {
      return Err(AdminRequired);
    }
    if loanId !in db.loans {
      return Err(LoanNotFound);
    }
    var loan := db.loans[loanId];
    var m := loan.memberId;
    var d := Review(loan, action, m in db.accounts);
    if d.Err? {
      return Err(d.reason);
    }
    var status := d.value;
    ReviewKeepsAgreement(loan, action, m in db.accounts, Repaid(db.repayments, loanId));
    ReplaceLoan(db, loanId, Reviewed(loan, status, caller, now));
    if status == Approved {
      Disburse(db, m, loan.amount, loanId);
      r := Ok(Some(db.accounts[m].balance));
    } else {
      r := Ok(None);
    }
    AppendNotifications(db, [NewNotice(db.nextId, m, None, ReviewTitle(status), "", ReviewKind(status), Some(loanId))]);
  }

  // ---- manage_repayment, DELETE ----

  /** The position of the repayment with the given id, if there is one. */
  function FindRepayment(rows: seq<Repayment>, id: nat): (k: Option<nat>)
    ensures k.Some? ==> k.value < |rows| && rows[k.value].id == id
    ensures k.None? ==> forall i :: 0 <= i < |rows| ==> rows[i].id != id
  {
    if rows == [] then None
    else if rows[0].id == id then Some(0)
    else match FindRepayment(rows[1..], id)
      case None => None
      case Some(k) => Some(k + 1)
  }

  /** Removing one row keeps the repayment table well formed. */
  lemma RemoveRepaymentWellFormed(rows: seq<Repayment>, loans: map<nat, Loan>, nextId: nat, k: nat)
    requires RepaymentsWellFormed(rows, loans, nextId)
    requires k < |rows|
    ensures RepaymentsWellFormed(rows[..k] + rows[k + 1..], loans, nextId)
  {
    var rest := rows[..k] + rows[k + 1..];
    forall i | 0 <= i < |rest|
      ensures rest[i] == rows[if i < k then i else i + 1]
    {
    }
  }

  /** Removing one repayment row and re-deriving its loan's status keeps the
      repayment table well formed and every loan's status in agreement with
      its repayments. */
  lemma RemoveRepaymentKeepsLedger(loans: map<nat, Loan>, rows: seq<Repayment>, nextId: nat, k: nat)
    requires RepaymentsWellFormed(rows, loans, nextId) && LedgerAgrees(loans, rows)
    requires k < |rows|
    ensures var loanId := rows[k].loanId;
            var rest := rows[..k] + rows[k + 1..];
            var loan := loans[loanId];
            var after := loans[loanId := loan.(status := StatusAfterDeletion(loan.status, Repaid(rest, loanId), Due(loan)))];
            RepaymentsWellFormed(rest, after, nextId) && LedgerAgrees(after, rest)
  {
    var row := rows[k];
    var loanId := row.loanId;
    var loan := loans[loanId];
    var rest := rows[..k] + rows[k + 1..];
    var after := loans[loanId := loan.(status := StatusAfterDeletion(loan.status, Repaid(rest, loanId), Due(loan)))];
    RepaidCoversRows(rows, loanId);
    RepaidRemove(rows, k, loanId);
    DeletionKeepsAgreement(loan, Repaid(rows, loanId), row.amount);
    forall id | id in after
      ensures StatusAgrees(after[id], Repaid(rest, id))
    {
      RepaidRemove(rows, k, id);
    }
    RemoveRepaymentWellFormed(rows, loans, nextId, k);
  }

  /** The writes of a repayment deletion: row `k` goes, and its loan's status
      is re-derived from what the remaining rows sum to. */
  method RemoveRepaymentRow(db: Db, k: nat)
    requires db.Valid() && k < |db.repayments|
    modifies db
    ensures db.Valid()
    ensures var loanId := old(db.repayments)[k].loanId;
            && loanId in old(db.loans)
            && var loan := old(db.loans)[loanId];
               && db.repayments == old(db.repayments)[..k] + old(db.repayments)[k + 1..]
               && db.loans == old(db.loans)[loanId := loan.(status := StatusAfterDeletion(loan.status, Repaid(db.repayments, loanId), Due(loan)))]
    ensures db.members == old(db.members) && db.accounts == old(db.accounts)
    ensures db.transactions == old(db.transactions) && db.notifications == old(db.notifications)
    ensures db.nextId == old(db.nextId)
  {
    var loanId := db.repayments[k].loanId;
    var loan := db.loans[loanId];
    var rows := db.repayments[..k] + db.repayments[k + 1..];
    var loans := db.loans[loanId := loan.(status := StatusAfterDeletion(loan.status, Repaid(rows, loanId), Due(loan)))];
    RemoveRepaymentKeepsLedger(db.loans, db.repayments, db.nextId, k);
    db.repayments, db.loans := rows, loans;
  }

  /** `manage_repayment` with DELETE: the repayment row is removed, and the
      loan it belongs to gets the status `StatusAfterDeletion` derives from
      what its remaining repayments sum to. No account balance changes. */
  method DeleteRepayment(db: Db, caller: nat, repaymentId: nat) returns (r: Result<()>)
    requires db.Valid()
    modifies db
    ensures db.Valid()
    ensures !IsAdmin(old(db.members), caller) ==> r == Err(AdminRequired)
    ensures IsAdmin(old(db.members), caller) && FindRepayment(old(db.repayments), repaymentId).None? ==>
              r == Err(RepaymentNotFound)
    ensures IsAdmin(old(db.members), caller) && FindRepayment(old(db.repayments), repaymentId).Some? ==> r.Ok?
    ensures r.Err? ==> unchanged(db)
    ensures r.Ok? ==>
              && FindRepayment(old(db.repayments), repaymentId).Some?
              && var k := FindRepayment(old(db.repayments), repaymentId).value;
                 var loanId := old(db.repayments)[k].loanId;
                 && loanId in old(db.loans)
                 && var loan := old(db.loans)[loanId];
                    && db.repayments == old(db.repayments)[..k] + old(db.repayments)[k + 1..]
                    && db.loans == old(db.loans)[loanId := loan.(status := StatusAfterDeletion(loan.status, Repaid(db.repayments, loanId), Due(loan)))]
    ensures db.members == old(db.members) && db.accounts == old(db.accounts)
    ensures db.transactions == old(db.transactions) && db.notifications == old(db.notifications)
    ensures db.nextId == old(db.nextId)
  {
    if !IsAdmin(db.members, caller) {
      return Err(AdminRequired);
    }
    var found := FindRepayment(db.repayments, repaymentId);
    if found.None? {
      return Err(RepaymentNotFound);
    }
    RemoveRepaymentRow(db, found.value);
    r := Ok(());
  }

  // ---- send_notification and broadcast_notification ----

  /** `send_notification`: recipient_id, title, message and type must all be
      present; the notification is then stored from the caller to the
      recipient and its id is returned. */
  method SendNotification(db: Db, caller: nat, recipientId: Option<nat>, title: Option<string>, message: Option<string>,
                          kind: Option<string>, loanId: Option<nat>)
    returns (r: Result<nat>)
    requires db.Valid()
    modifies db
    ensures db.Valid()
    ensures !IsAdmin(old(db.members), caller) ==> r == Err(AdminRequired)
    ensures IsAdmin(old(db.members), caller) ==>
              (r.Ok? <==> recipientId.Some? && title.Some? && message.Some? && kind.Some?)
    ensures IsAdmin(old(db.members), caller) && !(recipientId.Some? && title.Some? && message.Some? && kind.Some?) ==>
              r == Err(MissingFields)
    ensures r.Err? ==> unchanged(db)
    ensures r.Ok? ==>
              && r.value == old(db.nextId)
              && db.notifications == old(db.notifications)
                   + [NewNotice(r.value, recipientId.value, Some(caller), title.value, message.value, kind.value, loanId)]
              && db.nextId == old(db.nextId) + 1
    ensures db.members == old(db.members) && db.accounts == old(db.accounts) && db.loans == old(db.loans)
    ensures db.repayments == old(db.repayments) && db.transactions == old(db.transactions)
  {
    if !IsAdmin(db.members, caller) {
      return Err(AdminRequired);
    }
    if recipientId.None? || title.None? || message.None? || kind.None? {
      return Err(MissingFields);
    }
    var id := db.nextId;
    AppendNotifications(db, [NewNotice(id, recipientId.value, Some(caller), title.value, message.value, kind.value, loanId)]);
    r := Ok(id);
  }

  /** Everyone a broadcast reaches: every member except the sender. */
  function OtherMembers(members: map<nat, Member>, sender: nat): (others: set<nat>)
    ensures forall id :: id in others <==> id in members && id != sender
  {
    set id | id in members && id != sender
  }

  /** `broadcast_notification`: title, message and type must be present; then
      exactly one notification from the caller goes to each other member, and
      the count reported is the number of those members. */
  method BroadcastNotification(db: Db, caller: nat, title: Option<string>, message: Option<string>,
                               kind: Option<string>, loanId: Option<nat>)
    returns (r: Result<nat>)
    requires db.Valid()
    modifies db
    ensures db.Valid()
    ensures !IsAdmin(old(db.members), caller) ==> r == Err(AdminRequired)
    ensures IsAdmin(old(db.members), caller) ==> (r.Ok? <==> title.Some? && message.Some? && kind.Some?)
    ensures IsAdmin(old(db.members), caller) && !(title.Some? && message.Some? && kind.Some?) ==> r == Err(MissingFields)
    ensures r.Err? ==> unchanged(db)
    ensures r.Ok? ==>
              && r.value == |OtherMembers(old(db.members), caller)|
              && |db.notifications| == |old(db.notifications)| + r.value
              && db.notifications[..|old(db.notifications)|] == old(db.notifications)
              && Recipients(db.notifications[|old(db.notifications)|..]) == OtherMembers(old(db.members), caller)
              && (forall i :: |old(db.notifications)| <= i < |db.notifications| ==>
                    db.notifications[i] == NewNotice(old(db.nextId) + i - |old(db.notifications)|, db.notifications[i].recipientId,
                                                     Some(caller), title.value, message.value, kind.value, loanId))
              && db.nextId == old(db.nextId) + r.value
    ensures db.members == old(db.members) && db.accounts == old(db.accounts) && db.loans == old(db.loans)
    ensures db.repayments == old(db.repayments) && db.transactions == old(db.transactions)
  {
    if !IsAdmin(db.members, caller) {
      return Err(AdminRequired);
    }
    if title.None? || message.None? || kind.None? {
      return Err(MissingFields);
    }
    var others := OtherMembers(db.members, caller);
    var template := NewNotice(0, 0, Some(caller), title.value, message.value, kind.value, loanId);
    var batch := FanOut(others, template, db.nextId);
    var before := db.notifications;
    AppendNotifications(db, batch);
    SplitAppend(before, batch);
    r := Ok(|others|);
  }
}
