/** The member-facing repayment handlers: recording a repayment against one's
    own approved loan, and the summary of one's approved loans. */
module RepaymentViews {
  import opened Common
  import opened Ledger
  import opened Schema

  /** The notification sent when a repayment pays a loan off. */
  function PaidNotice(id: nat, recipient: nat, loanId: nat): (n: Notification)
    ensures n.recipientId == recipient && n.kind == "loan_paid" && n.loanId == Some(loanId) && !n.isRead
  {
    NewNotice(id, recipient, None, "Loan Fully Repaid", "", "loan_paid", Some(loanId))
  }

  /** Recording an accepted repayment as a new row under the counter, with the
      loan row `Repay` returns, keeps the repayment table well formed and every
      loan's status in agreement with its repayments. */
  lemma RecordKeepsLedger(loans: map<nat, Loan>, rows: seq<Repayment>, nextId: nat, loanId: nat, caller: nat,
                          amount: NumberField, now: int, row: Repayment)
    requires RepaymentsWellFormed(rows, loans, nextId) && LedgerAgrees(loans, rows)
    requires loanId in loans
    requires Repay(loans[loanId], caller, Repaid(rows, loanId), amount, now).Ok?
    requires row.id == nextId && row.loanId == loanId && row.amount == amount.value
    ensures var after := loans[loanId := Repay(loans[loanId], caller, Repaid(rows, loanId), amount, now).value.loan];
            RepaymentsWellFormed(rows + [row], after, nextId + 1) && LedgerAgrees(after, rows + [row])
  {
    var after := loans[loanId := Repay(loans[loanId], caller, Repaid(rows, loanId), amount, now).value.loan];
    RepayKeepsAgreement(loans[loanId], caller, Repaid(rows, loanId), amount, now);
    forall id | id in after
      ensures StatusAgrees(after[id], Repaid(rows + [row], id))
    {
      RepaidAppend(rows, row, id);
    }
  }

  /** The writes of an accepted repayment: the row under the next id, the loan
      row `Repay` decides, and the paid notice when the loan became paid. */
  method RecordRepayment(db: Db, caller: nat, loanId: nat, amount: NumberField, paymentMethod: string, now: int)
    requires db.Valid() && loanId in db.loans
    requires Repay(db.loans[loanId], caller, Repaid(db.repayments, loanId), amount, now).Ok?
    modifies db
    ensures db.Valid()
    ensures var after := Repay(old(db.loans)[loanId], caller, Repaid(old(db.repayments), loanId), amount, now).value.loan;
            && db.loans == old(db.loans)[loanId := after]
            && db.repayments == old(db.repayments) + [Repayment(old(db.nextId), loanId, amount.value, paymentMethod, CompletedStatus)]
            && db.notifications == old(db.notifications)
                                   + (if after.status == Paid then [PaidNotice(old(db.nextId) + 1, caller, loanId)] else [])
            && db.nextId == old(db.nextId) + (if after.status == Paid then 2 else 1)
    ensures db.members == old(db.members) && db.accounts == old(db.accounts) && db.transactions == old(db.transactions)
  {
    var after := Repay(db.loans[loanId], caller, Repaid(db.repayments, loanId), amount, now).value.loan;
    var row := Repayment(db.nextId, loanId, amount.value, paymentMethod, CompletedStatus);
    var notices := if after.status == Paid then [PaidNotice(db.nextId + 1, caller, loanId)] else [];
    RecordKeepsLedger(db.loans, db.repayments, db.nextId, loanId, caller, amount, now, row);
    AppendBatchWellFormed(db.notifications, notices, db.nextId + 1);
    db.repayments, db.loans, db.notifications, db.nextId :=
      db.repayments + [row], db.loans[loanId := after], db.notifications + notices, db.nextId + 1 + |notices|;
  }

  /** `create_repayment`: a missing loan is 404; otherwise the decision is
      `Repay` on the loan and the sum of its existing repayments. On success the
      repayment is appended in full, the loan row is replaced by the one `Repay`
      returns, and a "loan_paid" notification is added exactly when that row is
      paid. A rejected request changes nothing. */
  method CreateRepayment(db: Db, caller: nat, loanId: nat, amount: NumberField, paymentMethod: Option<string>, now: int)
    returns (r: Result<Receipt>)
    requires db.Valid()
    modifies db
    ensures db.Valid()
    ensures loanId !in old(db.loans) ==> r == Err(LoanNotFound)
    ensures loanId in old(db.loans) ==>
              r == Repay(old(db.loans)[loanId], caller, Repaid(old(db.repayments), loanId), amount, now)
    ensures r.Err? ==> unchanged(db)
    ensures r.Ok? ==>
              && db.loans == old(db.loans)[loanId := r.value.loan]
              && db.repayments == old(db.repayments)
                                  + [Repayment(old(db.nextId), loanId, amount.value, MethodOrDefault(paymentMethod), CompletedStatus)]
              && db.notifications == old(db.notifications)
                                     + (if r.value.loan.status == Paid then [PaidNotice(old(db.nextId) + 1, caller, loanId)] else [])
              && db.nextId == old(db.nextId) + (if r.value.loan.status == Paid then 2 else 1)
              && db.members == old(db.members) && db.accounts == old(db.accounts)
              && db.transactions == old(db.transactions)
  {
    if loanId !in db.loans {
      return Err(LoanNotFound);
    }
    var loan := db.loans[loanId];
    var prior := Repaid(db.repayments, loanId);
    r := Repay(loan, caller, prior, amount, now);
    if r.Err? {
      return;
    }
    RecordRepayment(db, caller, loanId, amount, MethodOrDefault(paymentMethod), now);
  }

  /** The loans the summary covers: the caller's loans that are approved. */
  function ActiveLoans(loans: map<nat, Loan>, caller: nat): set<nat> {
    set id | id in loans && loans[id].memberId == caller && loans[id].status == Approved
  }

  /** A repayment that pays a loan off takes it out of the summary; any other
      accepted repayment leaves the summary's loans as they were. */
  lemma PaidLoanLeavesSummary(loans: map<nat, Loan>, caller: nat, loanId: nat, prior: real, amount: NumberField, now: int)
    requires loanId in loans && Repay(loans[loanId], caller, prior, amount, now).Ok?
    ensures var after := Repay(loans[loanId], caller, prior, amount, now).value.loan;
            && loanId in ActiveLoans(loans, caller)
            && (after.status == Paid ==> ActiveLoans(loans[loanId := after], caller) == ActiveLoans(loans, caller) - {loanId})
            && (after.status != Paid ==> ActiveLoans(loans[loanId := after], caller) == ActiveLoans(loans, caller))
  {
  }

  /** The loans a summary has an entry for. */
  function SummaryIds(summary: seq<SummaryRow>): set<nat> {
    if summary == [] then {} else SummaryIds(summary[..|summary| - 1]) + {summary[|summary| - 1].loanId}
  }

  /** Every entry is the summary of the loan it names. */
  predicate SummaryEntries(loans: map<nat, Loan>, rows: seq<Repayment>, summary: seq<SummaryRow>) {
    forall i :: 0 <= i < |summary| ==>
      summary[i].loanId in loans && summary[i] == SummaryOf(summary[i].loanId, loans[summary[i].loanId], rows)
  }

  /** Appending the summary of one more loan keeps every entry right and adds
      that loan to the ones covered. */
  lemma ExtendSummary(loans: map<nat, Loan>, rows: seq<Repayment>, summary: seq<SummaryRow>, id: nat)
    requires SummaryEntries(loans, rows, summary) && id in loans
    ensures SummaryEntries(loans, rows, summary + [SummaryOf(id, loans[id], rows)])
    ensures SummaryIds(summary + [SummaryOf(id, loans[id], rows)]) == SummaryIds(summary) + {id}
  {
    var next := summary + [SummaryOf(id, loans[id], rows)];
    assert next[..|summary|] == summary;
  }

  /** `repayment_summary`: one entry per approved loan of the caller, in the
      order the query returns them, each with the loan's repaid sum, balance
      and suggested next instalment. */
  method RepaymentSummary(loans: map<nat, Loan>, rows: seq<Repayment>, caller: nat) returns (summary: seq<SummaryRow>)
    ensures |summary| == |ActiveLoans(loans, caller)|
    ensures SummaryIds(summary) == ActiveLoans(loans, caller)
    ensures SummaryEntries(loans, rows, summary)
  {
    var active := ActiveLoans(loans, caller);
    var pending := active;
    summary := [];
    while pending != {}
      invariant pending <= active
      invariant |summary| + |pending| == |active|
      invariant SummaryIds(summary) == active - pending
      invariant SummaryEntries(loans, rows, summary)
      decreases pending
    {
      var id :| id in pending;
      ExtendSummary(loans, rows, summary, id);
      summary, pending := summary + [SummaryOf(id, loans[id], rows)], pending - {id};
    }
  }
}
