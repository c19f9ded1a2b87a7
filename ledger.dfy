/** The loan lifecycle and the repayment ledger: loan status, simple-interest
    total due, the sum of a loan's repayments, the decision taken on one
    repayment request, the status a loan falls back to when a repayment is
    deleted, and the figures of the repayment summary. */
module Ledger {
  import opened Common

  datatype LoanStatus = Pending | Approved | Rejected | Paid

  /** A row of the loan table. `amount` is the principal; the interest rate is
      a percentage (12.0 means 12%). */
  datatype Loan = Loan(
    memberId: nat,
    amount: real,
    purpose: string,
    termMonths: int,
    guarantor: Option<string>,
    interestRate: real,
    status: LoanStatus,
    approvalDate: Option<int>,
    approvedBy: Option<nat>,
    dueDate: Option<int>)

  /** A row of the repayment table. */
  datatype Repayment = Repayment(id: nat, loanId: nat, amount: real, paymentMethod: string, status: string)

  const DefaultPaymentMethod: string := "M-Pesa"
  const CompletedStatus: string := "completed"

  // ---- total due and amount repaid ----

  /** Simple interest over the whole term: the principal plus `rate` percent of it. */
  function TotalDue(principal: real, rate: real): (due: real)
    ensures due - principal == principal * rate / 100.0
    ensures rate == 0.0 ==> due == principal
    ensures principal >= 0.0 && rate >= 0.0 ==> due >= principal
  {
    principal * (1.0 + rate / 100.0)
  }

  function Due(loan: Loan): real {
    TotalDue(loan.amount, loan.interestRate)
  }

  /** The amount repaid on loan `loanId`: the sum of the amounts of its rows. */
  function Repaid(rows: seq<Repayment>, loanId: nat): real {
    if rows == [] then 0.0
    else Repaid(rows[..|rows| - 1], loanId) + Share(rows[|rows| - 1], loanId)
  }

  /** What one row contributes to the sum of loan `loanId`. */
  function Share(row: Repayment, loanId: nat): real {
    if row.loanId == loanId then row.amount else 0.0
  }

  predicate AllPositive(rows: seq<Repayment>) {
    forall i :: 0 <= i < |rows| ==> rows[i].amount > 0.0
  }

  lemma RepaidAppend(rows: seq<Repayment>, row: Repayment, loanId: nat)
    ensures Repaid(rows + [row], loanId) == Repaid(rows, loanId) + Share(row, loanId)
  {
    assert (rows + [row])[..|rows|] == rows;
  }

  lemma {:induction false} RepaidConcat(a: seq<Repayment>, b: seq<Repayment>, loanId: nat)
    ensures Repaid(a + b, loanId) == Repaid(a, loanId) + Repaid(b, loanId)
    decreases |b|
  {
    if b == [] {
      assert a + b == a;
    } else {
      var last := b[|b| - 1];
      var front := b[..|b| - 1];
      assert a + b == (a + front) + [last];
      assert b == front + [last];
      RepaidConcat(a, front, loanId);
      RepaidAppend(a + front, last, loanId);
      RepaidAppend(front, last, loanId);
    }
  }

  /** Deleting row k lowers the sum of its own loan by its amount and leaves
      every other loan's sum as it was. */
  lemma RepaidRemove(rows: seq<Repayment>, k: nat, loanId: nat)
    requires k < |rows|
    ensures Repaid(rows[..k] + rows[k + 1..], loanId) == Repaid(rows, loanId) - Share(rows[k], loanId)
  {
    assert rows == (rows[..k] + [rows[k]]) + rows[k + 1..];
    RepaidConcat(rows[..k] + [rows[k]], rows[k + 1..], loanId);
    RepaidAppend(rows[..k], rows[k], loanId);
    RepaidConcat(rows[..k], rows[k + 1..], loanId);
  }

  /** With positive amounts, a loan's sum is at least the amount of each of its rows. */
  lemma {:induction false} RepaidCoversRows(rows: seq<Repayment>, loanId: nat)
    requires AllPositive(rows)
    ensures Repaid(rows, loanId) >= 0.0
    ensures forall k :: 0 <= k < |rows| && rows[k].loanId == loanId ==> Repaid(rows, loanId) >= rows[k].amount
    decreases |rows|
  {
    if rows != [] {
      var front := rows[..|rows| - 1];
      assert AllPositive(front);
      RepaidCoversRows(front, loanId);
    }
  }

  /** A loan no row refers to has nothing repaid. */
  lemma {:induction false} RepaidOfUnusedLoan(rows: seq<Repayment>, loanId: nat)
    requires forall i :: 0 <= i < |rows| ==> rows[i].loanId != loanId
    ensures Repaid(rows, loanId) == 0.0
    decreases |rows|
  {
    if rows != [] {
      RepaidOfUnusedLoan(rows[..|rows| - 1], loanId);
    }
  }

  // ---- one repayment ----

  /** What an accepted repayment request produces: the loan row as it becomes,
      and the balance reported back (total due minus everything repaid). */
  datatype Receipt = Receipt(loan: Loan, balance: real)

  /** `create_repayment` after the loan has been found: the owner check, the
      status check, the amount checks, and then the paid threshold. `prior` is
      the sum of the loan's existing repayments. */
  function Repay(loan: Loan, caller: nat, prior: real, amount: NumberField, now: int): (r: Result<Receipt>)
    ensures loan.memberId != caller ==> r == Err(NotLoanOwner)
    ensures loan.memberId == caller && loan.status != Approved ==> r == Err(LoanNotApproved)
    ensures r.Ok? <==> loan.memberId == caller && loan.status == Approved && amount.Parsed? && amount.value > 0.0
    ensures loan.memberId == caller && loan.status == Approved && (amount.Absent? || amount.Unparsable?) ==>
              r == Err(InvalidPaymentDetails)
    ensures loan.memberId == caller && loan.status == Approved && amount.WrongType? ==> r == Err(UncaughtException)
    ensures loan.memberId == caller && loan.status == Approved && amount.Parsed? && amount.value <= 0.0 ==>
              r == Err(NonPositiveAmount)
    ensures r.Ok? ==> (r.value.loan.status == Paid <==> prior + amount.value >= Due(loan))
    ensures r.Ok? ==> r.value.loan.status != Paid ==> r.value.loan == loan
    ensures r.Ok? ==> r.value.loan.status == Paid ==> r.value.loan == loan.(status := Paid, dueDate := Some(now))
    ensures r.Ok? ==> r.value.balance + prior + amount.value == Due(loan)
    ensures r.Ok? ==> (r.value.loan.status == Paid <==> r.value.balance <= 0.0)
  {
    if loan.memberId != caller then Err(NotLoanOwner)
    else if loan.status != Approved then Err(LoanNotApproved)
    else match amount
      case Absent => Err(InvalidPaymentDetails)
      case Unparsable => Err(InvalidPaymentDetails)
      case WrongType => Err(UncaughtException)
      case Parsed(a) =>
        if a <= 0.0 then Err(NonPositiveAmount)
        else
          var total := prior + a;
          var due := Due(loan);
          var after := if total >= due then loan.(status := Paid, dueDate := Some(now)) else loan;
          Ok(Receipt(after, due - total))
  }

  /** The payment method stored with a repayment: the one given, or M-Pesa. */
  function MethodOrDefault(m: Option<string>): (s: string)
    ensures m.Some? ==> s == m.value
    ensures m.None? ==> s == DefaultPaymentMethod
  {
    if m.Some? then m.value else DefaultPaymentMethod
  }

  // ---- deleting a repayment ----

  /** The status a loan has after one of its repayments is deleted: a paid
      loan whose remaining repayments no longer cover the total due is
      approved again; every other status stays. */
  function StatusAfterDeletion(status: LoanStatus, remaining: real, due: real): (s: LoanStatus)
    ensures s == Paid <==> status == Paid && remaining >= due
    ensures s == Approved <==> status == Approved || (status == Paid && remaining < due)
    ensures status != Paid ==> s == status
  {
    if status == Paid && remaining < due then Approved else status
  }

  // ---- the invariant between a loan's status and its repayments ----

  /** How a loan's status agrees with the sum of its repayments. Loans that
      were never approved have no repayments; a paid loan's repayments cover
      the total due; an approved loan's do not (or it has none at all, which
      is how a loan whose total due is not positive starts out). */
  predicate StatusAgrees(loan: Loan, repaid: real) {
    match loan.status
    case Pending => repaid == 0.0
    case Rejected => repaid == 0.0
    case Approved => repaid == 0.0 || repaid < Due(loan)
    case Paid => repaid >= Due(loan)
  }

  /** Once something is repaid on a loan with a positive total due, the sum
      decides the status: approved while short of the total due, paid once it
      is reached, and never pending or rejected. */
  lemma StatusDeterminedByRepaid(loan: Loan, repaid: real)
    requires Due(loan) > 0.0 && repaid > 0.0
    ensures StatusAgrees(loan.(status := Approved), repaid) <==> repaid < Due(loan)
    ensures StatusAgrees(loan.(status := Paid), repaid) <==> repaid >= Due(loan)
    ensures !StatusAgrees(loan.(status := Pending), repaid) && !StatusAgrees(loan.(status := Rejected), repaid)
  {
    assert Due(loan.(status := Approved)) == Due(loan) && Due(loan.(status := Paid)) == Due(loan);
  }

  /** When the total due is positive, an approved-or-paid loan is paid exactly
      when its repayments reach the total due. */
  lemma PaidIffCovered(loan: Loan, repaid: real)
    requires StatusAgrees(loan, repaid)
    requires loan.status == Approved || loan.status == Paid
    requires Due(loan) > 0.0
    ensures loan.status == Paid <==> repaid >= Due(loan)
  {
  }

  /** An accepted repayment keeps status and repayments in agreement. */
  lemma RepayKeepsAgreement(loan: Loan, caller: nat, prior: real, amount: NumberField, now: int)
    requires StatusAgrees(loan, prior)
    requires Repay(loan, caller, prior, amount, now).Ok?
    ensures StatusAgrees(Repay(loan, caller, prior, amount, now).value.loan, prior + amount.value)
  {
  }

  /** Deleting a positive repayment of a loan and re-deriving the status keeps
      status and repayments in agreement. */
  lemma DeletionKeepsAgreement(loan: Loan, prior: real, removed: real)
    requires StatusAgrees(loan, prior)
    requires removed > 0.0 && prior - removed >= 0.0
    ensures StatusAgrees(loan.(status := StatusAfterDeletion(loan.status, prior - removed, Due(loan))), prior - removed)
  {
  }

  // ---- a run of repayments ----

  function Sum(xs: seq<real>): real {
    if xs == [] then 0.0 else Sum(xs[..|xs| - 1]) + xs[|xs| - 1]
  }

  /** The loan and the amount repaid after the owner submits `amounts` one by
      one; a rejected request changes nothing. */
  function Replay(loan: Loan, caller: nat, prior: real, amounts: seq<real>, now: int): (Loan, real)
    decreases |amounts|
  {
    if amounts == [] then (loan, prior)
    else
      var (l, p) := Replay(loan, caller, prior, amounts[..|amounts| - 1], now);
      var a := amounts[|amounts| - 1];
      match Repay(l, caller, p, Parsed(a), now)
      case Ok(receipt) => (receipt.loan, p + a)
      case Err(_) => (l, p)
  }

  /** While the repayments stay below the total due, every one is recorded in
      full and the loan stays approved and unchanged. */
  lemma {:induction false} ReplayBelowDue(loan: Loan, caller: nat, prior: real, amounts: seq<real>, now: int)
    requires loan.memberId == caller && loan.status == Approved
    requires forall i :: 0 <= i < |amounts| ==> amounts[i] > 0.0
    requires prior + Sum(amounts) < Due(loan)
    ensures Replay(loan, caller, prior, amounts, now) == (loan, prior + Sum(amounts))
    decreases |amounts|
  {
    if amounts != [] {
      var front := amounts[..|amounts| - 1];
      ReplayBelowDue(loan, caller, prior, front, now);
    }
  }

  /** Once the positive repayments reach the total due, the loan is paid and
      stays paid: later requests are rejected. */
  lemma {:induction false} ReplayReachesPaid(loan: Loan, caller: nat, prior: real, amounts: seq<real>, now: int)
    requires loan.memberId == caller && loan.status == Approved
    requires forall i :: 0 <= i < |amounts| ==> amounts[i] > 0.0
    requires prior + Sum(amounts) >= Due(loan)
    requires prior < Due(loan)
    ensures Replay(loan, caller, prior, amounts, now).0.status == Paid
    decreases |amounts|
  {
    var front := amounts[..|amounts| - 1];
    var a := amounts[|amounts| - 1];
    if prior + Sum(front) >= Due(loan) {
      ReplayReachesPaid(loan, caller, prior, front, now);
    } else {
      ReplayBelowDue(loan, caller, prior, front, now);
    }
  }

  // ---- the repayment summary ----

  function Min(a: real, b: real): real {
    if a <= b then a else b
  }

  /** The suggested next instalment: a third of the principal, capped at what
      remains, and nothing once the loan is covered. */
  function NextPaymentDue(principal: real, due: real, repaid: real): (next: real)
    ensures repaid >= due ==> next == 0.0
    ensures repaid < due ==> next <= due - repaid && next <= principal / 3.0
    ensures repaid < due ==> next == due - repaid || next == principal / 3.0
    ensures principal >= 0.0 ==> 0.0 <= next
  {
    if repaid < due then Min(principal / 3.0, due - repaid) else 0.0
  }

  /** One entry of the repayment summary. */
  datatype SummaryRow = SummaryRow(loanId: nat, originalAmount: real, totalRepaid: real, balance: real, nextPaymentDue: real)

  function SummaryOf(loanId: nat, loan: Loan, rows: seq<Repayment>): (row: SummaryRow)
    ensures row.loanId == loanId && row.originalAmount == loan.amount
    ensures row.totalRepaid == Repaid(rows, loanId)
    ensures row.balance + row.totalRepaid == Due(loan)
    ensures row.balance > 0.0 && loan.amount >= 0.0 ==> 0.0 <= row.nextPaymentDue <= row.balance
    ensures row.balance <= 0.0 ==> row.nextPaymentDue == 0.0
    ensures row.balance > 0.0 ==> row.nextPaymentDue == Min(loan.amount / 3.0, row.balance)
  {
    var repaid := Repaid(rows, loanId);
    var due := Due(loan);
    SummaryRow(loanId, loan.amount, repaid, due - repaid, NextPaymentDue(loan.amount, due, repaid))
  }

  // ---- worked examples ----

  /** 5000 at 12%: 5600 due; 3000 leaves 2600 and the loan approved; 2600 more
      pays it off exactly. */
  lemma ExampleExactPayoff(loan: Loan, now: int)
    requires loan.amount == 5000.0 && loan.interestRate == 12.0 && loan.status == Approved
    ensures Due(loan) == 5600.0
    ensures Repay(loan, loan.memberId, 0.0, Parsed(3000.0), now) == Ok(Receipt(loan, 2600.0))
    ensures Repay(loan, loan.memberId, 3000.0, Parsed(2600.0), now)
              == Ok(Receipt(loan.(status := Paid, dueDate := Some(now)), 0.0))
  {
  }

  /** 1000 at 10%: one repayment of 1500 pays the loan and the reported
      balance is -400; the excess is not credited anywhere. */
  lemma ExampleOverpayment(loan: Loan, now: int)
    requires loan.amount == 1000.0 && loan.interestRate == 10.0 && loan.status == Approved
    ensures Due(loan) == 1100.0
    ensures Repay(loan, loan.memberId, 0.0, Parsed(1500.0), now)
              == Ok(Receipt(loan.(status := Paid, dueDate := Some(now)), -400.0))
  {
  }
}
