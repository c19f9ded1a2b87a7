# SACCO backend — a verified model of the loan ledger, balances, validators and notifications

A SACCO (savings and credit co-operative) backend keeps a table of members,
one savings account per member, loan applications and the repayments made
against them, a transaction log, and per-member notifications. This project
models the part of it with real logic:

- **The loan state machine.** A loan goes from `pending` to `approved` or
  `rejected` when an admin reviews it. It goes from `approved` to `paid` once
  the repayments reach the total due, which is simple interest,
  principal × (1 + rate/100). It falls back from `paid` to `approved` when an
  admin deletes a repayment and the rest no longer cover the total due.
- **The repayment ledger.** This covers recording a repayment, the reported
  balance, which is total due minus total repaid with no clamping, and the
  per-loan summary with its next instalment.
- **Account balances.** This covers the opening deposit (at least 100), the
  PIN-guarded deposit and withdrawal, and the disbursement credit when a loan
  is approved.
- **Input validators.** These are the Kenyan phone format `+254` followed by
  nine digits, the four-digit PIN, the nine-character ID number, the
  eight-character password, and the loan-application fields with the rule
  that a member cannot be their own guarantor.
- **Notifications.** This covers the listing filters (newest first), the
  unread count, mark-read, mark-all-read (which reports how many rows it
  changed), deletion by the recipient or an admin, and the fan-out of one
  notification per admin or per member.

Modules:

- `Common`: optional fields, the outcome of a request, why a request is
  refused, and the HTTP status each reason is answered with.
- `Validators`: the format checks.
- `Ledger`: loans, repayments, total due, repaying, the status after a
  deletion, the invariant tying a loan's status to what has been repaid, and
  the summary row.
- `Schema`: the `Db` class holding every table, its invariant `Valid()`, and
  the fan-out.
- `RepaymentViews`, `AdminViews`, `TransactionViews`, `AccountViews`,
  `MemberViews`, `LoanViews` and `NotificationViews`: one per group of
  handlers. Each handler is a module-level method that takes the `Db` and
  may modify it. Its contract ties the new tables to a pure decision
  function, and the properties are proved about that function.
- `AsWritten`: the handlers whose code as written cannot succeed, set beside
  the corrected members (see "## Findings").

Every handler is all-or-nothing: when it refuses a request, the database is
unchanged. Every handler keeps `Valid()`, which says:

- member and loan ids lie below the id counter;
- usernames and emails are unique;
- repayment rows are positive, belong to existing loans and have ids below
  the counter;
- notification ids increase along the table;
- each loan's status agrees with the sum of its repayments: nothing repaid
  while pending or rejected; while approved, either nothing repaid or less
  than the total due; at least the total due once paid.

## Model

| member | source | states |
|---|---|---|
| Common.StatusCode | views/transaction.py:29-55 | Each refusal maps to one HTTP status between 400 and 500. Only an uncaught exception gives 500, and only a wrong PIN gives 401. |
| Validators.PhoneFromDigits | views/member.py:15-19 | `IsKenyanPhone`, the phone rule: "+254" followed by `d` is accepted iff `d` is exactly nine digits. |
| Validators.PhoneExamples | views/account.py:12-16 | `IsKenyanPhone` accepts "+254712345678". It rejects the local form "0712345678", a space after the prefix, eight or ten digits, and a letter among the digits. |
| Validators.PinExamples | views/account.py:46 | `IsPin`: "0000" and "1234" are PINs; "123", "12345" and "12a4" are not. |
| Validators.PasswordExamples | views/member.py:35 | `IsPassword`: any eight characters pass; seven, nine, or no string at all do not. |
| Validators.NatDigits | views/account.py:58 | The decimal rendering of a natural number is non-empty and made of digits only. |
| Validators.NatDigitsLength | views/account.py:58 | A natural number's decimal rendering has exactly k digits iff the number lies in [10^(k-1), 10^k), or below 10 when k is 1. |
| Validators.IntToString | views/account.py:58 | `str()` of an integer is non-empty, starts with "-" iff the integer is negative, and is otherwise digits. |
| Validators.NatDigitsValue | views/account.py:58 | Reading back the digits of a natural number gives the number. |
| Validators.IntToStringRoundTrip | views/account.py:58 | Parsing `str(n)` gives `n` back for every integer, so `IsIdNumber` measures the length of a faithful rendering. |
| Validators.IdNumberRange | views/member.py:51-52 | An ID number passes iff it is an int whose decimal string has nine characters: 100000000..999999999, or -99999999..-10000000 (the minus sign counts). |
| Ledger.TotalDue | views/repayment.py:61 | The total due exceeds the principal by exactly principal × rate / 100. It equals the principal at rate 0 and is never below it for a non-negative principal and rate. |
| Ledger.RepaidAppend | views/repayment.py:60 | Appending a row adds its amount to its own loan's repaid sum and leaves other loans' sums alone. |
| Ledger.RepaidConcat | views/repayment.py:104 | The repaid sum over two tables joined is the sum of the two. |
| Ledger.RepaidRemove | views/admin.py:134-138 | Deleting one row lowers its loan's repaid sum by exactly that row's amount, which is the sum over the remaining rows. |
| Ledger.RepaidCoversRows | views/repayment.py:60 | With positive rows, a loan's repaid sum is non-negative and at least each of its rows. |
| Ledger.RepaidOfUnusedLoan | views/loan.py:55-64 | A loan no repayment refers to has repaid 0. |
| Ledger.Repay | views/repayment.py:33-83 | Refusals come in order, each stated for the case it covers. A non-owner gets 403. The owner of a loan that is not approved is refused. On an approved loan of the owner, an amount missing or unparsable is refused, a non-number type raises (500), and an amount ≤ 0 is refused. Success holds iff all guards pass. The loan becomes paid iff prior + amount ≥ total due (equality counts), stamped with the time, and is otherwise unchanged. The reported balance is total due − (prior + amount), negative on overpayment, and ≤ 0 iff paid. |
| Ledger.MethodOrDefault | views/repayment.py:44 | A missing payment method is "M-Pesa"; a given one is kept. |
| Ledger.StatusAfterDeletion | views/admin.py:137-140 | After a deletion the loan is paid iff it was paid and the remaining sum still covers the total due. It reverts to approved iff it was paid and the remaining sum falls short. Any other status is kept. |
| Ledger.PaidIffCovered | views/repayment.py:63-64 | For an approved or paid loan with a positive total due whose status agrees with its repayments, it is paid iff the repayments reach the total due. |
| Ledger.StatusDeterminedByRepaid | views/repayment.py:60-65 | `StatusAgrees`, the ledger invariant: once something is repaid on a loan with a positive total due, approved agrees iff the sum is short of the total due, paid agrees iff it reaches it, and pending or rejected never agree. |
| Ledger.RepayKeepsAgreement | views/repayment.py:60-65 | A successful repayment keeps the loan's status in agreement with its new repaid sum. |
| Ledger.DeletionKeepsAgreement | views/admin.py:134-140 | Deleting a positive repayment and applying the deletion rule keeps the status in agreement with the smaller sum. |
| Ledger.ReplayBelowDue | views/repayment.py:60-65 | A run of positive repayments that stays below the total due leaves the loan exactly as it was, with the amounts added up. |
| Ledger.ReplayReachesPaid | views/repayment.py:60-65 | A run of positive repayments that reaches the total due ends with the loan paid. |
| Ledger.NextPaymentDue | views/repayment.py:113-116 | The next instalment is 0 once the total due is covered. Otherwise it is the smaller of principal/3 and the remaining amount, so it never exceeds the remaining amount. It is non-negative when the principal is. |
| Ledger.SummaryOf | views/repayment.py:104-116 | A summary row carries the loan id, the principal and the repaid sum. Its balance plus the repaid sum is the total due. While the balance is positive, the next instalment is the smaller of principal/3 and the balance, and it lies between 0 and the balance when the principal is non-negative. Once the balance is ≤ 0 it is 0. |
| Ledger.ExampleExactPayoff | views/repayment.py:60-83 | 5000 at 12% is due 5600. Paying 3000 leaves 2600 approved, and paying 2600 more marks it paid with balance 0. |
| Ledger.ExampleOverpayment | views/repayment.py:60-83 | 1000 at 10% is due 1100. Paying 1500 at once marks it paid with balance −400 and no credit anywhere. |
| Schema.FanOut | views/admin.py:201-212 | Builds exactly one notification per recipient (count = number of recipients, recipient set = the given set), each a copy of the template numbered consecutively. |
| Schema.AppendBatchWellFormed | views/admin.py:214 | Appending a batch numbered from the id counter keeps notification ids increasing and below the advanced counter. |
| Schema.AscendingIsIdsIncreasing | views/notification.py:34 | The table's order invariant, checked on neighbouring rows, holds iff every earlier row has a smaller id than every later one. |
| Schema.AppendNotifications | views/admin.py:214-215 | Appending a batch numbered from the id counter keeps the invariant. The table becomes the old table plus the batch, the counter advances by the batch's length, and nothing else changes. |
| RepaymentViews.PaidNotice | views/repayment.py:68-74 | The paid notice goes to the payer, with kind "loan_paid", the loan's id, and unread. |
| RepaymentViews.PaidLoanLeavesSummary | views/repayment.py:100 | `ActiveLoans`: the loan of an accepted repayment is among the caller's approved loans. A repayment that pays it off takes it out of them, and any other accepted repayment leaves them as they were. |
| RepaymentViews.RecordKeepsLedger | views/repayment.py:51-76 | Appending an accepted repayment under the id counter and storing the loan `Repay` returns keeps the repayment table well formed and every loan's status in agreement with its sum. |
| RepaymentViews.RecordRepayment | views/repayment.py:51-76 | Stores the loan `Repay` decides and appends the full repayment row. It adds a "loan_paid" notice exactly when that loan is paid, advances the counter by the rows added, and keeps the invariant. |
| RepaymentViews.CreateRepayment | views/repayment.py:27-88 | Refuses an unknown loan (404), then decides as `Repay` does on the sum of the loan's earlier repayments. A refusal changes nothing. On success the loan is replaced by the decided one and one "completed" row is appended in full, with the method defaulting to "M-Pesa". One "loan_paid" notice is added exactly when the loan became paid. Nothing else changes and the invariant is kept. |
| RepaymentViews.ExtendSummary | views/repayment.py:104-116 | Appending one loan's summary row keeps every row equal to its loan's summary and adds that loan to the ones covered. |
| RepaymentViews.RepaymentSummary | views/repayment.py:96-119 | One row per approved loan of the caller, no others, each row equal to `SummaryOf` for that loan. |
| AdminViews.Review | views/admin.py:40-58 | Refusals come in order: not pending, then an action other than approve/reject, then approve without a member account (404). Approve yields approved and reject yields rejected. |
| AdminViews.ReviewKeepsAgreement | views/admin.py:41-77 | A reviewable loan has nothing repaid, and the reviewed status still agrees with that. |
| AdminViews.Reviewed | views/admin.py:52-54 | Approval records the approval time and the approving admin; rejection only changes the status. |
| AdminViews.ReviewNoticeNames | views/admin.py:85-87 | `ReviewTitle` and `ReviewKind`: the review notice's title is "Loan " and the title-cased action ("Loan Approve", "Loan Reject"), and its type is "loan_" and the action ("loan_approve", "loan_reject"). |
| AdminViews.ReplaceLoan | views/admin.py:52-54 | Storing a loan whose status agrees with its repayments keeps the invariant and changes nothing but that loan. |
| AdminViews.Disburse | views/admin.py:60-68 | The member's balance rises by exactly the amount, and exactly one "loan_disbursement" transaction of that amount for the loan is logged. |
| AdminViews.ApproveLoan | views/admin.py:30-100 | Non-admins are refused (403), then an unknown loan (404), then `Review`'s refusal, each with no change. Approval raises the member's balance by exactly the principal, logs one "loan_disbursement" of that amount and answers the new balance. Rejection touches no account. Either way the member gets one notice. |
| AdminViews.FindRepayment | views/admin.py:113 | Finds the position of the repayment with that id, or reports that there is none. |
| AdminViews.RemoveRepaymentWellFormed | views/admin.py:134 | Deleting one repayment row keeps the repayment table well formed. |
| AdminViews.RemoveRepaymentKeepsLedger | views/admin.py:134-140 | Removing one repayment row and applying the deletion rule to its loan keeps the table well formed and every status in agreement with its sum. |
| AdminViews.RemoveRepaymentRow | views/admin.py:134-140 | Exactly that row is removed and its loan's status becomes `StatusAfterDeletion` of the remaining sum. The invariant is kept and nothing else changes. |
| AdminViews.DeleteRepayment | views/admin.py:107-147 | Non-admins are refused, then an unknown repayment, with no change. An admin deleting an existing repayment always succeeds. Exactly that row is removed and its loan's status becomes `StatusAfterDeletion` of the remaining sum. No balance, transaction or notification changes. |
| AdminViews.SendNotification | views/admin.py:154-182 | Non-admins are refused. For an admin, a missing recipient, title, message or type is refused as missing fields, and the call succeeds iff all four are present. Success appends exactly one notification from the caller and answers its id. |
| AdminViews.OtherMembers | views/admin.py:201 | The broadcast audience is every member except the sender. |
| AdminViews.BroadcastNotification | views/admin.py:188-219 | Non-admins are refused. For an admin, a missing title, message or type is refused as missing fields. Otherwise exactly one notification goes to each other member, and the reported count is their number. |
| TransactionViews.Transact | views/transaction.py:29-55 | Refusals come in order: missing PIN (400), wrong PIN (401), unparsable amount. A deposit adds the amount with no sign check. A withdrawal succeeds iff balance ≥ amount and subtracts it. A short balance refuses it. Any other action is invalid. |
| TransactionViews.WithdrawNeverOverdraws | views/transaction.py:46-50 | A successful withdrawal never leaves a negative balance. |
| TransactionViews.NegativeDepositOverdraws | views/transaction.py:41-44 | A negative "deposit" is accepted and can take the balance below zero. |
| TransactionViews.DepositThenWithdraw | views/transaction.py:41-50 | Depositing and then withdrawing the same amount is accepted and restores the balance. |
| TransactionViews.Transaction | views/transaction.py:14-55 | Refuses an unknown member or a member without an account (404). Otherwise the account's balance becomes what `Transact` decides. Nothing else changes. |
| AccountViews.OpeningDeposit | views/account.py:35 | An absent initial deposit is 0, and a value that does not parse raises. |
| AccountViews.CheckAccountRequest | views/account.py:35-59 | Checks run in this order, and each failure is stated as the answer once the earlier checks pass: deposit parse, PIN present, PIN of four digits, deposit ≥ 100, phone present (500 when missing), phone format, ID number. Success returns the deposit. |
| AccountViews.MinimumDepositBoundary | views/account.py:50-51 | A deposit of exactly 100 is accepted; anything below is refused. |
| AccountViews.CreateAccount | views/account.py:24-90 | Refuses an unknown member (404) or one who already has an account. Otherwise the request is decided by `CheckAccountRequest`. On success the account holds the deposit, and one "deposit" transaction of that amount is logged. |
| MemberViews.CheckNewMember | views/member.py:35-59 | Checks run in this order, and each failure is stated as the answer once the earlier checks pass: password of 8 characters, email, phone present (500 when missing) and Kenyan, ID number, then username/email not taken. Success holds iff all pass. |
| MemberViews.RegisteredLoginTaken | views/member.py:55-59 | `LoginTaken`: once a member is stored, a registration reusing its username or its email finds the login taken and is refused. |
| MemberViews.AdminFlag | views/member.py:32 | `is_admin` defaults to false. |
| MemberViews.AddMember | views/member.py:25-72 | A refusal changes nothing. On success exactly one member is inserted under a fresh id. |
| LoanViews.Usernames | views/loan.py:48 | The names searched are exactly the members' usernames. |
| LoanViews.CheckLoanApplication | views/loan.py:42-52 | A missing or falsy amount or purpose is refused first. Then a named guarantor who is not a member gives 404, and a named guarantor who is the applicant is refused as a self-guarantee. Success holds iff all checks pass. |
| LoanViews.AmountTruthiness | views/loan.py:42-43 | `AmountGiven`: an amount of 0 is refused as missing, and a negative amount passes the check. |
| LoanViews.SelfGuarantorIsSameMember | views/loan.py:51 | With unique usernames, the guarantor is the applicant iff the usernames match. |
| LoanViews.NewLoan | views/loan.py:55-61 | The new loan is pending, for the applicant and the amount, with term 6 months unless one is given. |
| LoanViews.Admins | views/loan.py:77 | The alert audience is exactly the admins. |
| LoanViews.AddPendingLoanKeepsLedger | views/loan.py:63-64 | A new pending loan under an unused id keeps every loan's status in agreement with its repayments. |
| LoanViews.AddLoan | views/loan.py:55-65 | The pending loan is stored under the id counter, which was unused, and the counter advances by one. The invariant is kept and nothing else changes. |
| LoanViews.Submit | views/loan.py:63-93 | Adds the loan under the next id, one applicant notice, then one "admin_loan_alert" per admin. The count is admins + 1. |
| LoanViews.CreateLoan | views/loan.py:32-101 | Refuses an unknown member (404) and then `CheckLoanApplication`'s refusal, with no change. On success the answer is the new loan's id and notifications_sent = admins + 1, which is exactly the number of notifications added. |
| NotificationViews.FindNotification | views/notification.py:69 | Finds the position of the notification with that id, or reports that there is none. |
| NotificationViews.FiltersOnlyNarrow | views/notification.py:25-32 | `Matches`: with no filter a row matches iff it is the caller's. Every filter only narrows that, and an empty type is the same as none. |
| NotificationViews.Filter | views/notification.py:25-32 | A row is kept iff it is the caller's and passes unread-only, type and loan filters. The result is never longer than the table. |
| NotificationViews.FilterKeepsOrder | views/notification.py:25-34 | Filtering a table whose ids increase gives a result whose ids increase. |
| NotificationViews.Reverse | views/notification.py:34 | Reverses the order. |
| NotificationViews.Listing | views/notification.py:25-34 | Lists exactly the caller's rows passing every filter, and in a table with increasing ids they come with strictly decreasing ids (newest first). |
| NotificationViews.UnreadCount | views/notification.py:105-110 | The count is 0 iff every notification of the caller is read, and never exceeds the table. |
| NotificationViews.UnreadCountIsUnreadListing | views/notification.py:55-58 | The unread count equals the length of the unread-only listing. |
| NotificationViews.UnreadCountUpdate | views/notification.py:74 | Replacing one row changes the count by that row's contribution. |
| NotificationViews.MarkRead | views/notification.py:69-74 | An unknown id is refused (404), and so is someone else's notification (403). The call succeeds iff the notification exists and is the caller's. Then exactly that row becomes read and every other row is kept. |
| NotificationViews.MarkReadIdempotent | views/notification.py:74 | Marking the same notification read twice equals doing it once. |
| NotificationViews.FindFirstAgrees | views/notification.py:69 | Tables with the same ids find an id at the same place. |
| NotificationViews.MarkReadCounts | views/notification.py:74 | Marking read lowers the caller's unread count by one when the row was unread, and leaves others' counts alone. |
| NotificationViews.SameIdsWellFormed | views/notification.py:74 | Changing only read flags keeps the table well formed. |
| NotificationViews.MarkNotificationRead | views/notification.py:66-77 | The table becomes what `MarkRead` decides, and a refusal changes nothing. |
| NotificationViews.ReadFor | views/notification.py:87-90 | A row of the caller becomes the same row with `is_read` set, and every other row is untouched. |
| NotificationViews.MarkedAllRead | views/notification.py:87-90 | Maps `ReadFor` over the table, row for row. |
| NotificationViews.MarkedAllReadLeavesNoneUnread | views/notification.py:87-90 | After mark-all-read the caller's unread count is 0. |
| NotificationViews.MarkedAllReadKeepsOthers | views/notification.py:87-90 | Mark-all-read leaves every other member's unread count unchanged. |
| NotificationViews.MarkAll | views/notification.py:87-90 | The loop leaves the table equal to `MarkedAllRead` of the old table. The number of rows it flips equals the caller's unread count beforehand. |
| NotificationViews.MarkAllNotificationsRead | views/notification.py:83-95 | The loop leaves the table equal to `MarkedAllRead` of the old table and reports the caller's unread count beforehand as the number updated. |
| NotificationViews.MayDelete | views/notification.py:123-124 | Allowed iff the caller is the recipient or an admin. A non-recipient who is not a member raises, and a non-admin is refused. |
| NotificationViews.RemoveNotificationWellFormed | views/notification.py:126 | Removing a row keeps the table well formed, removes its id and keeps every other row. |
| NotificationViews.RemoveKeepsIdsIncreasing | views/notification.py:126 | Removing a row from a table with increasing ids keeps them increasing, leaves no row with the removed id, and keeps every other row. |
| NotificationViews.RemoveNotificationRow | views/notification.py:126-127 | Exactly the row at that position is removed. Every other row stays, the removed id is gone, the invariant is kept and nothing else changes. |
| NotificationViews.DeleteNotification | views/notification.py:117-129 | An unknown id is refused (404), then `MayDelete` decides. On success exactly that notification is removed and every other one stays. |

## Left out

- HTTP, JSON and Flask routing, the JWT decorators, token blocklisting and
  `admin_required` are not modelled. The caller is a member id passed in, and
  every refusal is a `Reason` whose status is `StatusCode`.
- Database sessions, commit and rollback, and concurrent requests are not
  modelled. Each handler is all-or-nothing. This includes approve-without-account,
  which in the source changes the loan in the session and then returns
  without committing. A failing commit (the `except` branches answering 500)
  is not modelled.
- Floating point is not modelled. Amounts are exact reals, so IEEE rounding
  of `float()` sums is absent. `float()` parsing is the outcome type
  `NumberField`: absent, unparsable, wrong type, or a number.
- Password and PIN hashing are not modelled. A PIN check is the boolean
  `pinMatches`, and stored digests are opaque strings passed in. The
  `email_validator` library's verdict is the boolean `emailValid`.
- Phone, PIN and ID checks use ASCII digits and exact length. Python's `\d`
  and `str.isdigit` also accept other Unicode digits, and `$` in `re.match`
  accepts a trailing newline. The model rejects both.
- `Account.deposit` and `Account.withdraw` are not part of this model. They
  are taken as adding and subtracting the amount.
- Pagination of the notification listing is not modelled. `Listing` is the
  full, ordered result before paging. Timestamps are not stored: the id
  counter gives the order.
- Notification message text is not modelled: generated notices store an
  empty message. Titles, types, recipients, senders and loan ids are
  modelled.
- The unread-only flag is a boolean; the lower-casing of the query string is
  not modelled.
- `loan_history`, `get_repayments`, `get_loan_details`, the GET branch of
  `manage_repayment`, `transaction_history`, the account balance and
  `has_account` views, and the admin notification listing are not modelled.
  They are read-only views outside the ledger, balance and notification-state
  core.
- `update_member` is not modelled: it is an empty stub.
- `models.py`, the migration and `auth.py` are not part of this model.
- LoanViews.CreateLoan: the interest rate a new loan is stored with is the
  parameter `interestRate`, because the column default is not visible.
  Amounts are exact numbers, not arbitrary JSON values.
- RepaymentViews.RepaymentSummary: the `due_date` field of a summary row is
  not modelled, and neither is the failure its `isoformat()` call raises for
  a loan whose due date is unset. The caller is resolved by member id; the
  source resolves it by looking the username up with the token identity.
- AdminViews.DeleteRepayment: the caller is resolved by member id; the source
  resolves it by username, like the summary.
- Some views use names they do not import: `Member` and `datetime` in
  views/repayment.py, and `Member` and `desc` in views/notification.py. The
  handlers the model builds on take those names as resolving to what they
  denote elsewhere in the repository. The code as written is modelled
  separately in `AsWritten` and listed under "## Findings".
- Overpayment is not credited to any account, the reported balance is not
  clamped at zero, and deleting a repayment never refunds anything. The
  model follows the code in each case.

## Findings

| source | as written | input that shows it | evidently intended | confidence | as-written member | corrected member |
|---|---|---|---|---|---|---|
| views/repayment.py:29 | The caller is looked up through `Member`, which the file does not import, so every repayment request raises. | The owner's first repayment of 3000 on an approved 5000 loan at 12%. | The repayment is recorded as `Repay` decides. | not executed; high | AsWritten.RepaymentRefusedAsWritten | RepaymentViews.CreateRepayment |
| views/repayment.py:65 | The payoff branch calls `datetime.utcnow()` without importing `datetime`, so no loan can become paid. | A final 2600 on a 5000 loan at 12% with 3000 already repaid. | The loan is marked paid and stamped. | not executed; high | AsWritten.PayoffRaisesAsWritten | Ledger.Repay |
| views/repayment.py:97 | The summary looks the caller up through `Member`, which is not imported, so no summary is produced. | A member with one approved loan. | One summary row per approved loan. | not executed; high | AsWritten.SummaryRefusedAsWritten | RepaymentViews.RepaymentSummary |
| views/notification.py:34 | The listing orders by `desc(...)`, which is not imported, so every listing raises. | A member with one notification. | The member's notifications, newest first. | not executed; high | AsWritten.ListingRefusedAsWritten | NotificationViews.Listing |
| views/notification.py:123 | For a caller who is not the recipient, the admin test uses `Member`, which is not imported, so the request raises. | An admin deleting another member's notification. | Admins may delete and other members are refused with 403. | not executed; high | AsWritten.AdminDeleteRefusedAsWritten | NotificationViews.MayDelete |
| views/admin.py:109-110 | The admin is looked up by username equal to the token identity, which is a member id, so the lookup is empty and reading `is_admin` raises. | An admin with id 1 and username "alice" deleting a repayment. | The admin is found by id, as the decorator does. | not executed; medium (assumes the database compares the username with the id's decimal text) | AsWritten.AdminRefusedAsWritten | AdminViews.DeleteRepayment |
