/** The member's own deposit and withdrawal, guarded by the account PIN. */
module TransactionViews {
  import opened Common
  import opened Schema

  const DepositAction: string := "deposit"
  const WithdrawAction: string := "withdraw"

  /** The decision on a transaction request against an account holding
      `balance`, and the new balance when it succeeds. The PIN must be given
      (`pinMatches` is the outcome of checking it against the stored digest),
      the amount must parse, and then a deposit adds the amount (whatever its
      sign) while a withdrawal subtracts it only when the balance covers it. */
  function Transact(balance: real, action: Option<string>, amount: NumberField, pin: Option<string>, pinMatches: bool)
    : (r: Result<real>)
    ensures !Truthy(pin) ==> r == Err(PinRequired)
    ensures Truthy(pin) && !pinMatches ==> r == Err(IncorrectPin)
    ensures Truthy(pin) && pinMatches && !amount.Parsed? ==> r == Err(InvalidAmount)
    ensures r.Ok? <==> Truthy(pin) && pinMatches && amount.Parsed?
                       && (action == Some(DepositAction) || (action == Some(WithdrawAction) && balance >= amount.value))
    ensures r.Ok? && action == Some(DepositAction) ==> r.value == balance + amount.value
    ensures r.Ok? && action == Some(WithdrawAction) ==> r.value == balance - amount.value && r.value >= 0.0
    ensures Truthy(pin) && pinMatches && amount.Parsed? && action == Some(WithdrawAction) && balance < amount.value ==>
              r == Err(InsufficientBalance)
    ensures Truthy(pin) && pinMatches && amount.Parsed? && action != Some(DepositAction) && action != Some(WithdrawAction) ==>
              r == Err(InvalidAction)
  {
    if !Truthy(pin) then Err(PinRequired)
    else if !pinMatches then Err(IncorrectPin)
    else if !amount.Parsed? then Err(InvalidAmount)
    else if action == Some(DepositAction) then Ok(balance + amount.value)
    else if action == Some(WithdrawAction) then
      (if balance >= amount.value then Ok(balance - amount.value) else Err(InsufficientBalance))
    else Err(InvalidAction)
  }

  /** A withdrawal never takes a balance below zero, whatever the amount. */
  lemma WithdrawNeverOverdraws(balance: real, amount: real, pin: string)
    requires pin != ""
    requires Transact(balance, Some(WithdrawAction), Parsed(amount), Some(pin), true).Ok?
    ensures Transact(balance, Some(WithdrawAction), Parsed(amount), Some(pin), true).value >= 0.0
  {
  }

  /** A deposit is not sign-checked: depositing -a from a balance below a
      leaves the account negative. */
  lemma NegativeDepositOverdraws(balance: real, a: real, pin: string)
    requires pin != "" && a > balance && balance >= 0.0
    ensures Transact(balance, Some(DepositAction), Parsed(-a), Some(pin), true) == Ok(balance - a)
    ensures balance - a < 0.0
  {
  }

  /** From a non-negative balance, a deposit followed by a withdrawal of the
      same amount is accepted and restores the balance. */
  lemma DepositThenWithdraw(balance: real, a: real, pin: string)
    requires pin != "" && balance >= 0.0
    ensures Transact(balance, Some(DepositAction), Parsed(a), Some(pin), true) == Ok(balance + a)
    ensures Transact(balance + a, Some(WithdrawAction), Parsed(a), Some(pin), true) == Ok(balance)
  {
  }

  /** `transaction`: the caller must be a member with an account; then the
      account's balance becomes what `Transact` decides, and nothing else
      changes. No transaction row is recorded. */
  method Transaction(db: Db, caller: nat, action: Option<string>, amount: NumberField, pin: Option<string>, pinMatches: bool)
    returns (r: Result<real>)
    requires db.Valid()
    modifies db
    ensures db.Valid()
    ensures caller !in old(db.members) ==> r == Err(MemberNotFound)
    ensures caller in old(db.members) && caller !in old(db.accounts) ==> r == Err(AccountNotFound)
    ensures caller in old(db.members) && caller in old(db.accounts) ==>
              r == Transact(old(db.accounts)[caller].balance, action, amount, pin, pinMatches)
    ensures r.Err? ==> unchanged(db)
    ensures r.Ok? ==>
              caller in old(db.accounts) &&
              db.accounts == old(db.accounts)[caller := old(db.accounts)[caller].(balance := r.value)]
    ensures db.members == old(db.members) && db.loans == old(db.loans) && db.repayments == old(db.repayments)
    ensures db.transactions == old(db.transactions) && db.notifications == old(db.notifications)
    ensures db.nextId == old(db.nextId)
  {
    if caller !in db.members {
      return Err(MemberNotFound);
    }
    if caller !in db.accounts {
      return Err(AccountNotFound);
    }
    var account := db.accounts[caller];
    r := Transact(account.balance, action, amount, pin, pinMatches);
    if r.Ok? {
      db.accounts := db.accounts[caller := account.(balance := r.value)];
    }
  }
}
