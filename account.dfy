/** Opening a member's savings account: the validation chain in the order the
    handler runs it, then the new account and its opening deposit record. */
module AccountViews {
  import opened Common
  import opened Validators
  import opened Schema

  /** `float(data.get('initial_deposit', 0.0))`: an absent deposit is 0, and a
      value `float()` rejects raises an exception nothing catches. */
  function OpeningDeposit(field: NumberField): (r: Result<real>)
    ensures field.Absent? ==> r == Ok(0.0)
    ensures field.Parsed? ==> r == Ok(field.value)
    ensures (field.Unparsable? || field.WrongType?) ==> r == Err(UncaughtException)
  {
    match field
    case Absent => Ok(0.0)
    case Parsed(v) => Ok(v)
    case Unparsable => Err(UncaughtException)
    case WrongType => Err(UncaughtException)
  }

  /** The checks of `create_account` once the member is known to have no
      account: deposit parsing, PIN present, PIN of four digits, minimum
      deposit, phone format (a missing phone makes the regex call raise), ID
      number. The first failing check decides the answer; on success the
      result is the opening balance. */
  function CheckAccountRequest(deposit: NumberField, pin: Option<string>, phone: Option<string>, idNumber: Option<int>)
    : (r: Result<real>)
    ensures OpeningDeposit(deposit).Err? ==> r == Err(UncaughtException)
    ensures OpeningDeposit(deposit).Ok? && !Truthy(pin) ==> r == Err(PinRequired)
    ensures OpeningDeposit(deposit).Ok? && Truthy(pin) && !IsPin(pin.value) ==> r == Err(PinNotFourDigits)
    ensures OpeningDeposit(deposit).Ok? && Truthy(pin) && IsPin(pin.value) && OpeningDeposit(deposit).value < MinDeposit ==>
              r == Err(BelowMinimumDeposit)
    ensures r.Ok? <==> && OpeningDeposit(deposit).Ok? && Truthy(pin) && IsPin(pin.value)
                       && OpeningDeposit(deposit).value >= MinDeposit
                       && phone.Some? && IsKenyanPhone(phone.value) && IsIdNumber(idNumber)
    ensures OpeningDeposit(deposit).Ok? && Truthy(pin) && IsPin(pin.value) && OpeningDeposit(deposit).value >= MinDeposit ==>
              && (phone.None? ==> r == Err(UncaughtException))
              && (phone.Some? && !IsKenyanPhone(phone.value) ==> r == Err(InvalidPhone))
              && (phone.Some? && IsKenyanPhone(phone.value) && !IsIdNumber(idNumber) ==> r == Err(InvalidIdNumber))
    ensures r.Ok? ==> r.value == OpeningDeposit(deposit).value && r.value >= MinDeposit
    ensures r.Err? && r.reason == InvalidPhone ==> phone.Some? && !IsKenyanPhone(phone.value)
    ensures r.Err? && r.reason == InvalidIdNumber ==> phone.Some? && IsKenyanPhone(phone.value) && !IsIdNumber(idNumber)
  {
    match OpeningDeposit(deposit)
    case Err(e) => Err(e)
    case Ok(d) =>
      if !Truthy(pin) then Err(PinRequired)
      else if !IsPin(pin.value) then Err(PinNotFourDigits)
      else if d < MinDeposit then Err(BelowMinimumDeposit)
      else if phone.None? then Err(UncaughtException)
      else if !IsKenyanPhone(phone.value) then Err(InvalidPhone)
      else if !IsIdNumber(idNumber) then Err(InvalidIdNumber)
      else Ok(d)
  }

  /** Exactly the minimum is enough; anything below it is refused. */
  lemma MinimumDepositBoundary(pin: string, phone: string, idNumber: int, d: real)
    requires IsPin(pin) && IsKenyanPhone(phone) && IsIdNumber(Some(idNumber))
    ensures CheckAccountRequest(Parsed(MinDeposit), Some(pin), Some(phone), Some(idNumber)) == Ok(MinDeposit)
    ensures d < MinDeposit ==> CheckAccountRequest(Parsed(d), Some(pin), Some(phone), Some(idNumber)) == Err(BelowMinimumDeposit)
  {
  }

  /** `create_account`: the caller must be a member without an account; if the
      request passes `CheckAccountRequest`, the account is created with the
      opening deposit as its balance, and one "deposit" transaction of that
      amount is recorded when it is positive (which, given the minimum, is
      always). A rejected request changes nothing. */
  method CreateAccount(db: Db, caller: nat, deposit: NumberField, pin: Option<string>, pinDigest: string,
                       phone: Option<string>, occupation: Option<string>, idNumber: Option<int>)
    returns (r: Result<real>)
    requires db.Valid()
    modifies db
    ensures db.Valid()
    ensures caller !in old(db.members) ==> r == Err(MemberNotFound)
    ensures caller in old(db.members) && caller in old(db.accounts) ==> r == Err(AlreadyHasAccount)
    ensures caller in old(db.members) && caller !in old(db.accounts) ==>
              r == CheckAccountRequest(deposit, pin, phone, idNumber)
    ensures r.Err? ==> unchanged(db)
    ensures r.Ok? ==>
              && phone.Some? && idNumber.Some?
              && db.accounts == old(db.accounts)[caller := Account(r.value, phone.value, occupation, idNumber.value, pinDigest)]
              && db.transactions == old(db.transactions)
                                    + (if r.value > 0.0 then [TxRecord("deposit", r.value, caller, None)] else [])
              && |db.transactions| == |old(db.transactions)| + 1
    ensures db.members == old(db.members) && db.loans == old(db.loans) && db.repayments == old(db.repayments)
    ensures db.notifications == old(db.notifications) && db.nextId == old(db.nextId)
  {
    if caller !in db.members {
      return Err(MemberNotFound);
    }
    if caller in db.accounts {
      return Err(AlreadyHasAccount);
    }
    r := CheckAccountRequest(deposit, pin, phone, idNumber);
    if r.Err? {
      return;
    }
    var balance := r.value;
    db.accounts := db.accounts[caller := Account(balance, phone.value, occupation, idNumber.value, pinDigest)];
    if balance > 0.0 {
      db.transactions := db.transactions + [TxRecord("deposit", balance, caller, None)];
    }
  }
}
