/** Shared vocabulary of the SACCO handlers: optional request fields, the outcome
    of a request, and the reasons a request is rejected, each answered with one
    HTTP status code. */
module Common {

  datatype Option<T> = None | Some(value: T)

  /** A request field that a handler passes to Python's `float()`: the key is
      absent, `float()` raises ValueError (a non-numeric string), `float()` raises
      TypeError (null, a list, an object), or the value parses to a number. */
  datatype NumberField = Absent | Unparsable | WrongType | Parsed(value: real)

  /** Why a handler answered with an error instead of doing its work. */
  datatype Reason =
    // 404
    | MemberNotFound | AccountNotFound | LoanNotFound | RepaymentNotFound
    | NotificationNotFound | GuarantorNotFound
    // 403
    | AdminRequired | NotLoanOwner | NotRecipient
    // 401
    | IncorrectPin
    // 400
    | LoanNotApproved | InvalidPaymentDetails | NonPositiveAmount
    | AlreadyProcessed | InvalidAction | MissingFields
    | PinRequired | InvalidAmount | InsufficientBalance
    | AlreadyHasAccount | PinNotFourDigits | BelowMinimumDeposit
    | InvalidPhone | InvalidIdNumber
    | InvalidPassword | InvalidEmail | UsernameOrEmailTaken
    | MissingAmountOrPurpose | SelfGuarantor
    // 500: an exception the handler does not catch
    | UncaughtException

  datatype Result<T> = Ok(value: T) | Err(reason: Reason)

  /** The HTTP status the handler returns with each reason. */
  function StatusCode(r: Reason): (code: nat)
    ensures 400 <= code <= 500
    ensures code == 500 <==> r == UncaughtException
    ensures code == 401 <==> r == IncorrectPin
  {
    match r
    case MemberNotFound | AccountNotFound | LoanNotFound | RepaymentNotFound
       | NotificationNotFound | GuarantorNotFound => 404
    case AdminRequired | NotLoanOwner | NotRecipient => 403
    case IncorrectPin => 401
    case UncaughtException => 500
    case _ => 400
  }

  /** Python truthiness of an optional string: absent, null and "" are false. */
  predicate Truthy(s: Option<string>) {
    s.Some? && s.value != ""
  }
}
