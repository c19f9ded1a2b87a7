/** Registering a member: password, email, phone and ID checks in the order
    the handler runs them, then the uniqueness-guarded insert. */
module MemberViews {
  import opened Common
  import opened Validators
  import opened Schema

  /** Whether a member with this username or this email already exists. */
  predicate LoginTaken(members: map<nat, Member>, username: string, email: string) {
    exists id :: id in members && (members[id].username == username || members[id].email == email)
  }

  /** The checks of `add_members`: password of eight characters, email
      accepted by the validator (`emailValid`), phone present (a missing one
      makes the regex call raise) and in Kenyan format, ID number, and finally
      neither the username nor the email taken. The first failing check
      decides the answer. */
  function CheckNewMember(password: Option<string>, emailValid: bool, phone: Option<string>, idNumber: Option<int>, taken: bool)
    : (r: Result<()>)
    ensures !IsPassword(password) ==> r == Err(InvalidPassword)
    ensures IsPassword(password) && !emailValid ==> r == Err(InvalidEmail)
    ensures IsPassword(password) && emailValid && phone.None? ==> r == Err(UncaughtException)
    ensures IsPassword(password) && emailValid && phone.Some? && !IsKenyanPhone(phone.value) ==> r == Err(InvalidPhone)
    ensures IsPassword(password) && emailValid && phone.Some? && IsKenyanPhone(phone.value) && !IsIdNumber(idNumber) ==>
              r == Err(InvalidIdNumber)
    ensures IsPassword(password) && emailValid && phone.Some? && IsKenyanPhone(phone.value) && IsIdNumber(idNumber) && taken ==>
              r == Err(UsernameOrEmailTaken)
    ensures r == Err(UsernameOrEmailTaken) ==> taken
    ensures r.Ok? <==> && IsPassword(password) && emailValid && phone.Some? && IsKenyanPhone(phone.value)
                       && IsIdNumber(idNumber) && !taken
  {
    if !IsPassword(password) then Err(InvalidPassword)
    else if !emailValid then Err(InvalidEmail)
    else if phone.None? then Err(UncaughtException)
    else if !IsKenyanPhone(phone.value) then Err(InvalidPhone)
    else if !IsIdNumber(idNumber) then Err(InvalidIdNumber)
    else if taken then Err(UsernameOrEmailTaken)
    else Ok(())
  }

  /** Once a member is stored, a registration reusing its username or its
      email finds the login taken and is refused, whatever else it says. */
  lemma RegisteredLoginTaken(members: map<nat, Member>, id: nat, m: Member, username: string, email: string,
                             password: Option<string>, emailValid: bool, phone: Option<string>, idNumber: Option<int>)
    requires username == m.username || email == m.email
    ensures LoginTaken(members[id := m], username, email)
    ensures CheckNewMember(password, emailValid, phone, idNumber, LoginTaken(members[id := m], username, email)).Err?
  {
    assert id in members[id := m] && members[id := m][id] == m;
  }

  /** `is_admin` defaults to false. */
  function AdminFlag(isAdmin: Option<bool>): (b: bool)
    ensures isAdmin.None? ==> !b
    ensures isAdmin.Some? ==> b == isAdmin.value
  {
    if isAdmin.Some? then isAdmin.value else false
  }

  /** `add_members`: when `CheckNewMember` accepts, exactly one member is
      inserted under a fresh id; otherwise nothing changes. */
  method AddMember(db: Db, username: string, email: string, password: Option<string>, passwordDigest: string,
                   emailValid: bool, phone: Option<string>, idNumber: Option<int>, isAdmin: Option<bool>)
    returns (r: Result<()>)
    requires db.Valid()
    modifies db
    ensures db.Valid()
    ensures r == CheckNewMember(password, emailValid, phone, idNumber, LoginTaken(old(db.members), username, email))
    ensures r.Err? ==> unchanged(db)
    ensures r.Ok? ==>
              && phone.Some? && idNumber.Some?
              && old(db.nextId) !in old(db.members)
              && db.members == old(db.members)[old(db.nextId) := Member(username, email, passwordDigest, phone.value,
                                                                         idNumber.value, AdminFlag(isAdmin))]
              && |db.members| == |old(db.members)| + 1
              && db.nextId == old(db.nextId) + 1
    ensures db.accounts == old(db.accounts) && db.loans == old(db.loans) && db.repayments == old(db.repayments)
    ensures db.transactions == old(db.transactions) && db.notifications == old(db.notifications)
  {
    r := CheckNewMember(password, emailValid, phone, idNumber, LoginTaken(db.members, username, email));
    if r.Err? {
      return;
    }
    var id := db.nextId;
    db.members := db.members[id := Member(username, email, passwordDigest, phone.value, idNumber.value, AdminFlag(isAdmin))];
    db.nextId := id + 1;
  }
}
