/** The tables the handlers read and write, held by one `Db` object: members,
    accounts (at most one per member, keyed by the member's id), loans,
    repayments, transactions and notifications. Rows of the last three are
    kept in insertion order; every new row gets the next id of one counter. */
module Schema {
  import opened Common
  import opened Ledger

  datatype Member = Member(
    username: string,
    email: string,
    passwordDigest: string,
    phone: string,
    idNumber: int,
    isAdmin: bool)

  /** A savings account. Its id is the id of the member who owns it. */
  datatype Account = Account(
    balance: real,
    phone: string,
    occupation: Option<string>,
    idNumber: int,
    pinDigest: string)

  /** A row of the transaction table; `accountOf` names the owning member. */
  datatype TxRecord = TxRecord(kind: string, amount: real, accountOf: nat, loanId: Option<nat>)

  datatype Notification = Notification(
    id: nat,
    recipientId: nat,
    senderId: Option<nat>,
    title: string,
    message: string,
    kind: string,
    loanId: Option<nat>,
    isRead: bool)

  /** A notification nobody has read yet, as the handlers create them. */
  function NewNotice(id: nat, recipientId: nat, senderId: Option<nat>, title: string, message: string,
                     kind: string, loanId: Option<nat>): (n: Notification)
    ensures n.id == id && n.recipientId == recipientId && !n.isRead
  {
    Notification(id, recipientId, senderId, title, message, kind, loanId, false)
  }

  predicate IsAdmin(members: map<nat, Member>, caller: nat) {
    caller in members && members[caller].isAdmin
  }

  /** Registration keeps usernames and emails unique. */
  ghost predicate UniqueLogins(members: map<nat, Member>) {
    forall a, b :: a in members && b in members && a != b ==>
      members[a].username != members[b].username && members[a].email != members[b].email
  }

  /** Repayment rows: ids below the counter (so the counter is always a fresh
      id), each for an existing loan, each for a positive amount. Each row
      takes its id from the counter when it is added, so ids are unique in
      practice; uniqueness itself is not part of the predicate, and the
      finder returns the first row with a given id, which is the row the
      deletion removes. */
  ghost predicate RepaymentsWellFormed(rows: seq<Repayment>, loans: map<nat, Loan>, nextId: nat) {
    forall i :: 0 <= i < |rows| ==> rows[i].id < nextId && rows[i].loanId in loans && rows[i].amount > 0.0
  }

  /** Notification ids increase along the table, so the newest row comes last. */
  predicate IdsIncreasing(ns: seq<Notification>) {
    forall i, j :: 0 <= i < j < |ns| ==> ns[i].id < ns[j].id
  }

  /** `IdsIncreasing` stated row by row: each id exceeds the one before it. */
  ghost predicate Ascending(ns: seq<Notification>)
    decreases |ns|
  {
    |ns| < 2 || (ns[|ns| - 2].id < ns[|ns| - 1].id && Ascending(ns[..|ns| - 1]))
  }

  lemma {:induction false} AscendingIsIdsIncreasing(ns: seq<Notification>)
    ensures Ascending(ns) <==> IdsIncreasing(ns)
    decreases |ns|
  {
    if |ns| >= 2 {
      var init := ns[..|ns| - 1];
      AscendingIsIdsIncreasing(init);
      assert forall i :: 0 <= i < |init| ==> init[i] == ns[i];
      if Ascending(ns) {
        forall i, j | 0 <= i < j < |ns|
          ensures ns[i].id < ns[j].id
        {
          if j < |ns| - 1 {
            assert init[i].id < init[j].id;
          } else if i < |ns| - 2 {
            assert init[i].id < init[|ns| - 2].id;
          }
        }
      }
    }
  }

  /** Notification ids lie below the counter and increase along the table. */
  ghost predicate NotificationsWellFormed(ns: seq<Notification>, nextId: nat) {
    (forall i :: 0 <= i < |ns| ==> ns[i].id < nextId) && Ascending(ns)
  }

  /** Every loan's status agrees with the sum of its repayments. */
  ghost predicate LedgerAgrees(loans: map<nat, Loan>, rows: seq<Repayment>) {
    forall id :: id in loans ==> StatusAgrees(loans[id], Repaid(rows, id))
  }

  class Db {
    var members: map<nat, Member>
    var accounts: map<nat, Account>
    var loans: map<nat, Loan>
    var repayments: seq<Repayment>
    var transactions: seq<TxRecord>
    var notifications: seq<Notification>
    var nextId: nat

    ghost predicate Valid()
      reads this
    {
      (forall id :: id in members ==> id < nextId) &&
      (forall id :: id in loans ==> id < nextId) &&
      UniqueLogins(members) &&
      RepaymentsWellFormed(repayments, loans, nextId) &&
      NotificationsWellFormed(notifications, nextId) &&
      LedgerAgrees(loans, repayments)
    }

    constructor ()
      ensures Valid()
      ensures members == map[] && accounts == map[] && loans == map[]
      ensures repayments == [] && transactions == [] && notifications == [] && nextId == 0
    {
      members, accounts, loans := map[], map[], map[];
      repayments, transactions, notifications := [], [], [];
      nextId := 0;
    }
  }

  // ---- fan-out: one notification per recipient ----

  /** The recipients of a batch of notifications. */
  function Recipients(batch: seq<Notification>): set<nat> {
    if batch == [] then {} else Recipients(batch[..|batch| - 1]) + {batch[|batch| - 1].recipientId}
  }

  /** Builds one copy of `template` for each recipient, numbered from
      `firstId`, in some order. */
  method FanOut(recipients: set<nat>, template: Notification, firstId: nat) returns (batch: seq<Notification>)
    ensures |batch| == |recipients|
    ensures Recipients(batch) == recipients
    ensures forall i :: 0 <= i < |batch| ==> batch[i] == template.(id := firstId + i, recipientId := batch[i].recipientId)
  {
    var rest := recipients;
    batch := [];
    while rest != {}
      invariant rest <= recipients
      invariant |batch| + |rest| == |recipients|
      invariant Recipients(batch) == recipients - rest
      invariant forall i :: 0 <= i < |batch| ==> batch[i] == template.(id := firstId + i, recipientId := batch[i].recipientId)
      decreases |rest|
    {
      var m :| m in rest;
      var next := template.(id := firstId + |batch|, recipientId := m);
      assert (batch + [next])[..|batch|] == batch;
      batch := batch + [next];
      rest := rest - {m};
    }
  }

  /** Appending a batch numbered from the counter keeps the notification
      table well formed once the counter moves past the batch. */
  lemma AppendBatchWellFormed(ns: seq<Notification>, batch: seq<Notification>, nextId: nat)
    requires NotificationsWellFormed(ns, nextId)
    requires forall i :: 0 <= i < |batch| ==> batch[i].id == nextId + i
    ensures NotificationsWellFormed(ns + batch, nextId + |batch|)
  {
    AscendingIsIdsIncreasing(ns);
    AscendingIsIdsIncreasing(ns + batch);
  }

  /** Inserts a batch of notifications numbered from the counter, moving the
      counter past them; no other table changes. */
  method AppendNotifications(db: Db, batch: seq<Notification>)
    requires db.Valid()
    requires forall i :: 0 <= i < |batch| ==> batch[i].id == db.nextId + i
    modifies db
    ensures db.Valid()
    ensures db.notifications == old(db.notifications) + batch
    ensures db.nextId == old(db.nextId) + |batch|
    ensures db.members == old(db.members) && db.accounts == old(db.accounts) && db.loans == old(db.loans)
    ensures db.repayments == old(db.repayments) && db.transactions == old(db.transactions)
  {
    AppendBatchWellFormed(db.notifications, batch, db.nextId);
    db.notifications, db.nextId := db.notifications + batch, db.nextId + |batch|;
  }

  /** A concatenation splits back into its two parts. */
  lemma SplitAppend(a: seq<Notification>, b: seq<Notification>)
    ensures (a + b)[..|a|] == a && (a + b)[|a|..] == b
  {
  }
}
