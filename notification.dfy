/** A member's own notifications: the filtered listing, the unread count, and
    the read flags that mark-read and mark-all-read set, and deletion by the
    recipient or an admin. */
module NotificationViews {
  import opened Common
  import opened Schema

  // ---- looking a notification up ----

  /** The position of the notification with the given id, if there is one. */
  function FindNotification(ns: seq<Notification>, id: nat): (k: Option<nat>)
    ensures k.Some? ==> k.value < |ns| && ns[k.value].id == id
    ensures k.None? ==> forall i :: 0 <= i < |ns| ==> ns[i].id != id
  {
    if ns == [] then None
    else if ns[0].id == id then Some(0)
    else match FindNotification(ns[1..], id)
      case None => None
      case Some(k) => Some(k + 1)
  }

  // ---- get_user_notifications ----

  /** The narrowing the listing applies: the caller's own rows, then only
      unread ones when asked, then only the given type when one is given (an
      empty type is no filter), then only the given loan when one is given. */
  predicate Matches(n: Notification, caller: nat, unreadOnly: bool, kind: Option<string>, loanId: Option<nat>) {
    && n.recipientId == caller
    && (unreadOnly ==> !n.isRead)
    && (Truthy(kind) ==> n.kind == kind.value)
    && (loanId.Some? ==> n.loanId == loanId)
  }

  /** Every filter only narrows the listing of the caller's own rows, and an
      empty type is the same as no type. */
  lemma FiltersOnlyNarrow(n: Notification, caller: nat, unreadOnly: bool, kind: Option<string>, loanId: Option<nat>)
    ensures Matches(n, caller, false, None, None) <==> n.recipientId == caller
    ensures Matches(n, caller, unreadOnly, kind, loanId) ==> Matches(n, caller, false, None, None)
    ensures Matches(n, caller, unreadOnly, Some(""), loanId) == Matches(n, caller, unreadOnly, None, loanId)
  {
  }

  /** The rows that match, in table order. */
  function Filter(ns: seq<Notification>, caller: nat, unreadOnly: bool, kind: Option<string>, loanId: Option<nat>)
    : (r: seq<Notification>)
    ensures |r| <= |ns|
    ensures forall n :: n in r <==> n in ns && Matches(n, caller, unreadOnly, kind, loanId)
    decreases |ns|
  {
    if ns == [] then []
    else
      var rest := Filter(ns[..|ns| - 1], caller, unreadOnly, kind, loanId);
      assert ns == ns[..|ns| - 1] + [ns[|ns| - 1]];
      if Matches(ns[|ns| - 1], caller, unreadOnly, kind, loanId) then rest + [ns[|ns| - 1]] else rest
  }

  /** Filtering keeps the table's order, so increasing ids stay increasing. */
  lemma {:induction false} FilterKeepsOrder(ns: seq<Notification>, caller: nat, unreadOnly: bool, kind: Option<string>,
                                            loanId: Option<nat>)
    requires IdsIncreasing(ns)
    ensures IdsIncreasing(Filter(ns, caller, unreadOnly, kind, loanId))
    decreases |ns|
  {
    if ns != [] {
      var init := ns[..|ns| - 1];
      var last := ns[|ns| - 1];
      var rest := Filter(init, caller, unreadOnly, kind, loanId);
      FilterKeepsOrder(init, caller, unreadOnly, kind, loanId);
      forall i | 0 <= i < |rest|
        ensures rest[i].id < last.id
      {
        assert rest[i] in init;
        var j :| 0 <= j < |init| && init[j] == rest[i];
        assert ns[j] == init[j];
      }
    }
  }

  function Reverse(s: seq<Notification>): (r: seq<Notification>)
    ensures |r| == |s|
    ensures forall i :: 0 <= i < |s| ==> r[i] == s[|s| - 1 - i]
  {
    if s == [] then [] else [s[|s| - 1]] + Reverse(s[..|s| - 1])
  }

  /** `get_user_notifications` before pagination: exactly the caller's rows
      that pass every filter, newest first. Ids come from a counter, so a
      table whose ids increase lists with ids strictly decreasing. */
  function Listing(ns: seq<Notification>, caller: nat, unreadOnly: bool, kind: Option<string>, loanId: Option<nat>)
    : (r: seq<Notification>)
    ensures forall n :: n in r <==> n in ns && Matches(n, caller, unreadOnly, kind, loanId)
    ensures IdsIncreasing(ns) ==> forall i, j :: 0 <= i < j < |r| ==> r[i].id > r[j].id
  {
    var f := Filter(ns, caller, unreadOnly, kind, loanId);
    var r := Reverse(f);
    assert IdsIncreasing(ns) ==> IdsIncreasing(f) by {
      if IdsIncreasing(ns) {
        FilterKeepsOrder(ns, caller, unreadOnly, kind, loanId);
      }
    }
    assert forall n :: n in r <==> n in f by {
      forall n | n in f
        ensures n in r
      {
        var i :| 0 <= i < |f| && f[i] == n;
        assert r[|f| - 1 - i] == n;
      }
    }
    r
  }

  // ---- get_unread_count ----

  /** 1 when `n` is an unread notification of `caller`, else 0. */
  function Unread(n: Notification, caller: nat): nat {
    if n.recipientId == caller && !n.isRead then 1 else 0
  }

  /** `get_unread_count`: how many of the caller's notifications are unread. */
  function UnreadCount(ns: seq<Notification>, caller: nat): (c: nat)
    ensures c <= |ns|
    ensures c == 0 <==> forall i :: 0 <= i < |ns| ==> ns[i].recipientId == caller ==> ns[i].isRead
    decreases |ns|
  {
    if ns == [] then 0
    else
      var c := UnreadCount(ns[..|ns| - 1], caller) + Unread(ns[|ns| - 1], caller);
      assert forall i :: 0 <= i < |ns| - 1 ==> ns[..|ns| - 1][i] == ns[i];
      c
  }

  /** The count of a table is the count without its last row plus that row. */
  lemma UnreadCountLast(ns: seq<Notification>, caller: nat)
    requires ns != []
    ensures UnreadCount(ns, caller) == UnreadCount(ns[..|ns| - 1], caller) + Unread(ns[|ns| - 1], caller)
  {
  }

  /** The unread count in the listing's meta is the length of the unread-only
      listing with no other filter. */
  lemma {:induction false} UnreadCountIsUnreadListing(ns: seq<Notification>, caller: nat)
    ensures UnreadCount(ns, caller) == |Filter(ns, caller, true, None, None)|
    decreases |ns|
  {
    if ns != [] {
      UnreadCountIsUnreadListing(ns[..|ns| - 1], caller);
    }
  }

  /** Replacing one row changes the count by what that row contributed. */
  lemma {:induction false} UnreadCountUpdate(ns: seq<Notification>, k: nat, m: Notification, caller: nat)
    requires k < |ns|
    ensures UnreadCount(ns[k := m], caller) == UnreadCount(ns, caller) - Unread(ns[k], caller) + Unread(m, caller)
    decreases |ns|
  {
    var last := |ns| - 1;
    var init := ns[..last];
    assert UnreadCount(ns, caller) == UnreadCount(init, caller) + Unread(ns[last], caller);
    if k < last {
      UnreadCountUpdate(init, k, m, caller);
      assert ns[k := m][..last] == init[k := m];
      assert UnreadCount(ns[k := m], caller) == UnreadCount(init[k := m], caller) + Unread(ns[last], caller);
    } else {
      assert ns[k := m][..last] == init;
      assert UnreadCount(ns[k := m], caller) == UnreadCount(init, caller) + Unread(m, caller);
    }
  }

  // ---- mark_notification_read ----

  /** `mark_notification_read` on the table: an unknown id is not found, a
      notification of someone else is refused, and otherwise that one row is
      marked read and nothing else changes. */
  function MarkRead(ns: seq<Notification>, caller: nat, id: nat): (r: Result<seq<Notification>>)
    ensures FindNotification(ns, id).None? <==> r == Err(NotificationNotFound)
    ensures r == Err(NotRecipient) <==>
              FindNotification(ns, id).Some? && ns[FindNotification(ns, id).value].recipientId != caller
    ensures r.Ok? <==> FindNotification(ns, id).Some? && ns[FindNotification(ns, id).value].recipientId == caller
    ensures r.Ok? ==>
              var k := FindNotification(ns, id).value;
              && |r.value| == |ns| && ns[k].recipientId == caller
              && r.value[k] == ns[k].(isRead := true)
              && forall i :: 0 <= i < |ns| && i != k ==> r.value[i] == ns[i]
  {
    match FindNotification(ns, id)
    case None => Err(NotificationNotFound)
    case Some(k) =>
      if ns[k].recipientId != caller then Err(NotRecipient)
      else Ok(ns[k := ns[k].(isRead := true)])
  }

  /** Marking the same notification read twice is the same as once. */
  lemma MarkReadIdempotent(ns: seq<Notification>, caller: nat, id: nat)
    requires MarkRead(ns, caller, id).Ok?
    ensures MarkRead(MarkRead(ns, caller, id).value, caller, id) == MarkRead(ns, caller, id)
  {
    var once := MarkRead(ns, caller, id).value;
    var k := FindNotification(ns, id).value;
    FindFirstAgrees(ns, once, id);
    assert once[k := once[k].(isRead := true)] == once;
  }

  /** Two tables with the same ids, row for row, find an id at the same place. */
  lemma {:induction false} FindFirstAgrees(a: seq<Notification>, b: seq<Notification>, id: nat)
    requires |a| == |b| && forall i :: 0 <= i < |a| ==> a[i].id == b[i].id
    ensures FindNotification(a, id) == FindNotification(b, id)
    decreases |a|
  {
    if a != [] && a[0].id != id {
      FindFirstAgrees(a[1..], b[1..], id);
    }
  }

  /** Marking one notification read lowers its recipient's unread count by
      one when it was unread, and leaves every other member's count alone. */
  lemma MarkReadCounts(ns: seq<Notification>, caller: nat, id: nat, other: nat)
    requires MarkRead(ns, caller, id).Ok?
    ensures var k := FindNotification(ns, id).value;
            UnreadCount(MarkRead(ns, caller, id).value, caller) == UnreadCount(ns, caller) - Unread(ns[k], caller)
    ensures other != caller ==> UnreadCount(MarkRead(ns, caller, id).value, other) == UnreadCount(ns, other)
  {
    var k := FindNotification(ns, id).value;
    UnreadCountUpdate(ns, k, ns[k].(isRead := true), caller);
    UnreadCountUpdate(ns, k, ns[k].(isRead := true), other);
  }

  /** Changing read flags keeps the ids, so the table stays well formed. */
  lemma SameIdsWellFormed(ns: seq<Notification>, ms: seq<Notification>, nextId: nat)
    requires NotificationsWellFormed(ns, nextId)
    requires |ms| == |ns| && forall i :: 0 <= i < |ns| ==> ms[i].id == ns[i].id
    ensures NotificationsWellFormed(ms, nextId)
  {
    AscendingIsIdsIncreasing(ns);
    AscendingIsIdsIncreasing(ms);
  }

  /** `mark_notification_read` on the database: the table becomes what
      `MarkRead` decides; nothing else changes. */
  method MarkNotificationRead(db: Db, caller: nat, id: nat) returns (r: Result<()>)
    requires db.Valid()
    modifies db
    ensures db.Valid()
    ensures var d := MarkRead(old(db.notifications), caller, id);
            && (d.Err? ==> r == Err(d.reason) && unchanged(db))
            && (d.Ok? ==> r.Ok? && db.notifications == d.value)
    ensures db.members == old(db.members) && db.accounts == old(db.accounts) && db.loans == old(db.loans)
    ensures db.repayments == old(db.repayments) && db.transactions == old(db.transactions)
    ensures db.nextId == old(db.nextId)
  {
    var d := MarkRead(db.notifications, caller, id);
    if d.Err? {
      return Err(d.reason);
    }
    SameIdsWellFormed(db.notifications, d.value, db.nextId);
    db.notifications := d.value;
    r := Ok(());
  }

  // ---- mark_all_notifications_read ----

  /** `n` as the bulk update leaves it: read when it is the caller's. */
  function ReadFor(n: Notification, caller: nat): (m: Notification)
    ensures m.id == n.id && m.recipientId == n.recipientId
    ensures n.recipientId == caller ==> m == n.(isRead := true)
    ensures n.recipientId != caller ==> m == n
  {
    if n.recipientId == caller && !n.isRead then n.(isRead := true) else n
  }

  /** The table after every unread notification of `caller` is marked read. */
  function MarkedAllRead(ns: seq<Notification>, caller: nat): (r: seq<Notification>)
    ensures |r| == |ns|
    ensures forall i :: 0 <= i < |ns| ==> r[i] == ReadFor(ns[i], caller)
    decreases |ns|
  {
    if ns == [] then [] else MarkedAllRead(ns[..|ns| - 1], caller) + [ReadFor(ns[|ns| - 1], caller)]
  }

  /** After mark-all-read the caller has nothing unread. */
  lemma MarkedAllReadLeavesNoneUnread(ns: seq<Notification>, caller: nat)
    ensures UnreadCount(MarkedAllRead(ns, caller), caller) == 0
  {
  }

  /** Mark-all-read leaves every other member's unread count as it was. */
  lemma {:induction false} MarkedAllReadKeepsOthers(ns: seq<Notification>, caller: nat, other: nat)
    requires other != caller
    ensures UnreadCount(MarkedAllRead(ns, caller), other) == UnreadCount(ns, other)
    decreases |ns|
  {
    if ns != [] {
      var init := ns[..|ns| - 1];
      MarkedAllReadKeepsOthers(init, caller, other);
      assert MarkedAllRead(ns, caller)[..|ns| - 1] == MarkedAllRead(init, caller);
    }
  }

  /** The bulk update: walks the table once, flipping each unread
      notification of `caller` to read, and counts the rows it flipped. */
  method MarkAll(before: seq<Notification>, caller: nat) returns (ns: seq<Notification>, updated: nat)
    ensures ns == MarkedAllRead(before, caller)
    ensures updated == UnreadCount(before, caller)
  {
    ns := before;
    var i := 0;
    updated := 0;
    while i < |ns|
      invariant 0 <= i <= |ns| == |before|
      invariant forall j :: 0 <= j < |ns| ==> ns[j] == if j < i then ReadFor(before[j], caller) else before[j]
      invariant updated == UnreadCount(before[..i], caller)
    {
      assert before[..i + 1][..i] == before[..i];
      UnreadCountLast(before[..i + 1], caller);
      updated := updated + Unread(ns[i], caller);
      ns := ns[i := ReadFor(ns[i], caller)];
      i := i + 1;
    }
    assert before[..i] == before;
  }

  /** `mark_all_notifications_read`: the table becomes `MarkedAllRead` of the
      old one, and the answer is the number of rows flipped, which is the
      caller's unread count beforehand. */
  method MarkAllNotificationsRead(db: Db, caller: nat) returns (updated: nat)
    requires db.Valid()
    modifies db
    ensures db.Valid()
    ensures db.notifications == MarkedAllRead(old(db.notifications), caller)
    ensures updated == UnreadCount(old(db.notifications), caller)
    ensures db.members == old(db.members) && db.accounts == old(db.accounts) && db.loans == old(db.loans)
    ensures db.repayments == old(db.repayments) && db.transactions == old(db.transactions)
    ensures db.nextId == old(db.nextId)
  {
    var ns;
    ns, updated := MarkAll(db.notifications, caller);
    SameIdsWellFormed(db.notifications, ns, db.nextId);
    db.notifications := ns;
  }

  // ---- delete_notification ----

  /** Who may delete notification `n`: its recipient, or an admin. A caller
      who is neither the recipient nor a member makes the admin lookup fail
      with an exception nothing catches. */
  function MayDelete(n: Notification, caller: nat, members: map<nat, Member>): (r: Result<()>)
    ensures r.Ok? <==> n.recipientId == caller || IsAdmin(members, caller)
    ensures r == Err(UncaughtException) <==> n.recipientId != caller && caller !in members
    ensures r.Err? ==> r.reason == UncaughtException || r.reason == NotRecipient
  {
    if n.recipientId == caller then Ok(())
    else if caller !in members then Err(UncaughtException)
    else if !members[caller].isAdmin then Err(NotRecipient)
    else Ok(())
  }

  /** Removing one row of a table with increasing ids keeps them increasing,
      removes that row's id, and keeps every other row. */
  lemma RemoveKeepsIdsIncreasing(ns: seq<Notification>, k: nat)
    requires IdsIncreasing(ns) && k < |ns|
    ensures IdsIncreasing(ns[..k] + ns[k + 1..])
    ensures forall n :: n in ns[..k] + ns[k + 1..] ==> n.id != ns[k].id
    ensures forall i :: 0 <= i < |ns| && i != k ==> ns[i] in ns[..k] + ns[k + 1..]
  {
    var rest := ns[..k] + ns[k + 1..];
    forall i | 0 <= i < |rest|
      ensures rest[i] == ns[if i < k then i else i + 1]
    {
    }
    forall i | 0 <= i < |ns| && i != k
      ensures ns[i] in rest
    {
      assert rest[if i < k then i else i - 1] == ns[i];
    }
  }

  /** Removing one row keeps the table well formed, and with ids unique the
      removed id is gone while every other row stays. */
  lemma RemoveNotificationWellFormed(ns: seq<Notification>, nextId: nat, k: nat)
    requires NotificationsWellFormed(ns, nextId) && k < |ns|
    ensures NotificationsWellFormed(ns[..k] + ns[k + 1..], nextId)
    ensures forall n :: n in ns[..k] + ns[k + 1..] ==> n.id != ns[k].id
    ensures forall n :: n in ns && n.id != ns[k].id ==> n in ns[..k] + ns[k + 1..]
  {
    AscendingIsIdsIncreasing(ns);
    RemoveKeepsIdsIncreasing(ns, k);
    AscendingIsIdsIncreasing(ns[..k] + ns[k + 1..]);
    forall n | n in ns && n.id != ns[k].id
      ensures n in ns[..k] + ns[k + 1..]
    {
      var i :| 0 <= i < |ns| && ns[i] == n;
    }
  }

  /** Removes the notification at position `k`. */
  method RemoveNotificationRow(db: Db, k: nat)
    requires db.Valid() && k < |db.notifications|
    modifies db
    ensures db.Valid()
    ensures db.notifications == old(db.notifications)[..k] + old(db.notifications)[k + 1..]
    ensures forall n :: n in db.notifications ==> n.id != old(db.notifications)[k].id
    ensures forall n :: n in old(db.notifications) && n.id != old(db.notifications)[k].id ==> n in db.notifications
    ensures db.members == old(db.members) && db.accounts == old(db.accounts) && db.loans == old(db.loans)
    ensures db.repayments == old(db.repayments) && db.transactions == old(db.transactions)
    ensures db.nextId == old(db.nextId)
  {
    RemoveNotificationWellFormed(db.notifications, db.nextId, k);
    db.notifications := db.notifications[..k] + db.notifications[k + 1..];
  }

  /** `delete_notification`: an unknown id is not found; otherwise, when
      `MayDelete` allows it, exactly that notification is removed. */
  method DeleteNotification(db: Db, caller: nat, id: nat) returns (r: Result<()>)
    requires db.Valid()
    modifies db
    ensures db.Valid()
    ensures FindNotification(old(db.notifications), id).None? ==> r == Err(NotificationNotFound)
    ensures FindNotification(old(db.notifications), id).Some? ==>
              var k := FindNotification(old(db.notifications), id).value;
              var d := MayDelete(old(db.notifications)[k], caller, old(db.members));
              && (d.Err? ==> r == d)
              && (d.Ok? ==> r.Ok? && db.notifications == old(db.notifications)[..k] + old(db.notifications)[k + 1..])
    ensures r.Err? ==> unchanged(db)
    ensures r.Ok? ==>
              && |db.notifications| == |old(db.notifications)| - 1
              && (forall n :: n in db.notifications ==> n.id != id)
              && (forall n :: n in old(db.notifications) && n.id != id ==> n in db.notifications)
    ensures db.members == old(db.members) && db.accounts == old(db.accounts) && db.loans == old(db.loans)
    ensures db.repayments == old(db.repayments) && db.transactions == old(db.transactions)
    ensures db.nextId == old(db.nextId)
  {
    var found := FindNotification(db.notifications, id);
    if found.None? {
      return Err(NotificationNotFound);
    }
    var k := found.value;
    var d := MayDelete(db.notifications[k], caller, db.members);
    if d.Err? {
      return d;
    }
    RemoveNotificationRow(db, k);
    r := Ok(());
  }
}
