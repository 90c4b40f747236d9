/** The notification page: a local list that can be marked read, all or
    one at a time, and from which entries can be deleted. */
module Notifications {
  import opened Seqs

  datatype Notification = Notification(id: int, title: string, message: string, time: string, read: bool, kind: string)

  /** The list the page starts with. */
  const Initial: seq<Notification> := [
    Notification(1, "Order Shipped", "Your order #12345 has been shipped and is on its way to you.", "2 hours ago", false, "order"),
    Notification(2, "New Product Alert", "Check out the latest iPhone 15 Pro Max - now available!", "1 day ago", true, "promotion"),
    Notification(3, "Payment Successful", "Your payment for order #12344 has been processed successfully.", "2 days ago", true, "payment")
  ]

  function IsUnread(): Notification -> bool {
    (n: Notification) => !n.read
  }

  function HasOtherId(id: int): Notification -> bool {
    (n: Notification) => n.id != id
  }

  function HasId(id: int): Notification -> bool {
    (n: Notification) => n.id == id
  }

  /** `unreadCount` */
  function UnreadCount(ns: seq<Notification>): (n: nat)
    ensures n <= |ns|
    ensures n == 0 <==> forall i :: 0 <= i < |ns| ==> ns[i].read
  {
    Count(ns, IsUnread())
  }

  /** `markAsRead` */
  function MarkAsRead(ns: seq<Notification>, id: int): (r: seq<Notification>)
    ensures |r| == |ns|
    ensures forall i :: 0 <= i < |ns| && ns[i].id == id ==> r[i] == ns[i].(read := true)
    ensures forall i :: 0 <= i < |ns| && ns[i].id != id ==> r[i] == ns[i]
  {
    seq(|ns|, i requires 0 <= i < |ns| => if ns[i].id == id then ns[i].(read := true) else ns[i])
  }

  /** `markAllAsRead` */
  function MarkAllAsRead(ns: seq<Notification>): (r: seq<Notification>)
    ensures |r| == |ns|
    ensures forall i :: 0 <= i < |ns| ==> r[i] == ns[i].(read := true)
  {
    seq(|ns|, i requires 0 <= i < |ns| => ns[i].(read := true))
  }

  /** `deleteNotification` */
  function DeleteNotification(ns: seq<Notification>, id: int): (r: seq<Notification>)
    ensures forall n :: n in r <==> n in ns && n.id != id
    ensures |r| <= |ns|
  {
    Filter(ns, HasOtherId(id))
  }

  /** Marking one entry read is idempotent and lowers the unread count by
      the number of unread entries with that id. */
  lemma {:induction false} MarkAsReadLaws(ns: seq<Notification>, id: int)
    ensures MarkAsRead(MarkAsRead(ns, id), id) == MarkAsRead(ns, id)
    ensures UnreadCount(MarkAsRead(ns, id)) + Count(ns, And(IsUnread(), HasId(id))) == UnreadCount(ns)
  {
    if |ns| > 0 {
      MarkAsReadLaws(ns[1..], id);
      assert MarkAsRead(ns, id)[1..] == MarkAsRead(ns[1..], id);
    }
  }

  /** After marking all read nothing is unread, the mark-all button is
      hidden, and marking all again changes nothing. */
  lemma MarkAllLaws(ns: seq<Notification>)
    ensures UnreadCount(MarkAllAsRead(ns)) == 0
    ensures !ShowMarkAll(MarkAllAsRead(ns))
    ensures MarkAllAsRead(MarkAllAsRead(ns)) == MarkAllAsRead(ns)
  {
  }

  /** Deleting keeps the other entries in order, leaves none with that id,
      and marking an entry read before deleting it makes no difference. */
  lemma DeleteLaws(ns: seq<Notification>, id: int)
    ensures IsSubsequence(DeleteNotification(ns, id), ns)
    ensures forall i :: 0 <= i < |DeleteNotification(ns, id)| ==> DeleteNotification(ns, id)[i].id != id
    ensures DeleteNotification(MarkAsRead(ns, id), id) == DeleteNotification(ns, id)
  {
    FilterIsSubsequence(ns, HasOtherId(id));
    assert forall i :: 0 <= i < |DeleteNotification(ns, id)| ==> DeleteNotification(ns, id)[i] in DeleteNotification(ns, id);
    DeleteAfterMark(ns, id);
  }

  lemma {:induction false} DeleteAfterMark(ns: seq<Notification>, id: int)
    ensures Filter(MarkAsRead(ns, id), HasOtherId(id)) == Filter(ns, HasOtherId(id))
  {
    if |ns| > 0 {
      DeleteAfterMark(ns[1..], id);
      assert MarkAsRead(ns, id)[1..] == MarkAsRead(ns[1..], id);
    }
  }

  /** The "Mark All as Read" button. */
  function ShowMarkAll(ns: seq<Notification>): (shown: bool)
    ensures shown <==> exists i :: 0 <= i < |ns| && !ns[i].read
  {
    UnreadCount(ns) > 0
  }

  /** The per-entry "Mark as Read" button. */
  predicate ShowMarkOne(n: Notification) {
    !n.read
  }

  /** "Mark All as Read" shows exactly when some entry shows its own
      button, and marking an entry read hides that entry's button. */
  lemma MarkButtonsAgree(ns: seq<Notification>, id: int)
    ensures ShowMarkAll(ns) <==> exists i :: 0 <= i < |ns| && ShowMarkOne(ns[i])
    ensures forall i :: 0 <= i < |ns| && ns[i].id == id ==> !ShowMarkOne(MarkAsRead(ns, id)[i])
  {
  }

  /** The page opens with one unread notification. */
  lemma InitialUnread()
    ensures UnreadCount(Initial) == 1
    ensures ShowMarkAll(Initial)
  {
    assert Initial[1..][1..][1..] == [];
  }
}
