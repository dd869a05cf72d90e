/**
 * The notification bell: the unread count and its badge, marking a
 * notification as read, where a click on a notification leads, and when the
 * list is loaded.
 */
module NotificationBell {
  import opened Common
  import opened Types

  predicate IsUnread(n: Notification) {
    !n.read
  }

  /** unreadCount: the notifications not yet read. */
  function UnreadCount(ns: seq<Notification>): (c: nat)
    ensures c <= |ns|
  {
    |Filter(ns, IsUnread)|
  }

  /** No unread notification iff every notification has been read. */
  lemma UnreadZeroIff(ns: seq<Notification>)
    ensures UnreadCount(ns) == 0 <==> forall n :: n in ns ==> n.read
  {
    if n :| n in ns && !n.read {
      var i :| 0 <= i < |ns| && ns[i] == n;
      assert ns[i] in Filter(ns, IsUnread);
    } else {
      FilterNone(ns, IsUnread);
    }
  }

  /** The list with the notification `id` marked read and nothing else changed. */
  function MarkRead(ns: seq<Notification>, id: int): (r: seq<Notification>)
    ensures |r| == |ns|
    ensures forall i :: 0 <= i < |ns| ==>
      r[i] == (if ns[i].id == id then ns[i].(read := true) else ns[i])
  {
    seq(|ns|, i requires 0 <= i < |ns| => if ns[i].id == id then ns[i].(read := true) else ns[i])
  }

  /** Marking the same notification twice is marking it once. */
  lemma MarkReadIdempotent(ns: seq<Notification>, id: int)
    ensures MarkRead(MarkRead(ns, id), id) == MarkRead(ns, id)
  {
  }

  /** Marking lowers the unread count by the unread notifications with that id, and never raises it. */
  lemma {:induction false} MarkReadCount(ns: seq<Notification>, id: int)
    ensures UnreadCount(MarkRead(ns, id)) == UnreadCount(ns) - Count(ns, (n: Notification) => !n.read && n.id == id)
    ensures UnreadCount(MarkRead(ns, id)) <= UnreadCount(ns)
    decreases |ns|
  {
    if ns != [] {
      MarkReadCount(ns[1..], id);
      assert MarkRead(ns, id)[1..] == MarkRead(ns[1..], id);
    }
  }

  /** The badge: hidden at 0, the count up to 9, "9+" beyond. */
  function BadgeLabel(unread: nat): (b: Option<Text>)
    ensures b.None? <==> unread == 0
    ensures 0 < unread <= 9 ==> b == Some(IntToString(unread))
    ensures unread > 9 ==> b == Some("9+")
  {
    if unread == 0 then None
    else if unread > 9 then Some("9+")
    else Some(IntToString(unread))
  }

  /** The badge's text has one or two characters, and names the count it stands for. */
  lemma BadgeLabelShort(unread: nat)
    requires unread > 0
    ensures 1 <= |BadgeLabel(unread).value| <= 2
    ensures unread <= 9 ==> ParseInt(BadgeLabel(unread).value) == Num(unread)
  {
    ParseIntOfIntToString(unread);
  }

  /** handleNotificationClick: the page a click leads to. */
  function ClickTarget(n: Notification): (path: Text)
    ensures n.notificationType == NEW_TOPIC && Truthy(n.relatedId) ==> path == "/topics/" + IntToString(n.relatedId.value)
    ensures n.notificationType == NEW_QUIZ && Truthy(n.relatedId) ==> path == "/quiz/" + IntToString(n.relatedId.value)
    ensures !(n.notificationType in {NEW_TOPIC, NEW_QUIZ} && Truthy(n.relatedId)) ==> path == "/dashboard"
  {
    if n.notificationType == NEW_TOPIC && Truthy(n.relatedId) then "/topics/" + IntToString(n.relatedId.value)
    else if n.notificationType == NEW_QUIZ && Truthy(n.relatedId) then "/quiz/" + IntToString(n.relatedId.value)
    else "/dashboard"
  }

  /** The related id can be read back from the page a topic or quiz notification leads to. */
  lemma ClickTargetNamesRelated(n: Notification)
    requires n.notificationType in {NEW_TOPIC, NEW_QUIZ} && Truthy(n.relatedId)
    ensures var p := ClickTarget(n);
      var prefix := if n.notificationType == NEW_TOPIC then |"/topics/"| else |"/quiz/"|;
      prefix <= |p| && ParseInt(p[prefix..]) == Num(n.relatedId.value)
  {
    var p := ClickTarget(n);
    var d := IntToString(n.relatedId.value);
    if n.notificationType == NEW_TOPIC {
      assert p[|"/topics/"|..] == d;
    } else {
      assert p[|"/quiz/"|..] == d;
    }
    ParseIntOfIntToString(n.relatedId.value);
  }

  class NotificationBellState {
    var notifications: seq<Notification>
    var open: bool

    constructor()
      ensures notifications == [] && !open
    {
      notifications := [];
      open := false;
    }

    function Unread(): nat
      reads this
    {
      UnreadCount(notifications)
    }

    /**
     * The load effect: it runs only with a signed-in user and the popover
     * open; `response` is the server's list, None when loading fails.
     */
    method Load(signedIn: bool, response: Option<seq<Notification>>) returns (requested: bool)
      modifies this`notifications
      ensures requested <==> signedIn && open
      ensures notifications == if requested && response.Some? then response.value else old(notifications)
    {
      requested := signedIn && open;
      if requested && response.Some? {
        notifications := response.value;
      }
    }

    /** handleMarkAsRead: the list changes only when the server `accepted`. */
    method MarkAsRead(id: int, accepted: bool)
      modifies this`notifications
      ensures notifications == if accepted then MarkRead(old(notifications), id) else old(notifications)
      ensures Unread() <= old(Unread())
    {
      MarkReadCount(notifications, id);
      if accepted {
        notifications := MarkRead(notifications, id);
      }
    }

    /** handleNotificationClick: mark it read, close the popover, and go to its page. */
    method Click(n: Notification, accepted: bool) returns (navigateTo: Text)
      modifies this`notifications, this`open
      ensures notifications == if accepted then MarkRead(old(notifications), n.id) else old(notifications)
      ensures !open
      ensures navigateTo == ClickTarget(n)
    {
      MarkAsRead(n.id, accepted);
      open := false;
      navigateTo := ClickTarget(n);
    }
  }
}
