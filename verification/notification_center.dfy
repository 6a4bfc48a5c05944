/**
  The notification list of the client's notification centre
  (src/components/Notifications/NotificationCenter.tsx) as list functions
  over its state: the notifications, newest first, and the unread count
  shown beside them. Each server-backed operation takes the server's answer
  as a flag and changes nothing when the answer is not ok. One event is
  handled at a time, so the list a handler reads is the current one.

  The component's loading effect also lists the notifications among its
  dependencies, so every change of the list is followed by another fetch
  that replaces it with the server's copy. The operations below are the
  changes themselves; `ReloadOverridesTransitions` states what that fetch
  then leaves.
 */
module NotificationCenter {
  import opened Common
  import opened NotificationService

  datatype Notice = Notice(id: string, kind: Kind, title: string, message: string,
                           timestamp: int, read: bool, data: Option<NoticeData>)

  datatype Center = Center(notices: seq<Notice>, unreadCount: nat)

  predicate IsUnread(n: Notice) { !n.read }

  /** updateUnreadCount: the number of unread notifications. */
  function UnreadCount(s: seq<Notice>): nat {
    |Filter(s, IsUnread)|
  }

  /** The count shown agrees with the list. */
  predicate Consistent(c: Center) {
    c.unreadCount == UnreadCount(c.notices)
  }

  /** Loading the stored notifications: on mount, and again after every
      change of the list. */
  function Load(c: Center, stored: seq<Notice>, ok: bool): (r: Center)
    ensures ok ==> r.notices == stored && Consistent(r)
    ensures !ok ==> r == c
  {
    if ok then Center(stored, UnreadCount(stored)) else c
  }

  /** A `notification` event: prepended, and the count recomputed. */
  function Receive(c: Center, n: Notice): (r: Center)
    ensures r.notices == [n] + c.notices && |r.notices| == |c.notices| + 1
    ensures Consistent(r)
    ensures Consistent(c) ==> r.unreadCount == c.unreadCount + (if n.read then 0 else 1)
  {
    var s := [n] + c.notices;
    assert s[1..] == c.notices;
    Center(s, UnreadCount(s))
  }

  /** `prev.map(n => n.id === id ? {...n, read: true} : n)`. */
  function MarkRead(s: seq<Notice>, id: string): (r: seq<Notice>)
    ensures |r| == |s|
    ensures forall i :: 0 <= i < |s| ==> r[i] == if s[i].id == id then s[i].(read := true) else s[i]
  {
    if |s| == 0 then [] else [if s[0].id == id then s[0].(read := true) else s[0]] + MarkRead(s[1..], id)
  }

  /** `prev.map(n => ({...n, read: true}))`. */
  function MarkEveryRead(s: seq<Notice>): (r: seq<Notice>)
    ensures |r| == |s|
    ensures forall i :: 0 <= i < |s| ==> r[i] == s[i].(read := true)
  {
    if |s| == 0 then [] else [s[0].(read := true)] + MarkEveryRead(s[1..])
  }

  function MarkAsRead(c: Center, id: string, ok: bool): (r: Center)
    ensures !ok ==> r == c
    ensures ok ==> r.notices == MarkRead(c.notices, id) && Consistent(r)
  {
    if ok then
      var s := MarkRead(c.notices, id);
      Center(s, UnreadCount(s))
    else c
  }

  /** markAllAsRead: the count is reset to 0 directly. */
  function MarkAllAsRead(c: Center, ok: bool): (r: Center)
    ensures !ok ==> r == c
    ensures ok ==> r.notices == MarkEveryRead(c.notices) && r.unreadCount == 0
  {
    if ok then Center(MarkEveryRead(c.notices), 0) else c
  }

  function Clear(c: Center, ok: bool): (r: Center)
    ensures !ok ==> r == c
    ensures ok ==> r == Center([], 0)
  {
    if ok then Center([], 0) else c
  }

  /** handleNotificationClick: an unread notification is marked read (subject
      to the server's answer); then the click is routed by type. */
  function Click(c: Center, n: Notice, ok: bool): (r: (Center, Option<string>))
    ensures n.read ==> r.0 == c
    ensures !n.read ==> r.0 == MarkAsRead(c, n.id, ok)
    ensures r.1 == ClickTarget(n.kind, n.data)
  {
    (if n.read then c else MarkAsRead(c, n.id, ok), ClickTarget(n.kind, n.data))
  }

  /** getNotificationIcon. */
  function NoticeIcon(kind: Kind): (r: string)
    ensures r == "fa-comment" <==> kind == MessageKind
    ensures r == "fa-phone" <==> kind == CallKind
    ensures r == "fa-gift" <==> kind == DonationKind
    ensures r == "fa-bell" <==> kind == SystemKind
  {
    match kind
    case MessageKind => "fa-comment"
    case CallKind => "fa-phone"
    case DonationKind => "fa-gift"
    case SystemKind => "fa-bell"
  }

  // ------------------------------------------------------------ properties

  /** Nothing is unread once every notification is marked read, so the reset
      count of `markAllAsRead` is the recomputed one. */
  lemma {:induction false} MarkEveryReadLeavesNoneUnread(s: seq<Notice>)
    ensures UnreadCount(MarkEveryRead(s)) == 0
  {
    if |s| > 0 {
      MarkEveryReadLeavesNoneUnread(s[1..]);
      assert MarkEveryRead(s)[1..] == MarkEveryRead(s[1..]);
    }
  }

  lemma MarkAllKeepsConsistent(c: Center, ok: bool)
    requires Consistent(c)
    ensures Consistent(MarkAllAsRead(c, ok))
  {
    if ok { MarkEveryReadLeavesNoneUnread(c.notices); }
  }

  /** After marking `id`, no notification with that id is unread, and the
      count never grows. */
  lemma {:induction false} MarkReadLowersCount(s: seq<Notice>, id: string)
    ensures UnreadCount(MarkRead(s, id)) <= UnreadCount(s)
    ensures forall i :: 0 <= i < |s| && s[i].id == id ==> MarkRead(s, id)[i].read
  {
    if |s| > 0 {
      MarkReadLowersCount(s[1..], id);
      assert MarkRead(s, id)[1..] == MarkRead(s[1..], id);
    }
  }

  /** Marking the same id twice is marking it once. */
  lemma {:induction false} MarkReadIdempotent(s: seq<Notice>, id: string)
    ensures MarkRead(MarkRead(s, id), id) == MarkRead(s, id)
  {
  }

  /** A notification whose id is absent leaves the list as it was. */
  lemma {:induction false} MarkReadUnknownId(s: seq<Notice>, id: string)
    requires forall i :: 0 <= i < |s| ==> s[i].id != id
    ensures MarkRead(s, id) == s
  {
  }

  /** After any transition the effect fetches again; once the server answers
      ok the centre shows exactly the server's copy with its count, whatever
      the transition did. */
  lemma ReloadOverridesTransitions(c: Center, n: Notice, id: string, stored: seq<Notice>, ok: bool)
    ensures Load(Receive(c, n), stored, true) == Load(c, stored, true)
    ensures Load(MarkAsRead(c, id, ok), stored, true) == Load(c, stored, true)
    ensures Load(MarkAllAsRead(c, ok), stored, true) == Load(c, stored, true)
    ensures Load(Clear(c, ok), stored, true) == Load(c, stored, true)
    ensures Load(c, stored, true) == Center(stored, UnreadCount(stored))
  {
  }

  /** Every operation keeps the shown count in step with the list. */
  lemma OperationsKeepConsistent(c: Center, n: Notice, id: string, stored: seq<Notice>, ok: bool)
    requires Consistent(c)
    ensures Consistent(Receive(c, n))
    ensures Consistent(MarkAsRead(c, id, ok))
    ensures Consistent(Clear(c, ok))
    ensures Consistent(Load(c, stored, ok))
    ensures Consistent(Click(c, n, ok).0)
  {
  }
}
