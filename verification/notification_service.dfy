/**
  The pure parts of the client's notification service
  (src/services/notificationService.ts): the page title carrying the unread
  count as a `(n) ` prefix, the favicon badge label, and where a click on a
  notification navigates. The browser APIs (permission, system
  notifications, the canvas, focus) and the HTTP calls are not modelled.
 */
module NotificationService {
  import opened Common
  import opened Text

  // ------------------------------------------------------------ title badge

  /** The first index at or after `i` that does not hold a digit. */
  function DigitRunEnd(t: string, i: nat): (k: nat)
    requires i <= |t|
    ensures i <= k <= |t|
    ensures forall j :: i <= j < k ==> IsDigit(t[j])
    ensures k == |t| || !IsDigit(t[k])
    decreases |t| - i
  {
    if i == |t| || !IsDigit(t[i]) then i else DigitRunEnd(t, i + 1)
  }

  /** `title.replace(/^\(\d+\)\s/, '')`: drop one leading parenthesised run of
      digits and the whitespace character after it. */
  function StripBadge(t: string): (r: string)
    ensures |r| <= |t| && r == t[|t| - |r|..]
    ensures r != t ==> |t| >= 4 && t[0] == '('
  {
    if |t| >= 1 && t[0] == '(' then
      var k := DigitRunEnd(t, 1);
      if k > 1 && k + 1 < |t| && t[k] == ')' && IsSpace(t[k + 1]) then t[k + 2..] else t
    else t
  }

  /** The title after `updateBadge(count)`. */
  function Title(count: int, title: string): (r: string)
    ensures count > 0 ==> StartsWith(r, "(" + NatToString(count) + ") ")
    ensures count <= 0 ==> r == StripBadge(title)
  {
    if count > 0 then "(" + NatToString(count) + ") " + StripBadge(title) else StripBadge(title)
  }

  /** The text drawn on the favicon for a positive count. */
  function BadgeLabel(count: int): (r: string)
    requires count > 0
    ensures r == "99+" <==> count > 99
    ensures count <= 99 ==> |r| <= 2 && AllChars(r, IsDigit) && DecimalValue(r) == count
  {
    if count > 99 then "99+"
    else
      var s := NatToString(count);
      assert |s| <= 2 by { NatToStringShort(count); }
      s
  }

  lemma {:induction false} NatToStringShort(n: nat)
    requires n <= 99
    ensures |NatToString(n)| <= 2
  {
    if n >= 10 { assert |NatToString(n / 10)| == 1; }
  }

  // ------------------------------------------------------------ click routing

  datatype Kind = MessageKind | CallKind | DonationKind | SystemKind

  /** The optional `data` of a notification, as far as routing reads it. */
  datatype NoticeData = NoticeData(conversationId: Option<string>, callId: Option<string>)

  /** handleNotificationClick: the address navigated to, if any. */
  function ClickTarget(kind: Kind, data: Option<NoticeData>): (r: Option<string>)
    ensures r.Some? ==> StartsWith(r.value, "/")
    ensures kind == DonationKind <==> r == Some("/donations/history")
    ensures kind == SystemKind ==> r.None?
    ensures kind == MessageKind ==>
      (r.Some? <==> data.Some? && Truthy(data.value.conversationId))
      && (r.Some? ==> r.value == "/chat/" + data.value.conversationId.value)
    ensures kind == CallKind ==>
      (r.Some? <==> data.Some? && Truthy(data.value.callId))
      && (r.Some? ==> r.value == "/call/" + data.value.callId.value)
  {
    match kind
    case MessageKind =>
      if data.Some? && Truthy(data.value.conversationId) then
        var path := "/chat/" + data.value.conversationId.value;
        assert path[1] != "/donations/history"[1];
        Some(path)
      else None
    case CallKind =>
      if data.Some? && Truthy(data.value.callId) then
        var path := "/call/" + data.value.callId.value;
        assert path[1] != "/donations/history"[1];
        Some(path)
      else None
    case DonationKind => Some("/donations/history")
    case SystemKind => None
  }

  /** Reads a navigated address back into the notification type and the id
      it carries; the donation history carries none. */
  function ParseTarget(path: string): (r: Option<(Kind, string)>)
    ensures r.Some? && r.value.0 == MessageKind ==> path == "/chat/" + r.value.1
    ensures r.Some? && r.value.0 == CallKind ==> path == "/call/" + r.value.1
    ensures r.Some? && r.value.0 == DonationKind ==> path == "/donations/history" && r.value.1 == ""
    ensures r.Some? ==> r.value.0 != SystemKind
  {
    if StartsWith(path, "/chat/") then Some((MessageKind, path[6..]))
    else if StartsWith(path, "/call/") then Some((CallKind, path[6..]))
    else if path == "/donations/history" then Some((DonationKind, ""))
    else None
  }

  // ------------------------------------------------------------ properties

  /** Every address a click navigates to reads back as the notification's
      own type and id, so no two kinds or ids share an address. */
  lemma {:induction false} ClickTargetRoundTrip(kind: Kind, data: Option<NoticeData>)
    requires ClickTarget(kind, data).Some?
    ensures kind == MessageKind ==>
      ParseTarget(ClickTarget(kind, data).value) == Some((MessageKind, data.value.conversationId.value))
    ensures kind == CallKind ==>
      ParseTarget(ClickTarget(kind, data).value) == Some((CallKind, data.value.callId.value))
    ensures kind == DonationKind ==> ParseTarget(ClickTarget(kind, data).value) == Some((DonationKind, ""))
  {
    var p := ClickTarget(kind, data).value;
    match kind
    case MessageKind =>
      assert p[..6] == "/chat/";
      assert p[6..] == data.value.conversationId.value;
    case CallKind =>
      assert p[..6] == "/call/";
      assert p[2] != "/chat/"[2];
      assert p[6..] == data.value.callId.value;
    case DonationKind =>
      assert p[2] != "/chat/"[2] && p[2] != "/call/"[2];
    case SystemKind =>
  }

  /** Two clicks that navigate to the same address came from notifications
      of the same type carrying the same id. */
  lemma {:induction false} ClickTargetUnambiguous(k1: Kind, d1: Option<NoticeData>, k2: Kind, d2: Option<NoticeData>)
    requires ClickTarget(k1, d1).Some? && ClickTarget(k1, d1) == ClickTarget(k2, d2)
    ensures k1 == k2
    ensures k1 == MessageKind ==> d1.value.conversationId.value == d2.value.conversationId.value
    ensures k1 == CallKind ==> d1.value.callId.value == d2.value.callId.value
  {
    ClickTargetRoundTrip(k1, d1);
    ClickTargetRoundTrip(k2, d2);
  }

  /** Stripping undoes exactly one prefix `(digits)` followed by a whitespace
      character. */
  lemma {:induction false} StripPrefixed(d: string, w: char, rest: string)
    requires d != [] && AllChars(d, IsDigit) && IsSpace(w)
    ensures StripBadge("(" + d + ")" + [w] + rest) == rest
  {
    var t := "(" + d + ")" + [w] + rest;
    assert t[0] == '(';
    assert forall j :: 1 <= j < 1 + |d| ==> t[j] == d[j - 1];
    assert t[1 + |d|] == ')';
    DigitRunEndAt(t, 1, 1 + |d|);
    assert t[1 + |d| + 1] == w;
    assert t[|d| + 3..] == rest;
  }

  lemma {:induction false} DigitRunEndAt(t: string, i: nat, k: nat)
    requires i <= k < |t| && !IsDigit(t[k]) && forall j :: i <= j < k ==> IsDigit(t[j])
    ensures DigitRunEnd(t, i) == k
    decreases k - i
  {
    if i < k { DigitRunEndAt(t, i + 1, k); }
  }

  /** A positive count's title strips back to the bare title. */
  lemma {:induction false} TitleStripsBack(count: int, title: string)
    requires count > 0
    ensures StripBadge(Title(count, title)) == StripBadge(title)
  {
    var d := NatToString(count);
    assert "(" + d + ") " + StripBadge(title) == "(" + d + ")" + [' '] + StripBadge(title);
    StripPrefixed(d, ' ', StripBadge(title));
  }

  /** After a positive count, the next update replaces the badge rather than
      stacking a second one. */
  lemma {:induction false} TitleUpdatesCompose(m: int, n: int, title: string)
    requires n > 0
    ensures Title(m, Title(n, title)) == Title(m, title)
  {
    TitleStripsBack(n, title);
  }

  /** After a count of zero, though, a title that already carried two badges
      loses only one of them, so a second zero update changes it again. */
  lemma ZeroUpdateNotIdempotent()
    ensures Title(0, "(1) (2) x") == "(2) x"
    ensures Title(0, Title(0, "(1) (2) x")) == "x"
  {
    StripPrefixed("1", ' ', "(2) x");
    assert "(1) (2) x" == "(" + "1" + ")" + [' '] + "(2) x";
    StripPrefixed("2", ' ', "x");
    assert "(2) x" == "(" + "2" + ")" + [' '] + "x";
  }
}
