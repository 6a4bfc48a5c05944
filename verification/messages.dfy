/**
  The message document (server/src/models/Message.ts) and the three message
  handlers (server/src/controllers/messageController.ts): sending, listing a
  page of a conversation, and marking a message read. The requester's user id
  is the one `protect` resolved; `isObjectId` stands for mongoose's id check.
  Server-side socket emissions are returned as values.
 */
module Messages {
  import opened Common
  import opened Text
  import opened JsNumber
  import opened Sorting
  import opened UserModel

  type MessageId = string

  datatype MessageType = Text | Image | Video

  datatype Message = Message(
    id: MessageId,
    sender: UserId,
    receiver: Option<UserId>,
    content: string,
    mtype: MessageType,
    mediaUrl: Option<string>,
    isPrivate: bool,
    readBy: seq<UserId>,
    createdAt: Millis)

  /** Addressing of a server-side emission (`io.to(room)` or `io.emit`). */
  datatype Target = ToRoom(room: string) | ToEveryone

  datatype Notice =
    | NewMessage(message: Message)
    | MessageRead(messageId: MessageId, readBy: UserId)

  datatype Emission = Emission(target: Target, notice: Notice)

  datatype Body = Info(message: string) | Doc(doc: Message) | Listing(page: Page)

  datatype Page = Page(messages: seq<Message>, page: int, limit: int, total: nat, pages: nat)

  datatype Reply = Reply(status: Status, body: Body)

  const NotAuthenticated := "Utilisateur non authentifié"
  const BadReceiver := "ID du destinataire invalide"
  const EmptyMessage := "Le message ne peut pas être vide"
  const BadMessageId := "ID du message invalide"
  const MessageNotFound := "Message non trouvé"
  const NotAllowedToRead := "Non autorisé à marquer ce message comme lu"
  const ServerErrorText := "Erreur serveur"

  /** The `type` field: absent means text; any value outside the enum fails validation. */
  function ParseType(t: Option<string>): (r: Option<MessageType>)
    ensures t.None? ==> r == Some(Text)
    ensures r.Some? <==> t.None? || t.value in {"text", "image", "video"}
  {
    if t.None? || t.value == "text" then Some(Text)
    else if t.value == "image" then Some(Image)
    else if t.value == "video" then Some(Video)
    else None
  }

  /** The stored media URL: the upload path with the `trim` setter applied. */
  function MediaUrl(filename: string): string {
    Trim("/uploads/" + filename)
  }

  function FindMessage(msgs: seq<Message>, id: MessageId): (r: Option<nat>)
    ensures r.Some? ==> r.value < |msgs| && msgs[r.value].id == id
    ensures r.None? <==> forall j :: 0 <= j < |msgs| ==> msgs[j].id != id
  {
    IndexWhere(msgs, (m: Message) => m.id == id)
  }

  /** sendMessage. `file` is the stored upload's filename when one came with
      the request; `newId` is the id the database assigns. The checks run in
      the order: sender, receiver id, emptiness, then the document's own
      validators (content is required after trimming, so a message with only
      a file is refused at that point). */
  function SendMessage(sender: Option<UserId>, content: Option<string>, receiverId: Option<string>,
                       mtype: Option<string>, file: Option<string>, isObjectId: string -> bool,
                       newId: MessageId, now: Millis, msgs: seq<Message>): (r: (Reply, seq<Message>, Option<Emission>))
    ensures r.0.status in {Created, Unauthorized, BadRequest, ServerError}
    ensures r.0.status != Created ==> r.1 == msgs && r.2.None?
    ensures !Truthy(sender) ==> r.0 == Reply(Unauthorized, Info(NotAuthenticated))
    ensures Truthy(sender) && Truthy(receiverId) && !isObjectId(receiverId.value) ==> r.0 == Reply(BadRequest, Info(BadReceiver))
    ensures Truthy(sender) && !(Truthy(receiverId) && !isObjectId(receiverId.value)) && !Truthy(content) && file.None? ==>
      r.0 == Reply(BadRequest, Info(EmptyMessage))
    ensures r.0.status == Created <==>
      && Truthy(sender) && !(Truthy(receiverId) && !isObjectId(receiverId.value))
      && content.Some? && Trim(content.value) != "" && ParseType(mtype).Some?
      && FindMessage(msgs, newId).None?
    ensures r.0.status == Created ==>
      && |r.1| == |msgs| + 1 && r.1[..|msgs|] == msgs
      && r.1[|msgs|] == Message(newId, sender.value, if Truthy(receiverId) then receiverId else None,
                                Trim(content.value), ParseType(mtype).value,
                                if file.Some? then Some(MediaUrl(file.value)) else None,
                                Truthy(receiverId), [sender.value], now)
      && r.0.body == Doc(r.1[|msgs|])
      && r.2 == Some(Emission(if Truthy(receiverId) then ToRoom(receiverId.value) else ToEveryone, NewMessage(r.1[|msgs|])))
  {
    if !Truthy(sender) then (Reply(Unauthorized, Info(NotAuthenticated)), msgs, None)
    else if Truthy(receiverId) && !isObjectId(receiverId.value) then (Reply(BadRequest, Info(BadReceiver)), msgs, None)
    else if !Truthy(content) && file.None? then (Reply(BadRequest, Info(EmptyMessage)), msgs, None)
    else if content.None? || Trim(content.value) == "" || ParseType(mtype).None? || FindMessage(msgs, newId).Some? then
      (Reply(ServerError, Info(ServerErrorText)), msgs, None)
    else
      var m := Message(newId, sender.value, if Truthy(receiverId) then receiverId else None,
                       Trim(content.value), ParseType(mtype).value,
                       if file.Some? then Some(MediaUrl(file.value)) else None,
                       Truthy(receiverId), [sender.value], now);
      var target := if Truthy(receiverId) then ToRoom(receiverId.value) else ToEveryone;
      assert (msgs + [m])[..|msgs|] == msgs;
      (Reply(Created, Doc(m)), msgs + [m], Some(Emission(target, NewMessage(m))))
  }

  // ------------------------------------------------------------ listing

  /** `Math.max(1, parseInt(page) || 1)`. */
  function PageNumber(q: Option<string>): (p: int)
    ensures p >= 1
    ensures q.Some? && ParseInt(q.value).Some? && ParseInt(q.value).value >= 1 ==> p == ParseInt(q.value).value
    ensures q.None? || ParseInt(q.value).None? || ParseInt(q.value).value < 1 ==> p == 1
  {
    var n := if q.None? then None else ParseInt(q.value);
    var v := OrDefault(n, 1);
    if v < 1 then 1 else v
  }

  /** `Math.min(50, Math.max(1, parseInt(limit) || 50))`. */
  function PageLimit(q: Option<string>): (l: int)
    ensures 1 <= l <= 50
    ensures q.Some? && ParseInt(q.value).Some? && 1 <= ParseInt(q.value).value <= 50 ==> l == ParseInt(q.value).value
    ensures q.None? || ParseInt(q.value).None? || ParseInt(q.value).value == 0 || ParseInt(q.value).value > 50 ==> l == 50
    ensures q.Some? && ParseInt(q.value).Some? && ParseInt(q.value).value < 0 ==> l == 1
  {
    var n := if q.None? then None else ParseInt(q.value);
    var v := OrDefault(n, 50);
    var w := if v < 1 then 1 else v;
    if w > 50 then 50 else w
  }

  /** `Math.ceil(total / limit)`. */
  function PageCount(total: nat, limit: int): (pages: nat)
    requires limit >= 1
    ensures total == 0 ==> pages == 0
    ensures total > 0 ==> (pages - 1) * limit < total <= pages * limit
  {
    (total + limit - 1) / limit
  }

  /** The filter of the listing: the two directions of one conversation, or
      the public messages (no receiver) when no receiver is named. */
  predicate InQuery(m: Message, me: UserId, other: Option<UserId>) {
    if other.Some? then
      (m.sender == me && m.receiver == Some(other.value)) || (m.sender == other.value && m.receiver == Some(me))
    else m.receiver.None?
  }

  function Matching(msgs: seq<Message>, me: UserId, other: Option<UserId>): seq<Message> {
    Filter(msgs, (m: Message) => InQuery(m, me, other))
  }

  /** The matching messages in listing order, `.sort({ createdAt: -1 })`. */
  function Newest(msgs: seq<Message>, me: UserId, other: Option<UserId>): (r: seq<Message>)
    ensures SortedDesc(r, (m: Message) => m.createdAt)
    ensures multiset(r) == multiset(Matching(msgs, me, other))
  {
    SortDesc(Matching(msgs, me, other), (m: Message) => m.createdAt)
  }

  /** `.skip((page - 1) * limit).limit(limit)` over an ordered result. */
  function PageSlice(sorted: seq<Message>, page: int, limit: int): (r: seq<Message>)
    requires page >= 1 && limit >= 1
    ensures |r| <= limit
    ensures |r| == if (page - 1) * limit >= |sorted| then 0
                   else if |sorted| - (page - 1) * limit < limit then |sorted| - (page - 1) * limit
                   else limit
    ensures forall k :: 0 <= k < |r| ==> (page - 1) * limit + k < |sorted| && r[k] == sorted[(page - 1) * limit + k]
  {
    var from := (page - 1) * limit;
    if from >= |sorted| then []
    else if from + limit >= |sorted| then sorted[from..]
    else sorted[from..from + limit]
  }

  /** One page of the messages matching the query, newest first. */
  function ListPage(msgs: seq<Message>, me: UserId, other: Option<UserId>, page: int, limit: int): (p: Page)
    requires page >= 1 && 1 <= limit
    ensures p.page == page && p.limit == limit
    ensures p.total == |Matching(msgs, me, other)| && p.pages == PageCount(p.total, limit)
    ensures |p.messages| <= limit
    ensures forall k :: 0 <= k < |p.messages| ==> p.messages[k] in msgs && InQuery(p.messages[k], me, other)
    ensures SortedDesc(p.messages, (m: Message) => m.createdAt)
    ensures |p.messages| == if (page - 1) * limit >= p.total then 0
                            else if p.total - (page - 1) * limit < limit then p.total - (page - 1) * limit
                            else limit
    ensures exists sorted: seq<Message> ::
      && SortedDesc(sorted, (m: Message) => m.createdAt)
      && multiset(sorted) == multiset(Matching(msgs, me, other))
      && p.messages == PageSlice(sorted, page, limit)
  {
    var all := Matching(msgs, me, other);
    var sorted := Newest(msgs, me, other);
    var slice := PageSlice(sorted, page, limit);
    SliceMembers(all, sorted, page, limit);
    SlicePreservesOrder(sorted, page, limit);
    Page(slice, page, limit, |all|, PageCount(|all|, limit))
  }

  lemma SliceMembers(all: seq<Message>, sorted: seq<Message>, page: int, limit: int)
    requires page >= 1 && limit >= 1 && multiset(sorted) == multiset(all)
    ensures forall k :: 0 <= k < |PageSlice(sorted, page, limit)| ==> PageSlice(sorted, page, limit)[k] in all
  {
    var slice := PageSlice(sorted, page, limit);
    forall k | 0 <= k < |slice| ensures slice[k] in all {
      assert slice[k] in multiset(sorted);
    }
  }

  /** getMessages: 401 without a requester, 400 for a malformed receiver id,
      otherwise one page of the matching messages, newest first. */
  function GetMessages(me: Option<UserId>, receiverId: Option<string>, pageQ: Option<string>,
                       limitQ: Option<string>, isObjectId: string -> bool, msgs: seq<Message>): (r: Reply)
    ensures r.status in {Ok, Unauthorized, BadRequest}
    ensures !Truthy(me) ==> r == Reply(Unauthorized, Info(NotAuthenticated))
    ensures r.status == BadRequest <==> Truthy(me) && Truthy(receiverId) && !isObjectId(receiverId.value)
    ensures r.status == Ok ==>
      r.body == Listing(ListPage(msgs, me.value, if Truthy(receiverId) then receiverId else None,
                                 PageNumber(pageQ), PageLimit(limitQ)))
  {
    if !Truthy(me) then Reply(Unauthorized, Info(NotAuthenticated))
    else if Truthy(receiverId) && !isObjectId(receiverId.value) then Reply(BadRequest, Info(BadReceiver))
    else
      var other := if Truthy(receiverId) then receiverId else None;
      Reply(Ok, Listing(ListPage(msgs, me.value, other, PageNumber(pageQ), PageLimit(limitQ))))
  }

  lemma SlicePreservesOrder(sorted: seq<Message>, page: int, limit: int)
    requires page >= 1 && limit >= 1
    requires SortedDesc(sorted, (m: Message) => m.createdAt)
    ensures SortedDesc(PageSlice(sorted, page, limit), (m: Message) => m.createdAt)
  {
  }

  // ------------------------------------------------------------ read receipts

  /** markMessageAsRead. The checks run in the order: requester, id format,
      existence, then the private-message rule. A private message without a
      receiver cannot be compared and fails as a server error. The reader is
      added once; only that first time is the sender notified. */
  function MarkAsRead(me: Option<UserId>, messageId: string, isObjectId: string -> bool,
                      msgs: seq<Message>): (r: (Reply, seq<Message>, Option<Emission>))
    ensures r.0.status in {Ok, Unauthorized, BadRequest, NotFound, Forbidden, ServerError}
    ensures r.0.status != Ok ==> r.1 == msgs && r.2.None?
    ensures !Truthy(me) ==> r.0 == Reply(Unauthorized, Info(NotAuthenticated))
    ensures Truthy(me) && !isObjectId(messageId) ==> r.0 == Reply(BadRequest, Info(BadMessageId))
    ensures Truthy(me) && isObjectId(messageId) && FindMessage(msgs, messageId).None? ==>
      r.0 == Reply(NotFound, Info(MessageNotFound))
    ensures r.0.status == Forbidden <==>
      && Truthy(me) && isObjectId(messageId) && FindMessage(msgs, messageId).Some?
      && var m := msgs[FindMessage(msgs, messageId).value];
         m.isPrivate && m.receiver.Some? && m.receiver.value != me.value
    ensures r.0.status == Ok ==>
      var i := FindMessage(msgs, messageId).value;
      var m := msgs[i];
      && Truthy(me) && (!m.isPrivate || m.receiver == Some(me.value))
      && (me.value in m.readBy ==> r.1 == msgs && r.2.None?)
      && (me.value !in m.readBy ==>
            && r.1 == msgs[i := m.(readBy := m.readBy + [me.value])]
            && r.2 == Some(Emission(ToRoom(m.sender), MessageRead(messageId, me.value))))
      && r.0.body == Doc(r.1[i])
  {
    if !Truthy(me) then (Reply(Unauthorized, Info(NotAuthenticated)), msgs, None)
    else if !isObjectId(messageId) then (Reply(BadRequest, Info(BadMessageId)), msgs, None)
    else match FindMessage(msgs, messageId)
      case None => (Reply(NotFound, Info(MessageNotFound)), msgs, None)
      case Some(i) =>
        var m := msgs[i];
        if m.isPrivate && m.receiver.None? then (Reply(ServerError, Info(ServerErrorText)), msgs, None)
        else if m.isPrivate && m.receiver.value != me.value then (Reply(Forbidden, Info(NotAllowedToRead)), msgs, None)
        else if me.value in m.readBy then (Reply(Ok, Doc(m)), msgs, None)
        else
          var m2 := m.(readBy := m.readBy + [me.value]);
          (Reply(Ok, Doc(m2)), msgs[i := m2], Some(Emission(ToRoom(m.sender), MessageRead(messageId, me.value))))
  }

  // ------------------------------------------------------------ properties

  /** No message lists a reader twice. */
  predicate ReadersDistinct(msgs: seq<Message>) {
    forall i :: 0 <= i < |msgs| ==>
      forall a, b :: 0 <= a < b < |msgs[i].readBy| ==> msgs[i].readBy[a] != msgs[i].readBy[b]
  }

  lemma {:induction false} SendKeepsReadersDistinct(sender: Option<UserId>, content: Option<string>,
                                                    receiverId: Option<string>, mtype: Option<string>,
                                                    file: Option<string>, isObjectId: string -> bool,
                                                    newId: MessageId, now: Millis, msgs: seq<Message>)
    requires ReadersDistinct(msgs)
    ensures ReadersDistinct(SendMessage(sender, content, receiverId, mtype, file, isObjectId, newId, now, msgs).1)
  {
    var r := SendMessage(sender, content, receiverId, mtype, file, isObjectId, newId, now, msgs);
    if r.0.status == Created {
      assert forall i :: 0 <= i < |msgs| ==> r.1[i] == msgs[i];
      assert |r.1[|msgs|].readBy| == 1;
    }
  }

  lemma {:induction false} MarkKeepsReadersDistinct(me: Option<UserId>, messageId: string,
                                                    isObjectId: string -> bool, msgs: seq<Message>)
    requires ReadersDistinct(msgs)
    ensures ReadersDistinct(MarkAsRead(me, messageId, isObjectId, msgs).1)
  {
    var r := MarkAsRead(me, messageId, isObjectId, msgs);
    if r.0.status == Ok && r.1 != msgs {
      var i := FindMessage(msgs, messageId).value;
      var rb := msgs[i].readBy + [me.value];
      assert me.value !in msgs[i].readBy;
      forall a, b | 0 <= a < b < |rb| ensures rb[a] != rb[b] {
        if b == |rb| - 1 {
          assert rb[a] == msgs[i].readBy[a];
        } else {
          assert rb[a] == msgs[i].readBy[a] && rb[b] == msgs[i].readBy[b];
        }
      }
      forall j | 0 <= j < |r.1| && j != i ensures r.1[j] == msgs[j] { }
    }
  }

  /** Marking read twice is marking read once: the second call changes nothing
      and notifies no one. */
  lemma {:induction false} MarkAsReadIdempotent(me: Option<UserId>, messageId: string,
                                                isObjectId: string -> bool, msgs: seq<Message>)
    requires MarkAsRead(me, messageId, isObjectId, msgs).0.status == Ok
    ensures var once := MarkAsRead(me, messageId, isObjectId, msgs).1;
      var twice := MarkAsRead(me, messageId, isObjectId, once);
      twice.0.status == Ok && twice.1 == once && twice.2.None?
  {
    var once := MarkAsRead(me, messageId, isObjectId, msgs).1;
    var i := FindMessage(msgs, messageId).value;
    assert once[i].id == messageId;
    assert forall j :: 0 <= j < i ==> once[j] == msgs[j];
    assert FindMessage(once, messageId) == Some(i);
    assert me.value in once[i].readBy by {
      if me.value !in msgs[i].readBy {
        assert once[i].readBy[|msgs[i].readBy|] == me.value;
      }
    }
  }

  /** A message with a file but no text is refused by the content validator
      after passing the handler's own emptiness check. */
  lemma FileOnlyMessageRefused(sender: UserId, receiverId: Option<string>, mtype: Option<string>,
                               file: string, isObjectId: string -> bool, newId: MessageId,
                               now: Millis, msgs: seq<Message>)
    requires sender != "" && !(Truthy(receiverId) && !isObjectId(receiverId.value))
    ensures SendMessage(Some(sender), None, receiverId, mtype, Some(file), isObjectId, newId, now, msgs).0
      == Reply(ServerError, Info(ServerErrorText))
  {
  }

  /** A limit of "0" is falsy and falls back to 50. */
  lemma {:induction false} ZeroLimitMeansFifty()
    ensures PageLimit(Some("0")) == 50
  {
    ParseIntRoundTrip(0);
    assert NatToString(0) == "0";
  }

  /** A negative limit is raised to 1. */
  lemma {:induction false} NegativeLimitMeansOne(n: nat)
    requires n > 0
    ensures PageLimit(Some("-" + NatToString(n))) == 1
  {
    ParseIntNegativeRoundTrip(n);
  }

  /** A limit above 50 is cut to 50. */
  lemma {:induction false} LargeLimitMeansFifty(n: nat)
    requires n > 50
    ensures PageLimit(Some(NatToString(n))) == 50
  {
    ParseIntRoundTrip(n);
  }

  /** Both participants of a conversation see the same messages. */
  lemma {:induction false} ConversationSymmetric(msgs: seq<Message>, a: UserId, b: UserId)
    ensures Matching(msgs, a, Some(b)) == Matching(msgs, b, Some(a))
  {
    if |msgs| > 0 {
      ConversationSymmetric(msgs[1..], a, b);
      assert InQuery(msgs[0], a, Some(b)) == InQuery(msgs[0], b, Some(a));
    }
  }

  /** Paging loses nothing: every message the query matches is listed on
      some page, whatever the limit. */
  lemma {:induction false} EveryMatchListed(msgs: seq<Message>, me: UserId, other: Option<UserId>, limit: int, msg: Message)
    requires 1 <= limit
    requires msg in msgs && InQuery(msg, me, other)
    ensures exists page :: page >= 1 && msg in ListPage(msgs, me, other, page, limit).messages
  {
    var k := NewestIndex(msgs, me, other, msg);
    var sorted := Newest(msgs, me, other);
    var page, pos := PageOf(sorted, limit, k);
    assert PageSlice(sorted, page, limit)[pos] == msg;
    assert ListPage(msgs, me, other, page, limit).messages == PageSlice(sorted, page, limit);
  }

  /** Where a matching message stands in listing order. */
  lemma NewestIndex(msgs: seq<Message>, me: UserId, other: Option<UserId>, msg: Message) returns (k: nat)
    requires msg in msgs && InQuery(msg, me, other)
    ensures k < |Newest(msgs, me, other)| && Newest(msgs, me, other)[k] == msg
  {
    FilterMembership(msgs, (m: Message) => InQuery(m, me, other), msg);
    var sorted := Newest(msgs, me, other);
    assert msg in multiset(sorted);
    k :| 0 <= k < |sorted| && sorted[k] == msg;
  }

  /** EveryMatchOnItsPage with the page and position as results. */
  lemma PageOf(sorted: seq<Message>, limit: int, k: nat) returns (page: int, pos: nat)
    requires limit >= 1 && k < |sorted|
    ensures page >= 1 && pos < |PageSlice(sorted, page, limit)| && PageSlice(sorted, page, limit)[pos] == sorted[k]
  {
    var q, r := k / limit, k % limit;
    assert q * limit + r == k && 0 <= q;
    page, pos := q + 1, r;
    SliceAt(sorted, page, limit, q * limit, pos);
  }

  /** Position `pos` of a page is the message `from + pos` of the ordering. */
  lemma SliceAt(sorted: seq<Message>, page: int, limit: int, from: int, pos: nat)
    requires page >= 1 && limit >= 1 && from == (page - 1) * limit
    requires pos < limit && from + pos < |sorted|
    ensures pos < |PageSlice(sorted, page, limit)| && PageSlice(sorted, page, limit)[pos] == sorted[from + pos]
  {
  }

  /** The k-th matching message, counted in listing order, is on page
      k / limit + 1 at position k % limit. */
  lemma {:induction false} EveryMatchOnItsPage(sorted: seq<Message>, limit: int, k: nat)
    requires limit >= 1 && k < |sorted|
    ensures var p := PageSlice(sorted, k / limit + 1, limit);
      k % limit < |p| && p[k % limit] == sorted[k]
  {
    var from := (k / limit) * limit;
    assert from + k % limit == k;
    assert from <= k;
  }
}
