/**
  The real-time presence and signalling relay (server/src/socket/index.ts).
  The handshake admits a socket with its verified user id; connection and
  disconnection set the user's presence and announce it to every other
  socket; the five client events are forwarded, one emission each, to the
  room named by the target user's id. Payloads of the call events (offers,
  answers, ICE candidates) are opaque text.

  One event is handled at a time; delivery beyond "addressed to that room"
  is not modelled.
 */
module Relay {
  import opened Common
  import opened UserModel
  import AuthMiddleware

  type SocketId = string
  type Room = string
  type Payload = string

  /** A connected socket: its own id, the authenticated user, its rooms. */
  datatype Socket = Socket(id: SocketId, userId: UserId, rooms: set<Room>)

  datatype Handshake = Admit(userId: UserId) | Refuse(message: string)

  const AuthFailed := "Authentification échouée"

  /** The handshake middleware. `verify` answers the token's user id or
      `None` when verification throws; `isObjectId` says whether the id can
      be cast for the lookup. Every failure gives the same error. */
  function Authenticate(authToken: Option<string>, queryToken: Option<string>,
                        verify: string -> Option<UserId>, isObjectId: string -> bool,
                        users: seq<Account>): (r: Handshake)
    ensures r.Refuse? ==> r.message == AuthFailed
    ensures r.Admit? <==>
      var t := if Truthy(authToken) then authToken else queryToken;
      Truthy(t) && verify(t.value).Some? && isObjectId(verify(t.value).value)
      && FindUser(users, verify(t.value).value).Some?
    ensures r.Admit? ==> r.userId == verify((if Truthy(authToken) then authToken else queryToken).value).value
  {
    var token := if Truthy(authToken) then authToken else queryToken;
    if !Truthy(token) then Refuse(AuthFailed)
    else match verify(token.value)
      case None => Refuse(AuthFailed)
      case Some(uid) =>
        if isObjectId(uid) && FindUser(users, uid).Some? then Admit(uid) else Refuse(AuthFailed)
  }

  /** The handshake and the HTTP `protect` middleware admit the same user
      for the same token, sent as `auth.token` to one and as a `Bearer`
      header to the other, when the token library answers both alike and
      honours expiry itself. */
  lemma {:induction false} HandshakeMatchesProtect(token: string, verifySocket: string -> Option<UserId>,
                                                   verifyHttp: string -> AuthMiddleware.Verification,
                                                   isObjectId: string -> bool, users: seq<Account>, now: Millis)
    requires token != [] && forall j :: 0 <= j < |token| ==> token[j] != ' '
    requires AuthMiddleware.HonoursExpiry(verifyHttp(token), now)
    requires verifySocket(token) == if verifyHttp(token).Verified? then Some(verifyHttp(token).claims.userId) else None
    ensures var h := Authenticate(Some(token), None, verifySocket, isObjectId, users);
      var p := AuthMiddleware.Protect(Some(AuthMiddleware.TokenPrefix + " " + token), None, verifyHttp, isObjectId, users, now);
      && (h.Admit? <==> p.0.Next?)
      && (h.Admit? ==> p.0 == AuthMiddleware.Next(Some(h.userId)))
  {
    var header := AuthMiddleware.TokenPrefix + " " + token;
    AuthMiddleware.BearerRoundTrip(token, None);
    assert Truthy(Some(header));
    AuthMiddleware.ManualExpiryUnreachable(Some(header), None, verifyHttp, isObjectId, users, now);
    if verifyHttp(token).Verified? {
      var e := verifyHttp(token).claims.exp;
      if e.Some? && e.value != 0 {
        assert now < (now / 1000 + 1) * 1000;
      }
      assert !AuthMiddleware.ExpiredAt(e, now);
    }
  }

  /** Who an emission is addressed to. */
  datatype Scope =
    | RoomExceptSender(room: Room, sender: SocketId)     // socket.to(room).emit
    | EveryoneExceptSender(sender: SocketId)            // socket.broadcast.emit

  datatype OutEvent =
    | UserStatus(userId: UserId, online: bool)
    | TypingStart(userId: UserId)
    | TypingStop(userId: UserId)
    | IncomingCall(callerId: UserId, offer: Payload)
    | CallAnswered(answer: Payload)
    | IceCandidate(candidate: Payload)
    | CallEnded(userId: UserId)

  datatype Emission = Emission(scope: Scope, event: OutEvent)

  /** The client events, with the fields the handlers read. */
  datatype Inbound =
    | TypingStartIn(receiverId: UserId)
    | TypingStopIn(receiverId: UserId)
    | CallRequest(targetUserId: UserId, offer: Payload)
    | CallResponse(targetUserId: UserId, answer: Payload)
    | IceCandidateIn(targetUserId: UserId, candidate: Payload)
    | EndCall(targetUserId: UserId)

  /** The user an inbound event is aimed at. */
  function Target(ev: Inbound): UserId {
    match ev
    case TypingStartIn(r) => r
    case TypingStopIn(r) => r
    case CallRequest(t, _) => t
    case CallResponse(t, _) => t
    case IceCandidateIn(t, _) => t
    case EndCall(t) => t
  }

  /** The user id an outbound event names, if it names one. */
  function NamedUser(e: OutEvent): Option<UserId> {
    match e
    case UserStatus(u, _) => Some(u)
    case TypingStart(u) => Some(u)
    case TypingStop(u) => Some(u)
    case IncomingCall(u, _) => Some(u)
    case CallAnswered(_) => None
    case IceCandidate(_) => None
    case CallEnded(u) => Some(u)
  }

  /** `after` is `before` with only the presence of the user `findById`
      finds changed: online or offline as asked, last seen now, every other
      field and every other user as they were. */
  predicate PresenceChanged(before: seq<Account>, after: seq<Account>, uid: UserId, online: bool, now: Millis) {
    && |after| == |before|
    && forall j :: 0 <= j < |before| ==>
      if FindUser(before, uid) == Some(j) then
        && after[j].isOnline == online && after[j].lastSeen == now
        && after[j].(isOnline := before[j].isOnline, lastSeen := before[j].lastSeen) == before[j]
      else after[j] == before[j]
  }

  /** Presence update shared by connect and disconnect: `findByIdAndUpdate`,
      which changes nothing when no user has the id. */
  function SetPresence(users: seq<Account>, uid: UserId, online: bool, now: Millis): (r: seq<Account>)
    ensures PresenceChanged(users, r, uid, online, now)
    ensures FindUser(users, uid).None? ==> r == users
  {
    match FindUser(users, uid)
    case None => users
    case Some(i) => users[i := users[i].(isOnline := online, lastSeen := now)]
  }

  /** connection: the user goes online, the socket joins the room named by
      the user id (besides its own), and every other socket hears of it. */
  function Connect(sid: SocketId, uid: UserId, users: seq<Account>, now: Millis): (r: (Socket, seq<Account>, Emission))
    ensures r.0.id == sid && r.0.userId == uid
    ensures forall room :: room in r.0.rooms <==> room == sid || room == uid
    ensures PresenceChanged(users, r.1, uid, true, now)
    ensures forall x :: Receives(r.2.scope, x) <==> x.id != sid
    ensures r.2.event == UserStatus(uid, true)
  {
    (Socket(sid, uid, {sid, uid}), SetPresence(users, uid, true, now),
     Emission(EveryoneExceptSender(sid), UserStatus(uid, true)))
  }

  /** disconnect: the user goes offline and every other socket hears of it,
      whatever other sockets the same user still has open. */
  function Disconnect(s: Socket, users: seq<Account>, now: Millis): (r: (seq<Account>, Emission))
    ensures PresenceChanged(users, r.0, s.userId, false, now)
    ensures forall x :: Receives(r.1.scope, x) <==> x.id != s.id
    ensures r.1.event == UserStatus(s.userId, false)
  {
    (SetPresence(users, s.userId, false, now), Emission(EveryoneExceptSender(s.id), UserStatus(s.userId, false)))
  }

  /** The five forwarding handlers: one emission to the target's room. The
      user ids placed in a payload are the socket's authenticated id. */
  function Forward(s: Socket, ev: Inbound): (e: Emission)
    ensures e.scope == RoomExceptSender(Target(ev), s.id)
    ensures NamedUser(e.event).Some? ==> NamedUser(e.event).value == s.userId
    ensures NamedUser(e.event).None? <==> ev.CallResponse? || ev.IceCandidateIn?
  {
    var event := match ev
      case TypingStartIn(_) => TypingStart(s.userId)
      case TypingStopIn(_) => TypingStop(s.userId)
      case CallRequest(_, offer) => IncomingCall(s.userId, offer)
      case CallResponse(_, answer) => CallAnswered(answer)
      case IceCandidateIn(_, candidate) => IceCandidate(candidate)
      case EndCall(_) => CallEnded(s.userId);
    Emission(RoomExceptSender(Target(ev), s.id), event)
  }

  /** The sockets that receive an emission, among those connected. */
  function Recipients(e: Emission, sockets: seq<Socket>): (r: seq<Socket>)
    ensures forall x :: x in r <==> x in sockets && Receives(e.scope, x)
  {
    FilterMembershipAll(sockets, (x: Socket) => Receives(e.scope, x));
    Filter(sockets, (x: Socket) => Receives(e.scope, x))
  }

  predicate Receives(scope: Scope, x: Socket) {
    match scope
    case RoomExceptSender(room, sender) => room in x.rooms && x.id != sender
    case EveryoneExceptSender(sender) => x.id != sender
  }

  lemma FilterMembershipAll(s: seq<Socket>, p: Socket -> bool)
    ensures forall x :: x in Filter(s, p) <==> x in s && p(x)
  {
    forall x ensures x in Filter(s, p) <==> x in s && p(x) {
      FilterMembership(s, p, x);
    }
  }

  // ------------------------------------------------------------ properties

  /** A forwarded event reaches exactly the sockets of the target user that
      joined its room on connecting, except the sender. */
  lemma {:induction false} ForwardReachesTarget(s: Socket, ev: Inbound, others: seq<Socket>, x: Socket)
    requires x in others
    requires exists sid :: x == Socket(sid, x.userId, {sid, x.userId})
    requires x.id != s.id
    ensures x in Recipients(Forward(s, ev), others) <==> (x.userId == Target(ev) || x.id == Target(ev))
  {
  }

  /** The sender never hears its own forwarded event, even when it targets
      its own user id. */
  lemma SenderExcluded(s: Socket, ev: Inbound, others: seq<Socket>)
    ensures s !in Recipients(Forward(s, ev), others)
  {
  }

  /** Connecting then disconnecting leaves the user offline, with the later
      time; no one else changes. */
  lemma {:induction false} ConnectThenDisconnect(sid: SocketId, uid: UserId, users: seq<Account>, t1: Millis, t2: Millis)
    ensures var c := Connect(sid, uid, users, t1);
      Disconnect(c.0, c.1, t2).0 == SetPresence(users, uid, false, t2)
  {
    var users1 := Connect(sid, uid, users, t1).1;
    var a := Disconnect(Connect(sid, uid, users, t1).0, users1, t2).0;
    var b := SetPresence(users, uid, false, t2);
    match FindUser(users, uid)
    case None =>
    case Some(i) =>
      FindUserAfterUpdate(users, i, users[i].(isOnline := true, lastSeen := t1));
      assert a == b;
  }

  /** Closing one of two sockets of the same user marks that user offline
      although the other socket is still connected. */
  lemma {:induction false} DisconnectIgnoresOtherSockets(s1: Socket, s2: Socket, users: seq<Account>, now: Millis)
    requires s1.userId == s2.userId && s1.id != s2.id
    requires FindUser(users, s1.userId).Some?
    ensures var i := FindUser(users, s1.userId).value;
      !Disconnect(s1, users, now).0[i].isOnline
      && s2 in Recipients(Disconnect(s1, users, now).1, [s2])
  {
  }
}
