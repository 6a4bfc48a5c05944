/**
  The HTTP authentication middleware (server/src/middleware/auth.ts):
  `protect`, which rejects or lets the request through with the token's user,
  and `optionalAuth`, which always lets it through. Token verification is a
  parameter `verify` answering the decoded claims or one of the two error
  kinds the middleware tells apart; `isObjectId` says whether a user id can
  be cast for the lookup.
 */
module AuthMiddleware {
  import opened Common
  import opened Text
  import opened UserModel

  const TokenPrefix := "Bearer"

  datatype Claims = Claims(userId: UserId, exp: Option<int>)

  /** What verifying a token yields: its claims, a `JsonWebTokenError`
      (bad signature, malformed, expired, ...), or any other exception. */
  datatype Verification = Verified(claims: Claims) | JsonWebTokenError | OtherError

  datatype Outcome = Reject(status: Status, message: string) | Next(user: Option<UserId>)

  const NoToken := "Accès non autorisé. Veuillez vous connecter."
  const Expired := "Session expirée. Veuillez vous reconnecter."
  const Vanished := "Utilisateur non trouvé. Veuillez vous reconnecter."
  const BadToken := "Token invalide. Veuillez vous reconnecter."
  const AuthServerError := "Erreur serveur lors de l'authentification."

  /** Position of the first space in `s`. */
  function SpaceAt(s: string): (r: Option<nat>)
    ensures r.Some? ==> r.value < |s| && s[r.value] == ' ' && forall j :: 0 <= j < r.value ==> s[j] != ' '
    ensures r.None? ==> forall j :: 0 <= j < |s| ==> s[j] != ' '
  {
    IndexWhere(s, (c: char) => c == ' ')
  }

  /** `s.split(' ')[1]`: the field between the first and the second space,
      `None` (undefined) when there is no space. */
  function SecondField(s: string): (r: Option<string>)
    ensures r.None? <==> forall j :: 0 <= j < |s| ==> s[j] != ' '
    ensures r.Some? ==> forall j :: 0 <= j < |r.value| ==> r.value[j] != ' '
  {
    match SpaceAt(s)
    case None => None
    case Some(i) =>
      var rest := s[i + 1..];
      match SpaceAt(rest)
      case None => Some(rest)
      case Some(k) => Some(rest[..k])
  }

  /** The token `protect` reads: from a header starting with `Bearer` when
      there is one, otherwise from the cookie. */
  function ExtractToken(header: Option<string>, cookie: Option<string>): (r: Option<string>)
    ensures Truthy(header) && StartsWith(header.value, TokenPrefix) ==> r == SecondField(header.value)
    ensures !(Truthy(header) && StartsWith(header.value, TokenPrefix)) ==> r == if Truthy(cookie) then cookie else None
  {
    if Truthy(header) && StartsWith(header.value, TokenPrefix) then SecondField(header.value)
    else if Truthy(cookie) then cookie
    else None
  }

  /** The manual expiry test: a truthy `exp` whose milliseconds are before now. */
  predicate ExpiredAt(exp: Option<int>, now: Millis) {
    exp.Some? && exp.value != 0 && exp.value * 1000 < now
  }

  /** protect. On success the user's `lastSeen` is set to now. */
  function Protect(header: Option<string>, cookie: Option<string>, verify: string -> Verification,
                   isObjectId: string -> bool, users: seq<Account>, now: Millis): (r: (Outcome, seq<Account>))
    ensures r.0.Reject? ==> r.1 == users && r.0.status in {Unauthorized, ServerError}
    ensures !Truthy(ExtractToken(header, cookie)) ==> r.0 == Reject(Unauthorized, NoToken)
    ensures r.0.Next? <==>
      var t := ExtractToken(header, cookie);
      && Truthy(t)
      && verify(t.value).Verified?
      && !ExpiredAt(verify(t.value).claims.exp, now)
      && isObjectId(verify(t.value).claims.userId)
      && FindUser(users, verify(t.value).claims.userId).Some?
    ensures r.0.Next? ==>
      var uid := verify(ExtractToken(header, cookie).value).claims.userId;
      var i := FindUser(users, uid).value;
      r.0 == Next(Some(uid)) && r.1 == users[i := users[i].(lastSeen := now)]
    ensures r.0 == Reject(ServerError, AuthServerError) <==>
      var t := ExtractToken(header, cookie);
      Truthy(t) && (verify(t.value).OtherError?
                    || (verify(t.value).Verified? && !ExpiredAt(verify(t.value).claims.exp, now)
                        && !isObjectId(verify(t.value).claims.userId)))
  {
    var token := ExtractToken(header, cookie);
    if !Truthy(token) then (Reject(Unauthorized, NoToken), users)
    else match verify(token.value)
      case JsonWebTokenError => (Reject(Unauthorized, BadToken), users)
      case OtherError => (Reject(ServerError, AuthServerError), users)
      case Verified(claims) =>
        if ExpiredAt(claims.exp, now) then (Reject(Unauthorized, Expired), users)
        else if !isObjectId(claims.userId) then (Reject(ServerError, AuthServerError), users)
        else match FindUser(users, claims.userId)
          case None => (Reject(Unauthorized, Vanished), users)
          case Some(i) => (Next(Some(claims.userId)), users[i := users[i].(lastSeen := now)])
  }

  /** optionalAuth: the second space-separated header field, whatever the
      first; any failure is swallowed and the request goes on without a user. */
  function OptionalAuth(header: Option<string>, verify: string -> Verification,
                        isObjectId: string -> bool, users: seq<Account>): (r: Outcome)
    ensures r.Next?
    ensures r.user.Some? <==>
      && header.Some? && Truthy(SecondField(header.value))
      && verify(SecondField(header.value).value).Verified?
      && isObjectId(verify(SecondField(header.value).value).claims.userId)
      && FindUser(users, verify(SecondField(header.value).value).claims.userId).Some?
    ensures r.user.Some? ==> r.user.value == verify(SecondField(header.value).value).claims.userId
  {
    var token := if header.Some? then SecondField(header.value) else None;
    if !Truthy(token) then Next(None)
    else match verify(token.value)
      case Verified(claims) =>
        if isObjectId(claims.userId) && FindUser(users, claims.userId).Some? then Next(Some(claims.userId))
        else Next(None)
      case _ => Next(None)
  }

  // ------------------------------------------------------------ properties

  /** `Bearer <token>` yields the token back, for any token without spaces. */
  lemma {:induction false} BearerRoundTrip(token: string, cookie: Option<string>)
    requires token != [] && forall j :: 0 <= j < |token| ==> token[j] != ' '
    ensures ExtractToken(Some(TokenPrefix + " " + token), cookie) == Some(token)
  {
    var h := TokenPrefix + " " + token;
    assert h[..|TokenPrefix|] == TokenPrefix;
    assert SpaceAt(h) == Some(6) by {
      assert h[6] == ' ';
      assert forall j :: 0 <= j < 6 ==> h[j] == TokenPrefix[j];
    }
    assert h[7..] == token;
  }

  /** A bare `Bearer` header has no second field, and the cookie is not
      consulted: the request is refused even with a valid cookie. */
  lemma BareBearerIgnoresCookie(cookie: Option<string>, verify: string -> Verification,
                                isObjectId: string -> bool, users: seq<Account>, now: Millis)
    ensures ExtractToken(Some(TokenPrefix), cookie) == None
    ensures Protect(Some(TokenPrefix), cookie, verify, isObjectId, users, now).0 == Reject(Unauthorized, NoToken)
  {
    assert SecondField(TokenPrefix) == None by {
      assert forall j :: 0 <= j < |TokenPrefix| ==> TokenPrefix[j] != ' ';
    }
  }

  /** The token library refuses a token whose `exp` has passed (section 4.1.4
      of RFC 7519), comparing whole seconds. */
  predicate HonoursExpiry(v: Verification, now: Millis) {
    v.Verified? && v.claims.exp.Some? && v.claims.exp.value != 0 ==> now / 1000 < v.claims.exp.value
  }

  /** With such a library the middleware's own expiry branch never fires. */
  lemma {:induction false} ManualExpiryUnreachable(header: Option<string>, cookie: Option<string>,
                                                   verify: string -> Verification, isObjectId: string -> bool,
                                                   users: seq<Account>, now: Millis)
    requires var t := ExtractToken(header, cookie); Truthy(t) ==> HonoursExpiry(verify(t.value), now)
    ensures Protect(header, cookie, verify, isObjectId, users, now).0 != Reject(Unauthorized, Expired)
  {
    var t := ExtractToken(header, cookie);
    if Truthy(t) && verify(t.value).Verified? && verify(t.value).claims.exp.Some? && verify(t.value).claims.exp.value != 0 {
      var e := verify(t.value).claims.exp.value;
      assert now / 1000 + 1 <= e;
      assert now < (now / 1000 + 1) * 1000;
      assert !ExpiredAt(verify(t.value).claims.exp, now);
    }
  }

  /** A header `protect` accepts is one `optionalAuth` also resolves to the
      same user. */
  lemma {:induction false} ProtectThenOptionalAgree(header: string, verify: string -> Verification,
                                                    isObjectId: string -> bool, users: seq<Account>, now: Millis)
    requires StartsWith(header, TokenPrefix)
    requires Protect(Some(header), None, verify, isObjectId, users, now).0.Next?
    ensures OptionalAuth(Some(header), verify, isObjectId, users) == Protect(Some(header), None, verify, isObjectId, users, now).0
  {
    assert Truthy(Some(header)) by { assert |header| >= 6; }
  }
}
